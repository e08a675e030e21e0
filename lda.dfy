/**
  The LDA (Fisherfaces) feature layer of src/feature/lda.cpp.

  compute runs PCA with n1 components, projects the data, forms
  J = S_w⁻¹·S_b from the scatter matrices of the projection, keeps at most n2
  eigenvectors of J and sets W = W_pca·W_fld. The scatter routines and the
  inverse live outside this model and are parameters, as is the eigensolver.
 */
module Lda {
  import opened Dense
  import opened Matrices
  import Pca

  /** How LDALayer::compute ends: normally, at its too-small-training-set exit, or at an abort in inverse or eigen. */
  datatype Outcome = Done | TooSmall | Aborted

  /** n1 as LDALayer::compute resolves it: -1 stands for (number of observations) - c. */
  function ResolveN1(n1: int, cols: int, c: int): int {
    if n1 == -1 then cols - c else n1
  }

  /** n2 as LDALayer::compute resolves it: -1 stands for c - 1. */
  function ResolveN2(n2: int, c: int): int {
    if n2 == -1 then c - 1 else n2
  }

  /** A scatter routine: a square primary matrix as large as the projected data is tall. */
  ghost predicate ScatterShapes(f: Mat -> Mat) {
    forall P: Mat {:trigger f(P)} :: f(P).Wf() && !f(P).transposed && f(P).rows == P.rows && f(P).cols == P.rows
  }

  /** PCA's eigendecomposition of L succeeds with n1 components. */
  ghost predicate EigenSucceeds(eig: Mat -> Spectrum, L: Mat, n: int) {
    eig(L).info == 0 && KeepFrom(eig(L).values, n) < L.cols
  }

  /** An LDA layer: the PCA dimension n1, the LDA dimension n2 and the projection W. */
  class LdaLayer {
    var n1: int
    var n2: int
    var W: Matrix

    /** LDALayer(n1, n2); W starts as the empty matrix. */
    constructor (n1: int, n2: int)
      ensures this.n1 == n1 && this.n2 == n2
      ensures W.Valid() && W.rows == 0 && W.cols == 0 && fresh(W)
    {
      this.n1 := n1;
      this.n2 := n2;
      W := new Matrix.Empty();
    }

    /**
      LDALayer::compute on the data X with c classes. sb is m_scatter_between
      and swInv is the inverse of m_scatter_within, both of the PCA projection;
      swOk says whether Matrix::inverse succeeds on that S_w (it aborts on a
      singular one).
      The ghost results are PCA's decomposed matrix L, its components Wpca, the
      projection P, J = S_w⁻¹·S_b and the kept eigenvectors Wfld of J.
     */
    method Compute(X: Matrix, c: int, eig: Mat -> Spectrum, sb: Mat -> Mat, swInv: Mat -> Mat, swOk: Mat -> bool)
      returns (outcome: Outcome, ghost L: Mat, ghost Wpca: Mat, ghost P: Mat, ghost J: Mat, ghost Wfld: Mat)
      requires X.Valid() && X.T != null && X.rows > 0 && X.cols > 0
      requires Pca.SolverShapes(eig) && ScatterShapes(sb) && ScatterShapes(swInv)
      modifies this
      ensures n1 == old(n1) && n2 == old(n2)
      ensures outcome == TooSmall <==> ResolveN1(n1, X.cols, c) <= 0
      ensures outcome != Done ==> unchanged(this)
      ensures outcome == Done <==>
        0 < ResolveN1(n1, X.cols, c) && EigenSucceeds(eig, L, ResolveN1(n1, X.cols, c)) &&
        swOk(P) && EigenSucceeds(eig, J, ResolveN2(n2, c))
      ensures outcome != TooSmall ==>
        (X.rows > X.cols ==> IsProduct(L, X.T.Snap(), X.Snap())) &&
        (X.rows <= X.cols ==> IsProduct(L, X.Snap(), X.T.Snap()))
      ensures outcome == Done ==>
        Wpca.Wf() && Wpca.rows == X.rows && 0 < Wpca.cols <= ResolveN1(n1, X.cols, c) &&
        IsProduct(P, Wpca.(transposed := true), X.Snap()) &&
        IsProduct(J, swInv(P), sb(P)) &&
        IsColumnRange(Wfld, Mat(J.rows, J.cols, false, eig(J).vectors), KeepFrom(eig(J).values, ResolveN2(n2, c)), J.cols)
      ensures outcome == Done ==>
        W.Valid() && W.T != null && fresh(W) && fresh(W.data) && fresh(W.T) &&
        IsProduct(W.Snap(), Wpca, Wfld) && W.rows == X.rows && W.cols <= ResolveN2(n2, c)
    {
      L, Wpca, P, J, Wfld := X.Snap(), X.Snap(), X.Snap(), X.Snap(), X.Snap();
      var n1 := ResolveN1(this.n1, X.cols, c);
      var n2 := ResolveN2(this.n2, c);
      if n1 <= 0 {
        outcome := TooSmall;
        return;
      }
      var pcaOk, Wp, Pm;
      pcaOk, Wp, Pm, L := Eigenfaces(X, n1, eig);
      if !pcaOk {
        outcome := Aborted;
        return;
      }
      Wpca, P := Wp.Snap(), Pm.Snap();
      var done, Wm;
      done, Wm, J, Wfld := Fisherfaces(Wp, Pm, n2, eig, sb, swInv, swOk);
      if !done {
        outcome := Aborted;
        return;
      }
      W := Wm;
      outcome := Done;
    }

    /**
      The "compute eigenfaces" step of LDALayer::compute: a PCA layer with n1
      components computed on X, and the projection of X onto it. `ok` is
      false where eigen aborts; L is the matrix PCA decomposes.
     */
    static method Eigenfaces(X: Matrix, n1: int, eig: Mat -> Spectrum) returns (ok: bool, Wp: Matrix, Pm: Matrix, ghost L: Mat)
      requires X.Valid() && X.T != null && X.rows > 0 && X.cols > 0 && Pca.SolverShapes(eig) && n1 > 0
      ensures X.rows > X.cols ==> IsProduct(L, X.T.Snap(), X.Snap())
      ensures X.rows <= X.cols ==> IsProduct(L, X.Snap(), X.T.Snap())
      ensures ok <==> EigenSucceeds(eig, L, n1)
      ensures ok ==> Wp.Valid() && Wp.T != null && fresh(Wp) && fresh(Wp.data) && fresh(Wp.T)
      ensures ok ==> Wp.rows == X.rows && 0 < Wp.cols <= n1
      ensures ok ==> Pm.Valid()
      ensures ok ==> IsProduct(Pm.Snap(), Wp.Snap().(transposed := true), X.Snap())
    {
      var pca := new Pca.PcaLayer(n1);
      ghost var V;
      ok, L, V := pca.Compute(X, eig);
      Wp, Pm := pca.W, pca.W;
      if ok {
        Pm := pca.Project(X);
        assert Wp.Snap().(transposed := true) == Mat(Wp.rows, Wp.cols, true, Wp.data[..]);
        assert Pca.ResolveN1(n1, X.rows, X.cols) == n1;
      }
    }

    /**
      The remaining steps of LDALayer::compute: the scatter matrices of the
      PCA projection P, J = S_w⁻¹·S_b, its kept eigenvectors Wfld and
      W = W_pca·W_fld. `ok` is false where inverse or eigen aborts.
     */
    static method Fisherfaces(Wp: Matrix, Pm: Matrix, n2: int, eig: Mat -> Spectrum, sb: Mat -> Mat, swInv: Mat -> Mat,
                              swOk: Mat -> bool)
      returns (ok: bool, W: Matrix, ghost J: Mat, ghost Wfld: Mat)
      requires Wp.Wf() && !Wp.transposed && Pm.Wf() && !Pm.transposed && Pm.rows == Wp.cols && Pm.rows > 0
      requires Pca.SolverShapes(eig) && ScatterShapes(sb) && ScatterShapes(swInv)
      ensures swOk(Pm.Snap()) ==> IsProduct(J, swInv(Pm.Snap()), sb(Pm.Snap()))
      ensures ok <==> swOk(Pm.Snap()) && EigenSucceeds(eig, J, n2)
      ensures ok ==> IsColumnRange(Wfld, Mat(J.rows, J.cols, false, eig(J).vectors), KeepFrom(eig(J).values, n2), J.cols)
      ensures ok ==> W.Valid() && W.T != null && fresh(W) && fresh(W.data) && fresh(W.T)
      ensures ok ==> IsProduct(W.Snap(), Wp.Snap(), Wfld) && W.rows == Wp.rows && W.cols <= n2
    {
      J, Wfld, W := Pm.Snap(), Pm.Snap(), Wp;
      if !swOk(Pm.Snap()) {
        ok := false;
        return;
      }
      var Sb := new Matrix.FromValue(sb(Pm.Snap()));
      var SwInv := new Matrix.FromValue(swInv(Pm.Snap()));
      var Jm := SwInv.Product(Sb);
      J := Jm.Snap();
      var WfldM, JEval;
      ok, WfldM, JEval := Jm.Eigen(n2, eig(Jm.Snap()));
      Wfld := J;
      W := Wp;
      if ok {
        Wfld := WfldM.Snap();
        W := Wp.Product(WfldM);
      }
    }

    /** LDALayer::project: W.T()·X, one row per feature and one column per observation. */
    method Project(X: Matrix) returns (R: Matrix)
      requires W.Valid() && W.T != null && X.Wf() && X.Snap().OpRows() == W.rows
      ensures R.Valid() && R.rows == W.cols && R.cols == X.Snap().OpCols()
      ensures IsProduct(R.Snap(), Mat(W.rows, W.cols, true, W.data[..]), X.Snap())
    {
      R := W.T.Product(X);
    }

    /** LDALayer::save: only W is written. */
    method Save(file: seq<Cell>) returns (out: seq<Cell>)
      requires W.Wf()
      ensures out == file + Encode(W.Snap())
    {
      out := W.Save(file);
    }

    /** LDALayer::load: only W is read, and only into an empty W. */
    method Load(file: seq<Cell>, pos: nat) returns (outcome: LoadOutcome, next: nat)
      requires W.Valid()
      modifies W
      ensures outcome == NotEmpty <==> old(W.rows * W.cols) != 0
      ensures outcome == Malformed <==> old(W.rows * W.cols) == 0 && Decode(file, pos).None?
      ensures outcome == Loaded ==>
        W.Valid() && W.T != null && fresh(W.data) && fresh(W.T) && Decode(file, pos) == Some((W.Snap(), next))
      ensures outcome != Loaded ==> unchanged(W)
    {
      outcome, next := W.Load(file, pos);
    }
  }
}
