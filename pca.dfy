/**
  The PCA feature layer of src/pca.cpp.

  compute eigendecomposes the smaller of the two Gram matrices of the
  (mean-subtracted) data X and keeps at most n1 principal directions in W;
  project maps data onto them with Wᵀ·X. The eigensolver is a parameter
  `eig` that returns a Spectrum for each square matrix.
 */
module Pca {
  import opened Dense
  import opened Matrices

  /** n1 as PCALayer::compute resolves it: -1 stands for min(rows, cols). */
  function ResolveN1(n1: int, rows: int, cols: int): (r: int)
    ensures n1 == -1 ==> r <= rows && r <= cols && (r == rows || r == cols)
    ensures n1 != -1 ==> r == n1
  {
    if n1 == -1 then (if rows < cols then rows else cols) else n1
  }

  /** For every square matrix the solver reports one eigenvalue per column and a full eigenvector matrix. */
  ghost predicate SolverShapes(eig: Mat -> Spectrum) {
    forall M: Mat {:trigger eig(M)} :: M.rows == M.cols ==> |eig(M).values| == M.cols && |eig(M).vectors| == M.rows * M.cols
  }

  /** Term a of the Gram sums for (i, j) and for (j, i) agree. */
  predicate TermSymmetric(A: Mat, B: Mat, i: nat, j: nat, a: nat)
    requires A.Wf() && B.Wf() && i < A.OpRows() && j < A.OpRows() && A.OpRows() == B.OpCols()
    requires a < A.OpCols() && a < B.OpRows()
  {
    A.Op(i, a) * B.Op(a, j) == A.Op(j, a) * B.Op(a, i)
  }

  /** The partial sum Σ_{a<n} A.Op(i, a)·B.Op(a, j) is symmetric in i and j when every term is. */
  lemma {:induction false} GramTermsSymmetric(A: Mat, B: Mat, i: nat, j: nat, n: nat)
    requires A.Wf() && B.Wf() && i < A.OpRows() && j < A.OpRows() && A.OpRows() == B.OpCols()
    requires n <= A.OpCols() && n <= B.OpRows()
    requires forall a :: 0 <= a < n ==> TermSymmetric(A, B, i, j, a)
    ensures DotPrefix(A, B, i, j, n) == DotPrefix(A, B, j, i, n)
  {
    if n > 0 {
      GramTermsSymmetric(A, B, i, j, n - 1);
      assert TermSymmetric(A, B, i, j, n - 1);
    }
  }

  /** Both XᵀX and XXᵀ are symmetric, as the symmetric eigensolver requires. */
  lemma GramIsSymmetric(X: Mat, A: Mat, B: Mat, L: Mat)
    requires X.Wf() && !X.transposed
    requires (A == X.(transposed := true) && B == X) || (A == X && B == X.(transposed := true))
    requires IsProduct(L, A, B)
    ensures L.rows == L.cols
    ensures forall i, j :: 0 <= i < L.rows && 0 <= j < L.cols ==> L.At(i, j) == L.At(j, i)
  {
    forall i, j | 0 <= i < L.rows && 0 <= j < L.cols
      ensures L.At(i, j) == L.At(j, i)
    {
      forall a | 0 <= a < A.OpCols()
        ensures TermSymmetric(A, B, i, j, a)
      {
        var x, y := A.Op(i, a), A.Op(j, a);
        if A.transposed {
          assert x == X.At(a, i) == B.Op(a, i) && y == X.At(a, j) == B.Op(a, j);
        } else {
          assert x == X.At(i, a) == B.Op(a, i) && y == X.At(j, a) == B.Op(a, j);
        }
        assert x * y == y * x;
      }
      GramTermsSymmetric(A, B, i, j, A.OpCols());
    }
  }

  /** A PCA layer: the requested number of components n1, the components W and their eigenvalues D. */
  class PcaLayer {
    var n1: int
    var W: Matrix
    var D: Matrix

    /** PCALayer(n1); W and D start as empty matrices. */
    constructor (n1: int)
      ensures this.n1 == n1
      ensures W.Valid() && W.rows == 0 && W.cols == 0 && D.Valid() && D.rows == 0 && D.cols == 0
      ensures fresh(W) && fresh(D)
    {
      this.n1 := n1;
      W := new Matrix.Empty();
      D := new Matrix.Empty();
    }

    /**
      PCALayer::compute. With more rows than columns the cols×cols matrix
      L = XᵀX is decomposed and W = X·V recovers the components; otherwise the
      rows×rows matrix L = XXᵀ is decomposed and W is its kept eigenvectors.
      `ok` is false where Matrix::eigen aborts the program. L and V are the
      decomposed matrix and its kept eigenvectors.
     */
    method Compute(X: Matrix, eig: Mat -> Spectrum) returns (ok: bool, ghost L: Mat, ghost V: Mat)
      requires X.Valid() && X.T != null && X.rows > 0 && X.cols > 0 && SolverShapes(eig)
      modifies this
      ensures n1 == old(n1)
      ensures X.rows > X.cols ==> IsProduct(L, X.T.Snap(), X.Snap())
      ensures X.rows <= X.cols ==> IsProduct(L, X.Snap(), X.T.Snap())
      ensures ok <==> eig(L).info == 0 && KeepFrom(eig(L).values, ResolveN1(n1, X.rows, X.cols)) < L.cols
      ensures !ok ==> unchanged(this)
      ensures ok ==> W.Valid() && W.T != null && fresh(W) && fresh(W.data) && fresh(W.T)
      ensures ok ==> D.Valid() && D.T != null && fresh(D) && fresh(D.data) && fresh(D.T)
      ensures ok ==> IsColumnRange(V, Mat(L.rows, L.cols, false, eig(L).vectors),
                                   KeepFrom(eig(L).values, ResolveN1(n1, X.rows, X.cols)), L.cols)
      ensures ok ==> IsDiagonalOf(D.Snap(), eig(L).values[KeepFrom(eig(L).values, ResolveN1(n1, X.rows, X.cols))..])
      ensures ok && X.rows > X.cols ==> IsProduct(W.Snap(), X.Snap(), V)
      ensures ok && X.rows <= X.cols ==> W.Snap() == V
      ensures ok ==> W.rows == X.rows && 0 < W.cols == V.cols <= ResolveN1(n1, X.rows, X.cols)
    {
      var n1 := ResolveN1(this.n1, X.rows, X.cols);
      if X.rows > X.cols {
        var Lm := X.T.Product(X);
        L := Lm.Snap();
        var done, Vm, Dm := Lm.Eigen(n1, eig(Lm.Snap()));
        if !done {
          return false, L, L;
        }
        V := Vm.Snap();
        var Wm := X.Product(Vm);
        W, D := Wm, Dm;
      } else {
        var Cm := X.Product(X.T);
        L := Cm.Snap();
        var done, Vm, Dm := Cm.Eigen(n1, eig(Cm.Snap()));
        if !done {
          return false, L, L;
        }
        V := Vm.Snap();
        W, D := Vm, Dm;
      }
      ok := true;
    }

    /** PCALayer::project: TRAN(W)·X, one row per component and one column per observation. */
    method Project(X: Matrix) returns (P: Matrix)
      requires W.Valid() && W.T != null && X.Wf() && X.Snap().OpRows() == W.rows
      ensures P.Valid() && P.rows == W.cols && P.cols == X.Snap().OpCols()
      ensures IsProduct(P.Snap(), Mat(W.rows, W.cols, true, W.data[..]), X.Snap())
    {
      P := W.T.Product(X);
    }

    /** PCALayer::save: only W is written. */
    method Save(file: seq<Cell>) returns (out: seq<Cell>)
      requires W.Wf()
      ensures out == file + Encode(W.Snap())
    {
      out := W.Save(file);
    }

    /** PCALayer::load: only W is read, and only into an empty W. */
    method Load(file: seq<Cell>, pos: nat) returns (outcome: LoadOutcome, next: nat)
      requires W.Valid()
      modifies W
      ensures outcome == NotEmpty <==> old(W.rows * W.cols) != 0
      ensures outcome == Malformed <==> old(W.rows * W.cols) == 0 && Decode(file, pos).None?
      ensures outcome == Loaded ==>
        W.Valid() && W.T != null && fresh(W.data) && fresh(W.T) && Decode(file, pos) == Some((W.Snap(), next))
      ensures outcome != Loaded ==> unchanged(W)
    {
      outcome, next := W.Load(file, pos);
    }
  }
}
