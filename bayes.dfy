/**
  The Bayes classifier of src/classifier/bayes.cpp.

  Each class j has a mean mu_j and an inverted scatter matrix S_j. A test
  column x is scored with the discriminant -1/2 (x - mu_j)ᵀ S_j (x - mu_j),
  and it gets the label of the first class with the largest score.
 */
module Bayes {
  import opened Dense
  import opened Matrices
  import opened Data

  /** x - mu, elementwise. */
  function Diff(x: seq<real>, mu: seq<real>): (d: seq<real>)
    requires |x| == |mu|
    ensures |d| == |x| && forall a :: 0 <= a < |x| ==> d[a] == x[a] - mu[a]
  {
    seq(|x|, a requires 0 <= a < |x| => x[a] - mu[a])
  }

  /** Entry b of the row vector dᵀ·S, summed over the first n rows: Σ_{a<n} d[a]·S(a, b). */
  function RowTimes(d: seq<real>, S: Mat, b: nat, n: nat): real
    requires S.Wf() && n <= |d| && n <= S.rows && b < S.cols
  {
    if n == 0 then 0.0 else RowTimes(d, S, b, n - 1) + d[n - 1] * S.At(n - 1, b)
  }

  /** Σ_{b<n} (dᵀ·S)_b · d[b]: the first n terms of the quadratic form dᵀ·S·d. */
  function Quad(d: seq<real>, S: Mat, n: nat): real
    requires S.Wf() && S.rows == |d| && n <= S.cols && n <= |d|
  {
    if n == 0 then 0.0 else Quad(d, S, n - 1) + RowTimes(d, S, n - 1, |d|) * d[n - 1]
  }

  /** The discriminant g(x) = -1/2 · (x - mu)ᵀ · S · (x - mu). */
  function Discriminant(x: seq<real>, mu: seq<real>, S: Mat): real
    requires |x| == |mu| && S.Wf() && S.rows == |x| && S.cols == |x|
  {
    -0.5 * Quad(Diff(x, mu), S, |x|)
  }

  /** Column i of M, top to bottom. */
  function Column(M: Mat, i: nat): (c: seq<real>)
    requires M.Wf() && i < M.cols
    ensures |c| == M.rows && forall r :: 0 <= r < M.rows ==> c[r] == M.At(r, i)
  {
    seq(M.rows, r requires 0 <= r < M.rows => M.At(r, i))
  }

  /** The copy X_test(i, i + 1) holds column i. */
  lemma ColumnCopyIsColumn(C: Mat, M: Mat, i: nat)
    requires IsColumnRange(C, M, i, i + 1)
    ensures C.elems == Column(M, i)
  {
    assert forall r :: 0 <= r < M.rows ==> C.elems[r] == C.At(r, 0);
  }

  /** Row b of the product (view of the column d)·S is dᵀ·S. */
  lemma {:induction false} RowTimesIsDot(d: seq<real>, S: Mat, V: Mat, b: nat, m: nat)
    requires V == Mat(|d|, 1, true, d) && S.Wf() && !S.transposed && S.rows == |d|
    requires b < S.cols && m <= |d|
    ensures DotPrefix(V, S, 0, b, m) == RowTimes(d, S, b, m)
  {
    if m > 0 {
      RowTimesIsDot(d, S, V, b, m - 1);
      assert V.Op(0, m - 1) == d[m - 1];
    }
  }

  /** The 1×1 product (dᵀ·S)·d is the quadratic form. */
  lemma {:induction false} QuadIsDot(d: seq<real>, S: Mat, R: Mat, X: Mat, m: nat)
    requires X == Mat(|d|, 1, false, d) && S.Wf() && S.rows == |d| && S.cols == |d|
    requires R.Wf() && !R.transposed && R.rows == 1 && R.cols == |d|
    requires forall b :: 0 <= b < |d| ==> R.At(0, b) == RowTimes(d, S, b, |d|)
    requires m <= |d|
    ensures DotPrefix(R, X, 0, 0, m) == Quad(d, S, m)
  {
    if m > 0 {
      QuadIsDot(d, S, R, X, m - 1);
      assert X.Op(m - 1, 0) == d[m - 1];
    }
  }

  /**
    bayes_prob: x is taken by value, so the copy is centred with x -= mu and
    the caller's x is left alone; the score is -1/2 times element (0, 0) of
    TRAN(x)·S_inv·x.
   */
  method BayesProb(x: Matrix, mu: Matrix, SInv: Matrix) returns (p: real)
    requires x.Wf() && mu.Wf() && SInv.Wf() && x.cols == 1
    requires mu.rows == x.rows && mu.cols == 1
    requires !SInv.transposed && SInv.rows == x.rows && SInv.cols == x.rows
    ensures p == Discriminant(x.data[..], mu.data[..], SInv.Snap())
  {
    var xc := Matrix.Copy(x);
    xc.Subtract(mu);
    ghost var d := xc.data[..];
    assert d == Diff(x.data[..], mu.data[..]);
    var t := xc.T.Product(SInv);
    assert xc.T.Snap() == Mat(|d|, 1, true, d);
    forall b | 0 <= b < |d|
      ensures t.Snap().At(0, b) == RowTimes(d, SInv.Snap(), b, |d|)
    {
      RowTimesIsDot(d, SInv.Snap(), xc.T.Snap(), b, |d|);
    }
    var q := t.Product(xc);
    assert xc.Snap() == Mat(|d|, 1, false, d);
    QuadIsDot(d, SInv.Snap(), t.Snap(), xc.Snap(), |d|);
    p := -0.5 * q.data[Idx(1, 1, 0, 0)];
  }

  /**
    What std::max_element returns on a non-empty list: the first position of
    the largest value (it moves only on a strictly larger one).
   */
  function ArgMax(s: seq<real>): (r: nat)
    requires |s| > 0
    ensures r < |s|
    ensures forall t :: 0 <= t < |s| ==> s[t] <= s[r]
    ensures forall t :: 0 <= t < r ==> s[t] < s[r]
  {
    if |s| == 1 then 0
    else
      var b := ArgMax(s[..|s| - 1]);
      if s[b] < s[|s| - 1] then |s| - 1 else b
  }

  /** The first position of the maximum is unique, so it is ArgMax. */
  lemma {:induction false} ArgMaxIsFirstMax(s: seq<real>, r: nat)
    requires r < |s|
    requires forall t :: 0 <= t < |s| ==> s[t] <= s[r]
    requires forall t :: 0 <= t < r ==> s[t] < s[r]
    ensures r == ArgMax(s)
  {
    var b := ArgMax(s);
    assert s[b] <= s[r] && s[r] <= s[b];
  }

  /** The shapes predict needs: column means and square inverted scatters of XTest's height. */
  ghost predicate ClassModels(XTest: Matrix, U: seq<Matrix>, SInv: seq<Matrix>)
    reads XTest, set j | 0 <= j < |U| :: U[j], set j | 0 <= j < |SInv| :: SInv[j]
  {
    |U| == |SInv| &&
    (forall j :: 0 <= j < |U| ==>
      U[j].Wf() && U[j].rows == XTest.rows && U[j].cols == 1 && U[j].data.Length == XTest.rows) &&
    (forall j :: 0 <= j < |SInv| ==>
      SInv[j].Wf() && !SInv[j].transposed && SInv[j].rows == XTest.rows && SInv[j].cols == XTest.rows)
  }

  /** The means of the classes, as values. */
  ghost function Means(U: seq<Matrix>): (r: seq<seq<real>>)
    reads set j | 0 <= j < |U| :: U[j], set j | 0 <= j < |U| :: U[j].data
    ensures |r| == |U| && forall j :: 0 <= j < |U| ==> r[j] == U[j].data[..]
  {
    seq(|U|, j reads U, set j | 0 <= j < |U| :: U[j], set j | 0 <= j < |U| :: U[j].data
              requires 0 <= j < |U| => U[j].data[..])
  }

  /** The inverted scatters of the classes, as values. */
  ghost function Inverses(SInv: seq<Matrix>): (r: seq<Mat>)
    requires forall j :: 0 <= j < |SInv| ==> SInv[j].Wf()
    reads set j | 0 <= j < |SInv| :: SInv[j], set j | 0 <= j < |SInv| :: SInv[j].data
    ensures |r| == |SInv| && forall j :: 0 <= j < |SInv| ==> r[j] == SInv[j].Snap()
  {
    seq(|SInv|, j reads set j | 0 <= j < |SInv| :: SInv[j], set j | 0 <= j < |SInv| :: SInv[j].data
                 requires 0 <= j < |SInv| && SInv[j].Wf() => SInv[j].Snap())
  }

  /** Class means and inverted scatters that fit test columns of height n. */
  predicate Fits(n: int, mus: seq<seq<real>>, Ss: seq<Mat>) {
    |mus| == |Ss| &&
    forall j :: 0 <= j < |mus| ==> |mus[j]| == n && Ss[j].Wf() && Ss[j].rows == n && Ss[j].cols == n
  }

  /** The matrices predict is given fit the test columns. */
  lemma ClassModelsFit(XTest: Matrix, U: seq<Matrix>, SInv: seq<Matrix>)
    requires ClassModels(XTest, U, SInv)
    ensures Fits(XTest.rows, Means(U), Inverses(SInv))
  {
    var mus, Ss := Means(U), Inverses(SInv);
    forall j | 0 <= j < |mus|
      ensures |mus[j]| == XTest.rows && Ss[j].Wf() && Ss[j].rows == XTest.rows && Ss[j].cols == XTest.rows
    {
      assert mus[j] == U[j].data[..] && Ss[j] == SInv[j].Snap();
    }
  }

  /** The discriminant of the column x for every class, in class order. */
  function Scores(x: seq<real>, mus: seq<seq<real>>, Ss: seq<Mat>): (r: seq<real>)
    requires Fits(|x|, mus, Ss)
    ensures |r| == |mus|
  {
    seq(|mus|, j requires 0 <= j < |mus| => Discriminant(x, mus[j], Ss[j]))
  }

  /** The label predict gives the column x: the class at the first largest discriminant. */
  function Classify(C: seq<Label>, x: seq<real>, mus: seq<seq<real>>, Ss: seq<Mat>): Label
    requires |C| == |mus| > 0 && Fits(|x|, mus, Ss)
  {
    C[ArgMax(Scores(x, mus, Ss))]
  }

  /**
    Classify picks the label of a class j whose discriminant no class beats
    and that every class before it scores strictly lower than.
   */
  lemma ClassifyIsFirstBest(C: seq<Label>, x: seq<real>, mus: seq<seq<real>>, Ss: seq<Mat>)
    requires |C| == |mus| > 0 && Fits(|x|, mus, Ss)
    ensures exists j :: (0 <= j < |C| && Classify(C, x, mus, Ss) == C[j] &&
      (forall t :: 0 <= t < |C| ==> Discriminant(x, mus[t], Ss[t]) <= Discriminant(x, mus[j], Ss[j])) &&
      (forall t :: 0 <= t < j ==> Discriminant(x, mus[t], Ss[t]) < Discriminant(x, mus[j], Ss[j])))
  {
    var s := Scores(x, mus, Ss);
    var j := ArgMax(s);
    assert forall t :: 0 <= t < |C| ==> s[t] == Discriminant(x, mus[t], Ss[t]);
    assert Classify(C, x, mus, Ss) == C[j];
  }

  /**
    The inner loop of BayesLayer::predict: the discriminant of test column i
    for every class, in class order.
   */
  method ClassScores(XTest: Matrix, i: int, U: seq<Matrix>, SInv: seq<Matrix>) returns (probs: seq<real>)
    requires XTest.Wf() && 0 <= i < XTest.cols && ClassModels(XTest, U, SInv)
    ensures Fits(XTest.rows, Means(U), Inverses(SInv))
    ensures probs == Scores(Column(XTest.Snap(), i), Means(U), Inverses(SInv))
  {
    ClassModelsFit(XTest, U, SInv);
    probs := [];
    for j := 0 to |U|
      invariant |probs| == j
      invariant forall a :: 0 <= a < j ==>
        probs[a] == Discriminant(Column(XTest.Snap(), i), U[a].data[..], SInv[a].Snap())
    {
      var xi := new Matrix.CopyColumns(XTest, i, i + 1);
      ColumnCopyIsColumn(xi.Snap(), XTest.Snap(), i);
      var p := BayesProb(xi, U[j], SInv[j]);
      probs := probs + [p];
    }
  }

  /**
    BayesLayer::predict on given class means U and inverted class scatters
    S_inv: each test column gets the class at the first maximum of its
    discriminants. C must not be empty.
   */
  method Predict(C: seq<Label>, XTest: Matrix, U: seq<Matrix>, SInv: seq<Matrix>) returns (pred: seq<Label>)
    requires XTest.Wf() && |C| > 0 && |U| == |C| && ClassModels(XTest, U, SInv)
    ensures Fits(XTest.rows, Means(U), Inverses(SInv))
    ensures |pred| == XTest.cols
    ensures forall i :: 0 <= i < XTest.cols ==>
      pred[i] == Classify(C, Column(XTest.Snap(), i), Means(U), Inverses(SInv))
  {
    pred := [];
    ClassModelsFit(XTest, U, SInv);
    ghost var XS, mus, Ss := XTest.Snap(), Means(U), Inverses(SInv);
    for i := 0 to XTest.cols
      invariant XTest.Snap() == XS && Means(U) == mus && Inverses(SInv) == Ss
      invariant |pred| == i
      invariant forall t :: 0 <= t < i ==> pred[t] == Classify(C, Column(XS, t), mus, Ss)
    {
      var l := PredictColumn(C, XTest, i, U, SInv);
      pred := pred + [l];
    }
  }

  /** One column of BayesLayer::predict: the class scores, then the class at the first maximum. */
  method PredictColumn(C: seq<Label>, XTest: Matrix, i: int, U: seq<Matrix>, SInv: seq<Matrix>) returns (l: Label)
    requires XTest.Wf() && 0 <= i < XTest.cols && |C| == |U| > 0 && ClassModels(XTest, U, SInv)
    ensures Fits(XTest.rows, Means(U), Inverses(SInv))
    ensures l == Classify(C, Column(XTest.Snap(), i), Means(U), Inverses(SInv))
  {
    ClassModelsFit(XTest, U, SInv);
    var probs := ClassScores(XTest, i, U, SInv);
    var index := ArgMax(probs);
    l := C[index];
  }
}
