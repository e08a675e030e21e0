/**
  The k-nearest-neighbours classifier of src/classifier/knn.cpp.

  A test column is labelled by the most frequent label among its k nearest
  training columns. Ties in frequency go to the label seen first in the
  neighbour list sorted by distance. The distance function and the sort are
  parameters: the layer stores any distance function, and std::sort may put
  neighbours at equal distance in any order.
 */
module Knn {
  import opened Dense
  import opened Matrices
  import opened Data

  /** neighbor_t: the label of a training column and its distance to the test column. */
  datatype Neighbor = Neighbor(lbl: Label, dist: real)

  /** item_count_t: a label and how often it has been seen. */
  datatype ItemCount = ItemCount(id: Label, count: int)

  /** kNN_compare: a strictly closer than b. */
  predicate Closer(a: Neighbor, b: Neighbor) {
    a.dist < b.dist
  }

  /** Sorted with respect to kNN_compare: no neighbour is closer than one before it. */
  predicate SortedByDistance(s: seq<Neighbor>) {
    forall a, b :: 0 <= a < b < |s| ==> !Closer(s[b], s[a])
  }

  /** What std::sort with kNN_compare may return: a rearrangement sorted by distance. */
  ghost predicate SortsByDistance(sort: seq<Neighbor> -> seq<Neighbor>) {
    forall s :: SortedByDistance(sort(s)) && multiset(sort(s)) == multiset(s) && |sort(s)| == |s|
  }

  function Labels(s: seq<Neighbor>): (r: seq<Label>)
    ensures |r| == |s| && forall i :: 0 <= i < |s| ==> r[i] == s[i].lbl
  {
    seq(|s|, i requires 0 <= i < |s| => s[i].lbl)
  }

  /** How often label l occurs in s. */
  function Count(s: seq<Label>, l: Label): nat {
    multiset(s)[l]
  }

  /**
    The distinct labels of s in order of first appearance: the order in which
    kNN_mode's scan appends them to `counts`.
   */
  function FirstOrder(s: seq<Label>): (r: seq<Label>)
    ensures forall l :: l in r <==> l in s
    ensures forall a, b :: 0 <= a < b < |r| ==> r[a] != r[b]
  {
    if s == [] then []
    else
      var d := FirstOrder(s[..|s| - 1]);
      assert forall l :: l in s <==> l in s[..|s| - 1] || l == s[|s| - 1] by {
        assert s == s[..|s| - 1] + [s[|s| - 1]];
      }
      if s[|s| - 1] in d then d else d + [s[|s| - 1]]
  }

  /** The position of the first occurrence of l in s. */
  function FirstIndex(s: seq<Label>, l: Label): (i: nat)
    requires l in s
    ensures i < |s| && s[i] == l
    ensures forall t :: 0 <= t < i ==> s[t] != l
  {
    if s[0] == l then 0 else 1 + FirstIndex(s[1..], l)
  }

  /**
    The index that kNN_mode's second loop settles on after scanning d[..n]:
    it moves only on a strictly larger count, so it ends at the first index of
    the largest count.
   */
  function BestIn(d: seq<Label>, s: seq<Label>, n: nat): (b: nat)
    requires 1 <= n <= |d|
    ensures b < n
    ensures forall t :: 0 <= t < n ==> Count(s, d[t]) <= Count(s, d[b])
    ensures forall t :: 0 <= t < b ==> Count(s, d[t]) < Count(s, d[b])
  {
    if n == 1 then 0
    else
      var b := BestIn(d, s, n - 1);
      if Count(s, d[b]) < Count(s, d[n - 1]) then n - 1 else b
  }

  /** The label kNN_mode returns for the label list s. */
  function ModeOf(s: seq<Label>): Label
    requires |s| > 0
  {
    var d := FirstOrder(s);
    assert s[0] in d;
    d[BestIn(d, s, |d|)]
  }

  /**
    r is the mode of s with the first-seen tie-break: it occurs in s, no label
    occurs more often, and among the labels that occur as often it is the one
    that appears first.
   */
  predicate IsMode(r: Label, s: seq<Label>) {
    r in s &&
    (forall l :: l in s ==> Count(s, l) <= Count(s, r)) &&
    (forall l :: l in s && Count(s, l) == Count(s, r) ==> FirstIndex(s, r) <= FirstIndex(s, l))
  }

  lemma {:induction false} FirstIndexSnoc(p: seq<Label>, x: Label, l: Label)
    requires l in p + [x]
    ensures l in p ==> FirstIndex(p + [x], l) == FirstIndex(p, l)
    ensures l !in p ==> FirstIndex(p + [x], l) == |p|
  {
    if l in p {
      assert (p + [x])[FirstIndex(p, l)] == l;
    }
  }

  /** Labels that come earlier in FirstOrder(s) first occur earlier in s. */
  lemma {:induction false} FirstOrderFollowsFirstIndex(s: seq<Label>, a: nat, b: nat)
    requires a < b < |FirstOrder(s)|
    ensures FirstIndex(s, FirstOrder(s)[a]) < FirstIndex(s, FirstOrder(s)[b])
    decreases |s|
  {
    var p := s[..|s| - 1];
    var x := s[|s| - 1];
    assert s == p + [x];
    var dp := FirstOrder(p);
    var d := FirstOrder(s);
    if x in dp {
      assert d == dp;
      FirstOrderFollowsFirstIndex(p, a, b);
      FirstIndexSnoc(p, x, d[a]);
      FirstIndexSnoc(p, x, d[b]);
    } else {
      assert d == dp + [x];
      FirstIndexSnoc(p, x, d[a]);
      FirstIndexSnoc(p, x, d[b]);
      if b < |dp| {
        FirstOrderFollowsFirstIndex(p, a, b);
      } else {
        assert d[a] == dp[a] && dp[a] in p;
        assert d[b] == x && x !in p;
      }
    }
  }

  /** kNN_mode's answer is the mode of its labels, with the first-seen tie-break. */
  lemma {:induction false} ModeOfIsMode(s: seq<Label>)
    requires |s| > 0
    ensures IsMode(ModeOf(s), s)
  {
    var d := FirstOrder(s);
    assert s[0] in d;
    var b := BestIn(d, s, |d|);
    var r := d[b];
    assert r == ModeOf(s);
    forall l | l in s
      ensures Count(s, l) <= Count(s, r)
      ensures Count(s, l) == Count(s, r) ==> FirstIndex(s, r) <= FirstIndex(s, l)
    {
      assert l in d;
      var t :| 0 <= t < |d| && d[t] == l;
      if t < b {
        assert Count(s, l) < Count(s, r);
      } else if b < t {
        FirstOrderFollowsFirstIndex(s, b, t);
      }
    }
  }

  /** At most one label is the mode in the sense of IsMode. */
  lemma {:induction false} ModeIsUnique(r1: Label, r2: Label, s: seq<Label>)
    requires IsMode(r1, s) && IsMode(r2, s)
    ensures r1 == r2
  {
    assert Count(s, r1) == Count(s, r2);
    assert FirstIndex(s, r1) == FirstIndex(s, r2);
  }

  /** `counts` after scanning the labels p: one entry per distinct label, in first-seen order. */
  ghost predicate CountsOf(counts: seq<ItemCount>, p: seq<Label>) {
    |counts| == |FirstOrder(p)| &&
    forall t :: 0 <= t < |counts| ==>
      counts[t].id == FirstOrder(p)[t] && counts[t].count == Count(p, counts[t].id)
  }

  /** One step of kNN_mode's tally: the scan stopped at j, then appends or increments. */
  lemma {:induction false} CountsStep(counts: seq<ItemCount>, p: seq<Label>, id: Label, j: nat)
    requires CountsOf(counts, p) && j <= |counts|
    requires forall t :: 0 <= t < j ==> counts[t].id != id
    requires j < |counts| ==> counts[j].id == id
    ensures j == |counts| ==> CountsOf(counts + [ItemCount(id, 1)], p + [id])
    ensures j < |counts| ==> CountsOf(counts[j := counts[j].(count := counts[j].count + 1)], p + [id])
  {
    var q := p + [id];
    assert q[..|q| - 1] == p;
    var d := FirstOrder(p);
    assert multiset(q) == multiset(p) + multiset{id};
    if j == |counts| {
      assert id !in d;
      assert FirstOrder(q) == d + [id];
    } else {
      assert id in d;
      assert FirstOrder(q) == d;
    }
  }

  /**
    kNN_mode: tally the labels in order of first appearance, then keep the
    first entry with the largest count. The list must not be empty, since the
    source reads counts[0].
   */
  method Mode(items: seq<Neighbor>) returns (r: Label)
    requires |items| > 0
    ensures r == ModeOf(Labels(items))
    ensures IsMode(r, Labels(items))
  {
    var counts := Tally(items);
    TallyPicksMode(counts, Labels(items));
    var max := Largest(counts);
    r := max.id;
  }

  /** The second loop of kNN_mode: the first entry with the largest count. */
  method Largest(counts: seq<ItemCount>) returns (max: ItemCount)
    requires |counts| > 0
    ensures max == counts[FirstMax(counts, |counts|)]
    ensures forall t :: 0 <= t < |counts| ==> counts[t].count <= max.count
  {
    max := counts[0];
    for i := 1 to |counts|
      invariant max == counts[FirstMax(counts, i)]
    {
      if max.count < counts[i].count {
        max := counts[i];
      }
    }
  }

  /** A finished tally of a non-empty list is not empty, and its first largest entry names the mode. */
  lemma TallyPicksMode(counts: seq<ItemCount>, s: seq<Label>)
    requires CountsOf(counts, s) && |s| > 0
    ensures |counts| > 0
    ensures counts[FirstMax(counts, |counts|)].id == ModeOf(s)
    ensures IsMode(ModeOf(s), s)
  {
    assert s[0] in FirstOrder(s);
    FirstMaxIsBestIn(counts, s, |counts|);
    ModeOfIsMode(s);
  }

  /** The entry kNN_mode's second loop keeps after scanning counts[..n]: the first with the largest count. */
  function FirstMax(counts: seq<ItemCount>, n: nat): (b: nat)
    requires 1 <= n <= |counts|
    ensures b < n
    ensures forall t :: 0 <= t < n ==> counts[t].count <= counts[b].count
    ensures forall t :: 0 <= t < b ==> counts[t].count < counts[b].count
  {
    if n == 1 then 0
    else
      var b := FirstMax(counts, n - 1);
      if counts[b].count < counts[n - 1].count then n - 1 else b
  }

  /** On a finished tally, the scan over the entries picks the label ModeOf picks. */
  lemma {:induction false} FirstMaxIsBestIn(counts: seq<ItemCount>, s: seq<Label>, n: nat)
    requires CountsOf(counts, s) && 1 <= n <= |counts|
    ensures FirstMax(counts, n) == BestIn(FirstOrder(s), s, n)
  {
    if n > 1 {
      FirstMaxIsBestIn(counts, s, n - 1);
    }
  }

  /** The first loop of kNN_mode: how often each label occurs, in order of first appearance. */
  method Tally(items: seq<Neighbor>) returns (counts: seq<ItemCount>)
    ensures CountsOf(counts, Labels(items))
  {
    ghost var L := Labels(items);
    counts := [];
    for n := 0 to |items|
      invariant CountsOf(counts, L[..n])
    {
      var id := items[n].lbl;
      assert L[..n + 1] == L[..n] + [id];
      var j := 0;
      while j < |counts| && counts[j].id != id
        invariant 0 <= j <= |counts|
        invariant forall t :: 0 <= t < j ==> counts[t].id != id
      {
        j := j + 1;
      }
      CountsStep(counts, L[..n], id, j);
      if j == |counts| {
        counts := counts + [ItemCount(id, 1)];
      } else {
        counts := counts[j := counts[j].(count := counts[j].count + 1)];
      }
    }
    assert L[..|items|] == L;
  }

  /** The neighbour list predict builds for test column i, in training-column order. */
  function NeighborsOf(dist: (Mat, int, Mat, int) -> real, XTest: Mat, i: int, X: Mat, Y: seq<Entry>): (r: seq<Neighbor>)
    requires X.cols <= |Y|
    ensures |r| == X.cols
    ensures forall j :: 0 <= j < X.cols ==> r[j] == Neighbor(Y[j].lbl, dist(XTest, i, X, j))
  {
    seq(X.cols, j requires 0 <= j < X.cols => Neighbor(Y[j].lbl, dist(XTest, i, X, j)))
  }

  /**
    After sorting and truncating to k, every kept neighbour is at least as
    close as every discarded one.
   */
  lemma {:induction false} KeptAreNearest(N: seq<Neighbor>, S: seq<Neighbor>, k: nat)
    requires SortedByDistance(S) && multiset(S) == multiset(N) && k <= |S|
    ensures forall x, y :: x in multiset(S[..k]) && y in multiset(N) - multiset(S[..k]) ==> x.dist <= y.dist
  {
    assert S == S[..k] + S[k..];
    assert multiset(N) - multiset(S[..k]) == multiset(S[k..]);
    forall x, y | x in multiset(S[..k]) && y in multiset(S[k..])
      ensures x.dist <= y.dist
    {
      assert x in S[..k];
      assert y in S[k..];
      var a :| 0 <= a < k && S[a] == x;
      var b :| 0 <= b < |S| - k && S[k..][b] == y;
      assert !Closer(S[k + b], S[a]);
    }
  }

  /** The mode of the kept labels is the label of one of the neighbours. */
  lemma {:induction false} ModeIsNeighborLabel(N: seq<Neighbor>, S: seq<Neighbor>, k: nat)
    requires multiset(S) == multiset(N) && 1 <= k <= |S|
    ensures ModeOf(Labels(S[..k])) in Labels(N)
  {
    var l := ModeOf(Labels(S[..k]));
    ModeOfIsMode(Labels(S[..k]));
    var a :| 0 <= a < k && Labels(S[..k])[a] == l;
    assert S[a] in multiset(N);
    var j :| 0 <= j < |N| && N[j] == S[a];
    assert Labels(N)[j] == l;
  }

  /** The kNN classifier: the number of neighbours k and the distance function. */
  class KnnLayer {
    var k: int
    var dist: (Mat, int, Mat, int) -> real

    /** KNNLayer(k, dist). */
    constructor (k: int, dist: (Mat, int, Mat, int) -> real)
      ensures this.k == k && this.dist == dist
    {
      this.k := k;
      this.dist := dist;
    }

    /**
      KNNLayer::predict: for each test column, the distance to every training
      column, sorted by distance, truncated to k, and the mode of the kept
      labels. The erase needs k <= X.cols() and kNN_mode a non-empty list.
     */
    method Predict(X: Matrix, Y: seq<Entry>, C: seq<Label>, XTest: Matrix, sort: seq<Neighbor> -> seq<Neighbor>)
      returns (pred: seq<Label>)
      requires X.Wf() && XTest.Wf() && X.cols <= |Y|
      requires 1 <= k <= X.cols
      requires SortsByDistance(sort)
      ensures |pred| == XTest.cols
      ensures forall i :: 0 <= i < XTest.cols ==> pred[i] == Prediction(dist, k, sort, XTest.Snap(), i, X.Snap(), Y)
      ensures forall i :: 0 <= i < XTest.cols ==> exists j :: 0 <= j < X.cols && pred[i] == Y[j].lbl
    {
      pred := [];
      ghost var XS, TS, d, kk := X.Snap(), XTest.Snap(), dist, k;
      ghost var f: nat -> Label := t => Prediction(d, kk, sort, TS, t, XS, Y);
      for i := 0 to XTest.cols
        invariant pred == Tabulate(f, i)
      {
        var y := PredictColumn(X, Y, XTest, i, sort);
        pred := pred + [y];
      }
      TabulateAt(f, XTest.cols);
      forall t | 0 <= t < XTest.cols
        ensures exists j :: 0 <= j < X.cols && pred[t] == Y[j].lbl
      {
        PredictionIsTrainingLabel(d, kk, sort, TS, t, XS, Y);
      }
    }

    /** One iteration of predict's outer loop: the label predicted for test column i. */
    method PredictColumn(X: Matrix, Y: seq<Entry>, XTest: Matrix, i: int, sort: seq<Neighbor> -> seq<Neighbor>)
      returns (y: Label)
      requires X.Wf() && XTest.Wf() && X.cols <= |Y|
      requires 1 <= k <= X.cols
      requires SortsByDistance(sort)
      ensures y == Prediction(dist, k, sort, XTest.Snap(), i, X.Snap(), Y)
      ensures exists j :: 0 <= j < X.cols && y == Y[j].lbl
    {
      var neighbors := Neighbors(X, Y, XTest, i);
      neighbors := sort(neighbors);
      neighbors := neighbors[..k];
      y := Mode(neighbors);
      PredictionIsTrainingLabel(dist, k, sort, XTest.Snap(), i, X.Snap(), Y);
    }

    /** The inner loop of predict: one neighbour per training column, in column order. */
    method Neighbors(X: Matrix, Y: seq<Entry>, XTest: Matrix, i: int) returns (neighbors: seq<Neighbor>)
      requires X.Wf() && XTest.Wf() && X.cols <= |Y|
      ensures neighbors == NeighborsOf(dist, XTest.Snap(), i, X.Snap(), Y)
    {
      neighbors := [];
      for j := 0 to X.cols
        invariant neighbors == NeighborsOf(dist, XTest.Snap(), i, X.Snap(), Y)[..j]
      {
        neighbors := neighbors + [Neighbor(Y[j].lbl, dist(XTest.Snap(), i, X.Snap(), j))];
      }
    }
  }

  /**
    What predict answers for test column i: the mode of the labels of the k
    nearest training columns, as ordered by the sort.
   */
  ghost function Prediction(dist: (Mat, int, Mat, int) -> real, k: int, sort: seq<Neighbor> -> seq<Neighbor>,
                            XTest: Mat, i: int, X: Mat, Y: seq<Entry>): Label
    requires X.cols <= |Y| && 1 <= k <= X.cols && SortsByDistance(sort)
  {
    var S := sort(NeighborsOf(dist, XTest, i, X, Y));
    ModeOf(Labels(S[..k]))
  }

  /** Every prediction is the label of one of the training entries Y[0..X.cols). */
  lemma {:induction false} PredictionIsTrainingLabel(dist: (Mat, int, Mat, int) -> real, k: int,
                                                     sort: seq<Neighbor> -> seq<Neighbor>,
                                                     XTest: Mat, i: int, X: Mat, Y: seq<Entry>)
    requires X.cols <= |Y| && 1 <= k <= X.cols && SortsByDistance(sort)
    ensures exists j :: 0 <= j < X.cols && Prediction(dist, k, sort, XTest, i, X, Y) == Y[j].lbl
  {
    var N := NeighborsOf(dist, XTest, i, X, Y);
    ModeIsNeighborLabel(N, sort(N), k);
    var j :| 0 <= j < |N| && Labels(N)[j] == Prediction(dist, k, sort, XTest, i, X, Y);
  }

  /** Inserts x into a distance-sorted list before the first neighbour farther away. */
  function Insert(x: Neighbor, s: seq<Neighbor>): (r: seq<Neighbor>)
    requires SortedByDistance(s)
    ensures forall i :: 0 <= i < |r| ==> r[i] == x || r[i] in s
    ensures |r| == |s| + 1
    ensures SortedByDistance(r) && multiset(r) == multiset(s) + multiset{x}
  {
    if s == [] || !Closer(s[0], x) then [x] + s
    else
      assert s == [s[0]] + s[1..];
      var t := Insert(x, s[1..]);
      assert forall j :: 0 <= j < |t| ==> !Closer(t[j], s[0]) by {
        forall j | 0 <= j < |t|
          ensures !Closer(t[j], s[0])
        {
          if t[j] != x {
            var k :| 0 <= k < |s[1..]| && s[1..][k] == t[j];
            assert s[k + 1] == t[j];
          }
        }
      }
      [s[0]] + t
  }

  /** An insertion sort by distance; it shows that a sort meeting SortsByDistance exists. */
  function InsertionSort(s: seq<Neighbor>): (r: seq<Neighbor>)
    ensures SortedByDistance(r) && multiset(r) == multiset(s) && |r| == |s|
  {
    if s == [] then []
    else
      assert s == [s[0]] + s[1..];
      Insert(s[0], InsertionSort(s[1..]))
  }

  lemma InsertionSortSortsByDistance()
    ensures SortsByDistance(InsertionSort)
  {
    forall s
      ensures SortedByDistance(InsertionSort(s)) && multiset(InsertionSort(s)) == multiset(s)
      ensures |InsertionSort(s)| == |s|
    {
      var r := InsertionSort(s);
    }
  }
}
