/**
  Column-major dense matrices as values.

  This module is the specification layer under class Matrices.Matrix: a `Mat`
  is a snapshot of a matrix object (its shape, its transpose flag and the
  contents of its buffer), and the functions here say what the kernel's
  operations compute, element by element, over `real`.
 */
module Dense {

  datatype Option<T> = None | Some(value: T)

  /** The eigenvalue cut-off of src/math/matrix.cpp:26 (1e-16). */
  const EPSILON: real := 0.0000000000000001

  lemma MulMonotone(a: nat, b: nat, c: nat)
    requires a <= b
    ensures a * c <= b * c
  {
  }

  /** The position of element (i, j) in a column-major rows×cols buffer. */
  function Idx(rows: nat, cols: nat, i: nat, j: nat): (k: nat)
    requires i < rows && j < cols
    ensures k < rows * cols
  {
    MulMonotone(j + 1, cols, rows);
    j * rows + i
  }

  /** Every buffer position is the position of exactly one (row, column) pair. */
  lemma IdxOf(rows: nat, cols: nat, k: nat)
    requires k < rows * cols
    ensures rows > 0 && k % rows < rows && k / rows < cols
    ensures Idx(rows, cols, k % rows, k / rows) == k
  {
    var q, r := k / rows, k % rows;
    assert k == q * rows + r;
    if q >= cols {
      MulMonotone(cols, q, rows);
    }
  }

  /** Every slot of a rows×cols buffer is the slot of some element (i, j). */
  lemma EveryStoredElement(rows: nat, cols: nat, s: seq<real>, x: real)
    requires |s| == rows * cols
    requires forall i, j :: 0 <= i < rows && 0 <= j < cols ==> s[Idx(rows, cols, i, j)] == x
    ensures forall k :: 0 <= k < |s| ==> s[k] == x
  {
    forall k | 0 <= k < |s|
      ensures s[k] == x
    {
      IdxOf(rows, cols, k);
    }
  }

  lemma Distrib(a: int, b: int, c: int)
    ensures (a + b) * c == a * c + b * c
  {
  }

  lemma IdxDivMod(rows: nat, cols: nat, i: nat, j: nat)
    requires i < rows && j < cols
    ensures Idx(rows, cols, i, j) % rows == i && Idx(rows, cols, i, j) / rows == j
  {
    var k := Idx(rows, cols, i, j);
    assert k == j * rows + i;
    var q, r := k / rows, k % rows;
    assert k == q * rows + r;
    if q < j {
      MulMonotone(q + 1, j, rows);
      Distrib(q, 1, rows);
      assert false;
    } else if q > j {
      MulMonotone(j + 1, q, rows);
      Distrib(j, 1, rows);
      assert false;
    }
  }

  /** Writing position (i, j) leaves every other (row, column) position of the buffer alone. */
  lemma IdxDistinct(rows: nat, cols: nat, i: nat, j: nat)
    requires i < rows && j < cols
    ensures forall a, b :: 0 <= a < rows && 0 <= b < cols && (a != i || b != j) ==>
      Idx(rows, cols, a, b) != Idx(rows, cols, i, j)
  {
    forall a, b | 0 <= a < rows && 0 <= b < cols && (a != i || b != j)
      ensures Idx(rows, cols, a, b) != Idx(rows, cols, i, j)
    {
      IdxDivMod(rows, cols, a, b);
      IdxDivMod(rows, cols, i, j);
    }
  }

  /**
    A matrix as the kernel sees it: `rows` and `cols` are the stored `_rows`
    and `_cols` (a transpose view keeps those of its primary), `transposed` is
    `_transposed`, and `elems` is the column-major buffer.
   */
  datatype Mat = Mat(rows: nat, cols: nat, transposed: bool, elems: seq<real>)
  {
    predicate Wf() {
      |elems| == rows * cols
    }

    /** ELEM(M, i, j): the stored element in row i, column j. */
    function At(i: nat, j: nat): real
      requires Wf() && i < rows && j < cols
    {
      elems[Idx(rows, cols, i, j)]
    }

    /** The number of rows `product` reads off an operand (a view reports swapped dimensions). */
    function OpRows(): nat {
      if transposed then cols else rows
    }

    /** The number of columns `product` reads off an operand. */
    function OpCols(): nat {
      if transposed then rows else cols
    }

    /** Element (i, j) of the operand that `product` multiplies: a view reads the buffer transposed. */
    function Op(i: nat, j: nat): real
      requires Wf() && i < OpRows() && j < OpCols()
    {
      if transposed then At(j, i) else At(i, j)
    }
  }

  /** Two snapshots with equal shape and equal elements at every (i, j) have equal buffers. */
  lemma {:induction false} SameElements(A: Mat, B: Mat)
    requires A.Wf() && B.Wf() && A.rows == B.rows && A.cols == B.cols
    requires forall i, j :: 0 <= i < A.rows && 0 <= j < A.cols ==> A.At(i, j) == B.At(i, j)
    ensures A.elems == B.elems
  {
    forall k | 0 <= k < |A.elems|
      ensures A.elems[k] == B.elems[k]
    {
      IdxOf(A.rows, A.cols, k);
      assert A.At(k % A.rows, k / A.rows) == B.At(k % A.rows, k / A.rows);
    }
  }

  // ---------------------------------------------------------------------------
  // Shapes built by the constructors

  ghost predicate Filled(M: Mat, rows: nat, cols: nat, x: real) {
    M.Wf() && !M.transposed && M.rows == rows && M.cols == cols &&
    forall i, j :: 0 <= i < rows && 0 <= j < cols ==> M.At(i, j) == x
  }

  ghost predicate IsIdentity(M: Mat, n: nat) {
    M.Wf() && !M.transposed && M.rows == n && M.cols == n &&
    forall i, j :: 0 <= i < n && 0 <= j < n ==> M.At(i, j) == if i == j then 1.0 else 0.0
  }

  /** The n×n diagonal matrix whose diagonal is v (Matrix::diagonalize). */
  ghost predicate IsDiagonalOf(D: Mat, v: seq<real>) {
    D.Wf() && !D.transposed && D.rows == |v| && D.cols == |v| &&
    forall i, j :: 0 <= i < |v| && 0 <= j < |v| ==> D.At(i, j) == if i == j then v[i] else 0.0
  }

  /** T is the (cols×rows) transpose of M: T(i, j) == M(j, i). */
  ghost predicate IsTransposeOf(T: Mat, M: Mat) {
    M.Wf() && T.Wf() && !T.transposed && T.rows == M.cols && T.cols == M.rows &&
    forall i, j :: 0 <= i < T.rows && 0 <= j < T.cols ==> T.At(i, j) == M.At(j, i)
  }

  /** Transposing twice gives back the original elements. */
  lemma {:induction false} TransposeTwice(M: Mat, T: Mat, U: Mat)
    requires IsTransposeOf(T, M) && IsTransposeOf(U, T)
    ensures U.rows == M.rows && U.cols == M.cols && U.elems == M.elems
  {
    forall i, j | 0 <= i < U.rows && 0 <= j < U.cols
      ensures U.At(i, j) == M.At(i, j)
    {
      assert U.At(i, j) == T.At(j, i);
    }
    SameElements(U, M);
  }

  /** Columns i..j-1 of M, copied (the column-range constructor). */
  ghost predicate IsColumnRange(C: Mat, M: Mat, i: nat, j: nat) {
    M.Wf() && C.Wf() && !C.transposed && i <= j <= M.cols &&
    C.rows == M.rows && C.cols == j - i &&
    forall r, c :: 0 <= r < C.rows && 0 <= c < C.cols ==> C.At(r, c) == M.At(r, i + c)
  }

  /** Of a row vector, a column range is the slice of its elements. */
  lemma {:induction false} RowRangeIsSlice(C: Mat, M: Mat, i: nat, j: nat)
    requires IsColumnRange(C, M, i, j) && M.rows == 1
    ensures C.elems == M.elems[i..j]
  {
    forall k | 0 <= k < j - i
      ensures C.elems[k] == M.elems[i + k]
    {
      assert C.At(0, k) == M.At(0, i + k);
    }
  }

  /** A column range of a column-major buffer is one contiguous slice of it. */
  lemma {:induction false} ColumnRangeIsSlice(M: Mat, i: nat, j: nat, C: Mat)
    requires M.Wf() && i <= j <= M.cols
    requires C == Mat(M.rows, j - i, false, M.elems[i * M.rows .. j * M.rows])
    ensures IsColumnRange(C, M, i, j)
  {
    ColumnsBlock(M.rows, M.cols, i, j);
    var lo, hi := i * M.rows, j * M.rows;
    forall r, c | 0 <= r < C.rows && 0 <= c < C.cols
      ensures C.At(r, c) == M.At(r, i + c)
    {
      SliceElement(M, i, j, lo, hi, C, r, c);
    }
  }

  lemma SliceElement(M: Mat, i: nat, j: nat, lo: nat, hi: nat, C: Mat, r: nat, c: nat)
    requires M.Wf() && i <= j <= M.cols && C.Wf()
    requires lo == i * M.rows && hi == j * M.rows && lo <= hi <= |M.elems|
    requires C == Mat(M.rows, j - i, false, M.elems[lo..hi])
    requires r < C.rows && c < C.cols
    ensures C.At(r, c) == M.At(r, i + c)
  {
    var k := Idx(C.rows, C.cols, r, c);
    IdxShift(M.rows, j - i, M.cols, r, c, i);
    SliceAt(M.elems, lo, hi, k);
  }

  lemma SliceAt(s: seq<real>, lo: nat, hi: nat, k: nat)
    requires lo <= hi <= |s| && k < hi - lo
    ensures s[lo..hi][k] == s[lo + k]
  {
  }

  /** Column i + c of an n-row buffer starts i·n elements after column c. */
  lemma IdxShift(n: nat, w: nat, cols: nat, r: nat, c: nat, i: nat)
    requires r < n && c < w && i + w <= cols
    ensures Idx(n, cols, r, i + c) == i * n + Idx(n, w, r, c)
  {
    Distrib(i, c, n);
  }

  /** A with column i replaced by column src of B (both with the same number of rows). */
  function WithColumn(A: Mat, i: nat, B: Mat, src: nat): (R: Mat)
    requires A.Wf() && B.Wf() && B.rows == A.rows && i < A.cols && src < B.cols
    ensures R.Wf() && R.rows == A.rows && R.cols == A.cols && R.transposed == A.transposed
  {
    var n := A.rows;
    var lo, from := i * n, src * n;
    MulMonotone(i + 1, A.cols, n);
    MulMonotone(src + 1, B.cols, n);
    Mat(n, A.cols, A.transposed, seq(|A.elems|, k requires 0 <= k < |A.elems| =>
      if lo <= k < lo + n then B.elems[from + k - lo] else A.elems[k]))
  }

  /** Column i of WithColumn(A, i, B, src) is column src of B; every other column is A's. */
  lemma WithColumnMeaning(A: Mat, i: nat, B: Mat, src: nat)
    requires A.Wf() && B.Wf() && B.rows == A.rows && i < A.cols && src < B.cols
    ensures forall r, c :: 0 <= r < A.rows && 0 <= c < A.cols ==>
      WithColumn(A, i, B, src).At(r, c) == if c == i then B.At(r, src) else A.At(r, c)
  {
    forall r, c | 0 <= r < A.rows && 0 <= c < A.cols
      ensures WithColumn(A, i, B, src).At(r, c) == if c == i then B.At(r, src) else A.At(r, c)
    {
      WithColumnAt(A, i, B, src, r, c);
    }
  }

  lemma WithColumnAt(A: Mat, i: nat, B: Mat, src: nat, r: nat, c: nat)
    requires A.Wf() && B.Wf() && B.rows == A.rows && i < A.cols && src < B.cols
    requires r < A.rows && c < A.cols
    ensures WithColumn(A, i, B, src).At(r, c) == if c == i then B.At(r, src) else A.At(r, c)
  {
    ColumnSlot(A.rows, A.cols, r, c, i);
    var k := Idx(A.rows, A.cols, r, c);
    var R := WithColumn(A, i, B, src);
    assert R.At(r, c) == R.elems[k];
  }

  /** Columns i..j-1 of a rows×cols buffer are the block i·rows .. j·rows, of rows·(j-i) elements. */
  lemma ColumnsBlock(rows: nat, cols: nat, i: nat, j: nat)
    requires i <= j <= cols
    ensures i * rows <= j * rows <= rows * cols
    ensures j * rows - i * rows == rows * (j - i)
  {
    MulMonotone(i, j, rows);
    MulMonotone(j, cols, rows);
    Distrib(j - i, i, rows);
  }

  /** Column i of a rows×cols buffer is the block i·rows .. i·rows + rows. */
  lemma ColumnBlock(rows: nat, cols: nat, i: nat)
    requires i < cols
    ensures i * rows + rows <= rows * cols
  {
    MulMonotone(i + 1, cols, rows);
  }

  /** A buffer that holds B's column src in A's column i block, and A elsewhere, is WithColumn(A, i, B, src). */
  lemma ColumnCopied(A: Mat, i: nat, B: Mat, src: nat, lo: nat, from: nat, out: seq<real>)
    requires A.Wf() && B.Wf() && B.rows == A.rows && i < A.cols && src < B.cols
    requires lo == i * A.rows && from == src * A.rows
    requires lo + A.rows <= |A.elems| && from + A.rows <= |B.elems| && |out| == |A.elems|
    requires forall k :: 0 <= k < |out| ==>
      out[k] == if lo <= k < lo + A.rows then B.elems[from + k - lo] else A.elems[k]
    ensures out == WithColumn(A, i, B, src).elems
  {
  }

  /** Element (r, c) lies in the block of column i exactly when c == i. */
  lemma ColumnSlot(rows: nat, cols: nat, r: nat, c: nat, i: nat)
    requires r < rows && c < cols && i < cols
    ensures c == i ==> Idx(rows, cols, r, c) == i * rows + r
    ensures c != i ==> Idx(rows, cols, r, c) < i * rows || Idx(rows, cols, r, c) >= i * rows + rows
  {
    if c < i {
      MulMonotone(c + 1, i, rows);
    } else if c > i {
      MulMonotone(i + 1, c, rows);
    }
  }

  // ---------------------------------------------------------------------------
  // Product

  /** The first n terms of the dot product of row i of A with column j of B. */
  function DotPrefix(A: Mat, B: Mat, i: nat, j: nat, n: nat): real
    requires A.Wf() && B.Wf() && i < A.OpRows() && j < B.OpCols()
    requires n <= A.OpCols() && n <= B.OpRows()
  {
    if n == 0 then 0.0 else DotPrefix(A, B, i, j, n - 1) + A.Op(i, n - 1) * B.Op(n - 1, j)
  }

  /**
    C = A·B with the dimensions `product` resolves from the transpose flags:
    m and k1 from A's flag, k2 and n from B's; k1 == k2 and C is m×n.
   */
  ghost predicate IsProduct(C: Mat, A: Mat, B: Mat) {
    A.Wf() && B.Wf() && A.OpCols() == B.OpRows() &&
    C.Wf() && !C.transposed && C.rows == A.OpRows() && C.cols == B.OpCols() &&
    forall i, j :: 0 <= i < C.rows && 0 <= j < C.cols ==> C.At(i, j) == DotPrefix(A, B, i, j, A.OpCols())
  }

  function Product(A: Mat, B: Mat): (C: Mat)
    requires A.Wf() && B.Wf() && A.OpCols() == B.OpRows()
    ensures IsProduct(C, A, B)
  {
    var m, n := A.OpRows(), B.OpCols();
    var C := Mat(m, n, false, seq(m * n, k requires 0 <= k < m * n =>
      IdxOf(m, n, k); DotPrefix(A, B, k % m, k / m, A.OpCols())));
    assert forall i, j :: 0 <= i < m && 0 <= j < n ==> C.At(i, j) == DotPrefix(A, B, i, j, A.OpCols()) by {
      forall i, j | 0 <= i < m && 0 <= j < n
        ensures C.At(i, j) == DotPrefix(A, B, i, j, A.OpCols())
      {
        IdxDivMod(m, n, i, j);
      }
    }
    C
  }

  lemma {:induction false} DotWithIdentity(I: Mat, B: Mat, i: nat, j: nat, n: nat)
    requires IsIdentity(I, B.OpRows()) && B.Wf() && i < B.OpRows() && j < B.OpCols() && n <= B.OpRows()
    ensures DotPrefix(I, B, i, j, n) == if i < n then B.Op(i, j) else 0.0
  {
    if n > 0 {
      DotWithIdentity(I, B, i, j, n - 1);
    }
  }

  /** The identity is a left unit of `product`. */
  lemma {:induction false} IdentityLeftUnit(I: Mat, B: Mat, C: Mat)
    requires IsIdentity(I, B.OpRows()) && IsProduct(C, I, B)
    ensures forall i, j :: 0 <= i < C.rows && 0 <= j < C.cols ==> C.At(i, j) == B.Op(i, j)
  {
    forall i, j | 0 <= i < C.rows && 0 <= j < C.cols
      ensures C.At(i, j) == B.Op(i, j)
    {
      DotWithIdentity(I, B, i, j, B.OpRows());
    }
  }

  // ---------------------------------------------------------------------------
  // Sums and means

  /** s[0] + ... + s[|s|-1], accumulated left to right. */
  function SumSeq(s: seq<real>): real {
    if |s| == 0 then 0.0 else SumSeq(s[..|s| - 1]) + s[|s| - 1]
  }

  /** M(r, 0) + ... + M(r, n-1). */
  function RowSum(M: Mat, r: nat, n: nat): real
    requires M.Wf() && r < M.rows && n <= M.cols
  {
    if n == 0 then 0.0 else RowSum(M, r, n - 1) + M.At(r, n - 1)
  }

  /** M(0, c) + ... + M(n-1, c). */
  function ColSum(M: Mat, c: nat, n: nat): real
    requires M.Wf() && c < M.cols && n <= M.rows
  {
    if n == 0 then 0.0 else ColSum(M, c, n - 1) + M.At(n - 1, c)
  }

  lemma {:induction false} RowSumShifted(M: Mat, C: Mat, r: nat, x: real, n: nat)
    requires M.Wf() && C.Wf() && C.rows == M.rows && C.cols == M.cols && r < M.rows && n <= M.cols
    requires forall c :: 0 <= c < M.cols ==> C.At(r, c) == M.At(r, c) - x
    ensures RowSum(C, r, n) == RowSum(M, r, n) - (n as real) * x
  {
    if n > 0 {
      RowSumShifted(M, C, r, x, n - 1);
    }
  }

  /**
    Subtracting the mean column from every column (mean-centring) leaves every
    row summing to zero.
   */
  lemma {:induction false} CenteredRowsSumToZero(M: Mat, mu: Mat, C: Mat)
    requires M.Wf() && mu.Wf() && C.Wf() && M.cols > 0
    requires mu.rows == M.rows && mu.cols == 1 && C.rows == M.rows && C.cols == M.cols
    requires forall r :: 0 <= r < M.rows ==> mu.At(r, 0) == RowSum(M, r, M.cols) / (M.cols as real)
    requires forall r, c :: 0 <= r < M.rows && 0 <= c < M.cols ==> C.At(r, c) == M.At(r, c) - mu.At(r, 0)
    ensures forall r :: 0 <= r < M.rows ==> RowSum(C, r, M.cols) == 0.0
  {
    forall r | 0 <= r < M.rows
      ensures RowSum(C, r, M.cols) == 0.0
    {
      RowSumShifted(M, C, r, mu.At(r, 0), M.cols);
    }
  }

  // ---------------------------------------------------------------------------
  // Determinant from an LU factorisation

  /** (-1)^(number of i < n with ipiv[i] != i+1): each such pivot is a row exchange. */
  function PivotSign(ipiv: seq<int>, n: nat): real
    requires n <= |ipiv|
  {
    if n == 0 then 1.0
    else if ipiv[n - 1] != n then -PivotSign(ipiv, n - 1)
    else PivotSign(ipiv, n - 1)
  }

  /** U(0,0) · ... · U(n-1, n-1). */
  function DiagProduct(U: Mat, n: nat): real
    requires U.Wf() && n <= U.rows && n <= U.cols
  {
    if n == 0 then 1.0 else DiagProduct(U, n - 1) * U.At(n - 1, n - 1)
  }

  /** det(P·L·U) = (±1)·det(U): the sign of the pivots times the diagonal of U. */
  function LUDeterminant(ipiv: seq<int>, U: Mat, n: nat): real
    requires U.Wf() && n <= U.rows && n <= U.cols && n <= |ipiv|
  {
    PivotSign(ipiv, n) * DiagProduct(U, n)
  }

  lemma {:induction false} PivotSignIsUnit(ipiv: seq<int>, n: nat)
    requires n <= |ipiv|
    ensures PivotSign(ipiv, n) == 1.0 || PivotSign(ipiv, n) == -1.0
  {
    if n > 0 {
      PivotSignIsUnit(ipiv, n - 1);
    }
  }

  /** One extra row exchange at pivot p flips the sign of the determinant. */
  lemma {:induction false} ExtraExchangeFlipsSign(ipiv: seq<int>, p: nat, q: int, n: nat)
    requires p < n <= |ipiv| && ipiv[p] == p + 1 && q != p + 1
    ensures PivotSign(ipiv[p := q], n) == -PivotSign(ipiv, n)
  {
    if n - 1 == p {
      assert forall t :: 0 <= t < p ==> ipiv[p := q][t] == ipiv[t];
      PivotSignPrefix(ipiv[p := q], ipiv, p);
    } else {
      ExtraExchangeFlipsSign(ipiv, p, q, n - 1);
    }
  }

  lemma {:induction false} PivotSignPrefix(a: seq<int>, b: seq<int>, n: nat)
    requires n <= |a| && n <= |b|
    requires forall t :: 0 <= t < n ==> a[t] == b[t]
    ensures PivotSign(a, n) == PivotSign(b, n)
  {
    if n > 0 {
      PivotSignPrefix(a, b, n - 1);
    }
  }

  // ---------------------------------------------------------------------------
  // Eigenvalue truncation

  /** The first index whose eigenvalue is at least EPSILON, or |w| if there is none. */
  function FirstAtLeastEpsilon(w: seq<real>): (r: nat)
    ensures r <= |w|
    ensures forall t :: 0 <= t < r ==> w[t] < EPSILON
    ensures r < |w| ==> w[r] >= EPSILON
  {
    if |w| == 0 || w[0] >= EPSILON then 0 else 1 + FirstAtLeastEpsilon(w[1..])
  }

  /** The first eigenpair `eigen` keeps: max(first index >= EPSILON, n - n1). */
  function KeepFrom(w: seq<real>, n1: int): int {
    var i := FirstAtLeastEpsilon(w);
    if i < |w| - n1 then |w| - n1 else i
  }

  ghost predicate Ascending(w: seq<real>) {
    forall s, t :: 0 <= s < t < |w| ==> w[s] <= w[t]
  }

  /** At most n1 eigenpairs survive, and every one that survives is at least EPSILON when w ascends. */
  lemma KeptAreLargeAndFew(w: seq<real>, n1: int)
    requires Ascending(w) && KeepFrom(w, n1) < |w|
    ensures 0 <= KeepFrom(w, n1) && |w| - KeepFrom(w, n1) <= n1
    ensures forall t :: KeepFrom(w, n1) <= t < |w| ==> w[t] >= EPSILON
  {
    var i := FirstAtLeastEpsilon(w);
    assert w[i] >= EPSILON;
  }

  /** Exactly n1 eigenpairs are kept whenever at least n1 eigenvalues reach EPSILON. */
  lemma ExactlyN1WhenEnoughValid(w: seq<real>, n1: nat)
    requires 0 < n1 <= |w| && w[|w| - n1] >= EPSILON
    ensures KeepFrom(w, n1) == |w| - n1
  {
  }

  /**
    The two-stage filter is not "top n1 of all": when fewer than n1 values
    reach EPSILON, fewer than n1 pairs are kept.
   */
  lemma FewerValidKeepsFewer(w: seq<real>, n1: nat)
    requires Ascending(w) && 0 < n1 <= |w| && w[|w| - n1] < EPSILON
    ensures |w| - KeepFrom(w, n1) < n1
  {
  }

  /** The sequence f(0), ..., f(n-1). */
  function Tabulate<T>(f: nat -> T, n: nat): (r: seq<T>)
    ensures |r| == n
  {
    if n == 0 then [] else Tabulate(f, n - 1) + [f(n - 1)]
  }

  lemma {:induction false} TabulateAt<T>(f: nat -> T, n: nat)
    ensures forall t :: 0 <= t < n ==> Tabulate(f, n)[t] == f(t)
  {
    if n > 0 {
      TabulateAt(f, n - 1);
    }
  }
}
