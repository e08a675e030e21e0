/**
  The dense matrix kernel of src/math/matrix.cpp, CPU path.

  A primary matrix owns a column-major buffer of rows·cols elements and one
  transpose view: a second Matrix object that aliases the same buffer, keeps
  the same `rows`/`cols`, has `transposed` set and has no view of its own.
  Element (i, j) of a matrix is stored at `data[j*rows + i]` (ELEM).
  The numeric routines the kernel delegates to LAPACK (LU factorisation and
  the symmetric eigensolver) are inputs here: their outputs are parameters.
 */
module Matrices {
  import opened Dense

  /** What sgetrf leaves behind: its status, the LU factors overwriting the copy, and the pivots. */
  datatype LUFactors = LUFactors(info: int, lu: seq<real>, ipiv: seq<int>)

  /** What ssyev leaves behind: its status, the eigenvalues (ascending) and the eigenvectors (by column). */
  datatype Spectrum = Spectrum(info: int, values: seq<real>, vectors: seq<real>)

  /** One value of a matrix file: the two int header fields, then the elements. */
  datatype Cell = IntCell(n: int) | RealCell(x: real)

  /** How Matrix::load ends: loaded, refused because the matrix was not empty (exit(1)), or the file was short. */
  datatype LoadOutcome = Loaded | NotEmpty | Malformed

  function RealCells(s: seq<real>): (r: seq<Cell>)
    ensures |r| == |s| && forall k :: 0 <= k < |s| ==> r[k] == RealCell(s[k])
  {
    if |s| == 0 then [] else [RealCell(s[0])] + RealCells(s[1..])
  }

  /** The cells Matrix::save writes: int rows, int cols, then the buffer in storage order. */
  function Encode(M: Mat): seq<Cell> {
    [IntCell(M.rows), IntCell(M.cols)] + RealCells(M.elems)
  }

  /** The reals stored in cells file[from..from+n], if all of them are present and hold reals. */
  function ReadReals(file: seq<Cell>, from: nat, n: nat): (r: Option<seq<real>>)
    ensures r.Some? ==> |r.value| == n
    ensures r.Some? && n > 0 ==> from + n <= |file|
    ensures r.Some? ==> forall k :: 0 <= k < n ==> file[from + k] == RealCell(r.value[k])
    decreases n
  {
    if n == 0 then Some([])
    else if from < |file| && file[from].RealCell? then
      match ReadReals(file, from + 1, n - 1)
      case Some(rest) => Some([file[from].x] + rest)
      case None => None
    else None
  }

  /** The matrix Matrix::load reads at position pos, and the position after it. */
  function Decode(file: seq<Cell>, pos: nat): Option<(Mat, nat)> {
    if pos + 2 <= |file| && file[pos].IntCell? && file[pos + 1].IntCell? &&
       file[pos].n >= 0 && file[pos + 1].n >= 0
    then
      var r, c := file[pos].n, file[pos + 1].n;
      match ReadReals(file, pos + 2, r * c)
      case Some(xs) => Some((Mat(r, c, false, xs), pos + 2 + r * c))
      case None => None
    else None
  }

  lemma {:induction false} ReadRealsOfCells(xs: seq<real>, pre: seq<Cell>, post: seq<Cell>)
    ensures ReadReals(pre + RealCells(xs) + post, |pre|, |xs|) == Some(xs)
  {
    if |xs| > 0 {
      var file := pre + RealCells(xs) + post;
      assert file == (pre + [RealCell(xs[0])]) + RealCells(xs[1..]) + post;
      ReadRealsOfCells(xs[1..], pre + [RealCell(xs[0])], post);
      assert file[|pre|] == RealCell(xs[0]);
      assert [xs[0]] + xs[1..] == xs;
    }
  }

  /** Loading reads back exactly what saving wrote, whatever precedes and follows it in the file. */
  lemma {:induction false} DecodeEncode(M: Mat, pre: seq<Cell>, post: seq<Cell>)
    requires M.Wf()
    ensures Decode(pre + Encode(M) + post, |pre|) ==
            Some((Mat(M.rows, M.cols, false, M.elems), |pre| + |Encode(M)|))
  {
    var file := pre + Encode(M) + post;
    assert file == (pre + [IntCell(M.rows), IntCell(M.cols)]) + RealCells(M.elems) + post;
    ReadRealsOfCells(M.elems, pre + [IntCell(M.rows), IntCell(M.cols)], post);
  }

  /** memcpy of n elements from src[from..] to dst[lo..]: every element is read before any is written. */
  method CopyBlock(dst: array<real>, lo: nat, src: array<real>, from: nat, n: nat)
    requires lo + n <= dst.Length && from + n <= src.Length
    modifies dst
    ensures forall k :: 0 <= k < dst.Length ==>
      dst[k] == if lo <= k < lo + n then old(src[from + k - lo]) else old(dst[k])
  {
    forall k | lo <= k < lo + n {
      dst[k] := src[from + k - lo];
    }
  }

  class Matrix {
    var rows: int
    var cols: int
    var data: array<real>
    var transposed: bool
    var T: Matrix?

    /** The buffer holds rows·cols elements (true of primaries and views). */
    ghost predicate Wf()
      reads this
    {
      0 <= rows && 0 <= cols && data.Length == rows * cols
    }

    /**
      A primary matrix: its view, when it has one, aliases its buffer with the
      same shape, is marked transposed and has no view itself. Only the empty
      matrix Matrix() has no view.
     */
    ghost predicate Valid()
      reads this, T
    {
      Wf() && !transposed &&
      (T == null ==> rows == 0 && cols == 0) &&
      (T != null ==> T.transposed && T.T == null && T.data == data && T.rows == rows && T.cols == cols)
    }

    /** The value of this matrix: shape, flag and buffer contents. */
    function Snap(): (M: Mat)
      reads this, data
      requires Wf()
      ensures M.Wf()
    {
      Mat(rows, cols, transposed, data[..])
    }

    /** Matrix(rows, cols): a fresh buffer and a fresh view aliasing it. */
    constructor (rows: int, cols: int)
      requires 0 <= rows && 0 <= cols
      ensures Valid() && T != null && fresh(data) && fresh(T)
      ensures this.rows == rows && this.cols == cols
    {
      var buf := new real[rows * cols];
      this.rows := rows;
      this.cols := cols;
      data := buf;
      transposed := false;
      T := new Matrix.View(rows, cols, buf);
    }

    /** The view set up by Matrix(rows, cols): same buffer and shape, transposed, no view of its own. */
    constructor View(rows: int, cols: int, buf: array<real>)
      ensures this.rows == rows && this.cols == cols && data == buf && transposed && T == null
    {
      this.rows := rows;
      this.cols := cols;
      data := buf;
      transposed := true;
      T := null;
    }

    /** Matrix(): the empty 0×0 matrix, with no buffer and no view. */
    constructor Empty()
      ensures Valid() && rows == 0 && cols == 0 && T == null && fresh(data)
    {
      rows := 0;
      cols := 0;
      data := new real[0];
      transposed := false;
      T := null;
    }

    /** Matrix(rows, cols, data): reads `src` in row-major order. */
    constructor FromRowMajor(rows: int, cols: int, src: seq<real>)
      requires 0 <= rows && 0 <= cols && |src| >= rows * cols
      ensures Valid() && T != null && fresh(data) && fresh(T)
      ensures this.rows == rows && this.cols == cols
      ensures forall i, j :: 0 <= i < rows && 0 <= j < cols ==>
        data[Idx(rows, cols, i, j)] == src[Idx(cols, rows, j, i)]
    {
      var buf := new real[rows * cols];
      this.rows := rows;
      this.cols := cols;
      data := buf;
      transposed := false;
      T := new Matrix.View(rows, cols, buf);
      new;
      for i := 0 to rows
        modifies buf
        invariant forall a, b :: 0 <= a < i && 0 <= b < cols ==>
          buf[Idx(rows, cols, a, b)] == src[Idx(cols, rows, b, a)]
      {
        for j := 0 to cols
          modifies buf
          invariant forall a, b :: 0 <= a < rows && 0 <= b < cols && (a < i || (a == i && b < j)) ==>
            buf[Idx(rows, cols, a, b)] == src[Idx(cols, rows, b, a)]
        {
          IdxDistinct(rows, cols, i, j);
          buf[Idx(rows, cols, i, j)] := src[Idx(cols, rows, j, i)];
        }
      }
    }

    /** Matrix(M, i, j): a copy of columns i..j-1 of M (one contiguous block of its buffer). */
    constructor CopyColumns(M: Matrix, i: int, j: int)
      requires M.Wf() && 0 <= i < j <= M.cols
      ensures Valid() && T != null && fresh(data) && fresh(T)
      ensures IsColumnRange(Snap(), M.Snap(), i, j)
    {
      var lo, hi := i * M.rows, j * M.rows;
      ColumnsBlock(M.rows, M.cols, i, j);
      var buf := new real[hi - lo];
      rows := M.rows;
      cols := j - i;
      data := buf;
      transposed := false;
      T := new Matrix.View(M.rows, j - i, buf);
      new;
      forall k | 0 <= k < hi - lo {
        buf[k] := M.data[lo + k];
      }
      assert buf[..] == M.data[..][lo .. hi];
      ColumnRangeIsSlice(M.Snap(), i, j, Snap());
    }

    /** A fresh primary matrix holding the value M: how results of routines outside this model arrive. */
    constructor FromValue(M: Mat)
      requires M.Wf() && !M.transposed
      ensures Valid() && T != null && fresh(data) && fresh(T)
      ensures Snap() == M
    {
      var buf := new real[M.rows * M.cols];
      forall k | 0 <= k < M.rows * M.cols {
        buf[k] := M.elems[k];
      }
      rows := M.rows;
      cols := M.cols;
      data := buf;
      transposed := false;
      T := new Matrix.View(M.rows, M.cols, buf);
      new;
      assert data[..] == M.elems;
    }

    /** Move construction: an empty matrix swapped with M, so it takes over M's buffer and view. */
    constructor Moved(M: Matrix)
      modifies M
      ensures rows == old(M.rows) && cols == old(M.cols) && data == old(M.data)
      ensures transposed == old(M.transposed) && T == old(M.T)
      ensures M.rows == 0 && M.cols == 0 && !M.transposed && M.T == null && fresh(M.data)
    {
      rows := M.rows;
      cols := M.cols;
      data := M.data;
      transposed := M.transposed;
      T := M.T;
      new;
      M.rows := 0;
      M.cols := 0;
      M.data := new real[0];
      M.transposed := false;
      M.T := null;
    }

    /** Matrix::zeros. */
    static method Zeros(rows: int, cols: int) returns (M: Matrix)
      requires 0 <= rows && 0 <= cols
      ensures M.Valid() && M.T != null && fresh(M) && fresh(M.data) && fresh(M.T)
      ensures Filled(M.Snap(), rows, cols, 0.0)
      ensures forall k :: 0 <= k < M.data.Length ==> M.data[k] == 0.0
    {
      M := new Matrix(rows, cols);
      M.Fill(0.0);
    }

    /** Matrix::ones. */
    static method Ones(rows: int, cols: int) returns (M: Matrix)
      requires 0 <= rows && 0 <= cols
      ensures M.Valid() && M.T != null && fresh(M) && fresh(M.data) && fresh(M.T)
      ensures Filled(M.Snap(), rows, cols, 1.0)
      ensures forall k :: 0 <= k < M.data.Length ==> M.data[k] == 1.0
    {
      M := new Matrix(rows, cols);
      M.Fill(1.0);
    }

    /** The nested loop that `zeros` and `ones` run: ELEM(M, i, j) = x for every i, j. */
    method Fill(x: real)
      requires Wf()
      modifies data
      ensures forall i, j :: 0 <= i < rows && 0 <= j < cols ==> data[Idx(rows, cols, i, j)] == x
      ensures forall k :: 0 <= k < data.Length ==> data[k] == x
    {
      for i := 0 to rows
        invariant forall a, b :: 0 <= a < i && 0 <= b < cols ==> data[Idx(rows, cols, a, b)] == x
      {
        for j := 0 to cols
          invariant forall a, b :: 0 <= a < rows && 0 <= b < cols && (a < i || (a == i && b < j)) ==>
            data[Idx(rows, cols, a, b)] == x
        {
          IdxDistinct(rows, cols, i, j);
          data[Idx(rows, cols, i, j)] := x;
        }
      }
      EveryStoredElement(rows, cols, data[..], x);
    }

    /** Matrix::identity. */
    static method Identity(n: int) returns (M: Matrix)
      requires 0 <= n
      ensures M.Valid() && M.T != null && fresh(M) && fresh(M.data) && fresh(M.T)
      ensures IsIdentity(M.Snap(), n)
    {
      M := new Matrix(n, n);
      var buf := M.data;
      for i := 0 to n
        modifies buf
        invariant forall a, b :: 0 <= a < i && 0 <= b < n ==>
          buf[Idx(n, n, a, b)] == if a == b then 1.0 else 0.0
      {
        for j := 0 to n
          modifies buf
          invariant forall a, b :: 0 <= a < n && 0 <= b < n && (a < i || (a == i && b < j)) ==>
            buf[Idx(n, n, a, b)] == if a == b then 1.0 else 0.0
        {
          IdxDistinct(n, n, i, j);
          buf[Idx(n, n, i, j)] := if i == j then 1.0 else 0.0;
        }
      }
    }
    /** Matrix(const Matrix& M): the column range 0..M.cols, so M must have a column. */
    static method Copy(M: Matrix) returns (C: Matrix)
      requires M.Wf() && M.cols > 0
      ensures C.Valid() && C.T != null && fresh(C) && fresh(C.data) && fresh(C.T)
      ensures C.rows == M.rows && C.cols == M.cols && C.data[..] == M.data[..]
    {
      C := new Matrix.CopyColumns(M, 0, M.cols);
      SameElements(C.Snap(), Mat(M.rows, M.cols, false, M.data[..]));
    }

    /** Matrix::transpose: a new cols×rows matrix with T(i, j) = ELEM(this, j, i). */
    method Transpose() returns (R: Matrix)
      requires Wf()
      ensures R.Valid() && R.T != null && fresh(R) && fresh(R.data) && fresh(R.T)
      ensures IsTransposeOf(R.Snap(), Snap())
    {
      R := new Matrix(cols, rows);
      var buf := R.data;
      for i := 0 to cols
        modifies buf
        invariant forall a, b :: 0 <= a < i && 0 <= b < rows ==>
          buf[Idx(cols, rows, a, b)] == data[Idx(rows, cols, b, a)]
      {
        for j := 0 to rows
          modifies buf
          invariant forall a, b :: 0 <= a < cols && 0 <= b < rows && (a < i || (a == i && b < j)) ==>
            buf[Idx(cols, rows, a, b)] == data[Idx(rows, cols, b, a)]
        {
          IdxDistinct(cols, rows, i, j);
          buf[Idx(cols, rows, i, j)] := data[Idx(rows, cols, j, i)];
        }
      }
    }

    /**
      Matrix::product: op(this)·op(B), where op transposes a view. The inner
      dimensions resolved from the two flags must agree.
     */
    method Product(B: Matrix) returns (C: Matrix)
      requires Wf() && B.Wf() && Snap().OpCols() == B.Snap().OpRows()
      ensures C.Valid() && C.T != null && fresh(C) && fresh(C.data) && fresh(C.T)
      ensures IsProduct(C.Snap(), Snap(), B.Snap())
    {
      var m := if transposed then cols else rows;
      var n := if B.transposed then B.rows else B.cols;
      C := Zeros(m, n);
      var P := Dense.Product(Snap(), B.Snap());
      forall k | 0 <= k < m * n {
        C.data[k] := P.elems[k];
      }
      assert C.Snap() == P;
    }

    /** Matrix::diagonalize: the n×n matrix with this vector on its diagonal and zeros elsewhere. */
    method Diagonalize() returns (D: Matrix)
      requires Wf() && (rows == 1 || cols == 1)
      ensures D.Valid() && D.T != null && fresh(D) && fresh(D.data) && fresh(D.T)
      ensures IsDiagonalOf(D.Snap(), data[..])
    {
      var n := if rows == 1 then cols else rows;
      D := Zeros(n, n);
      var buf := D.data;
      for i := 0 to n
        modifies buf
        invariant forall a, b :: 0 <= a < n && 0 <= b < n ==>
          buf[Idx(n, n, a, b)] == if a == b && a < i then data[a] else 0.0
      {
        IdxDistinct(n, n, i, i);
        buf[Idx(n, n, i, i)] := data[i];
      }
    }

    /**
      Matrix::eigen(n1, V, D) on a square matrix. The symmetric eigensolver's
      result `sp` (status, ascending eigenvalues, eigenvectors by column) is an
      input. Pairs are dropped from the front while the eigenvalue is below
      EPSILON, and then so that at most n1 remain. `ok` is false where the
      source aborts: the solver failed, or nothing is left to keep.
     */
    method Eigen(n1: int, sp: Spectrum) returns (ok: bool, V: Matrix, D: Matrix)
      requires Wf() && rows == cols && cols > 0
      requires |sp.values| == cols && |sp.vectors| == rows * cols
      ensures ok <==> sp.info == 0 && KeepFrom(sp.values, n1) < cols
      ensures ok ==> V.Valid() && V.T != null && fresh(V) && fresh(V.data) && fresh(V.T)
      ensures ok ==> D.Valid() && D.T != null && fresh(D) && fresh(D.data) && fresh(D.T)
      ensures ok ==> IsColumnRange(V.Snap(), Mat(rows, cols, false, sp.vectors), KeepFrom(sp.values, n1), cols)
      ensures ok ==> IsDiagonalOf(D.Snap(), sp.values[KeepFrom(sp.values, n1)..])
    {
      // V = Matrix(*this); the solver overwrites it with the eigenvectors
      var W := Copy(this);
      forall k | 0 <= k < rows * cols {
        W.data[k] := sp.vectors[k];
      }
      // D = Matrix(1, cols); the solver fills it with the eigenvalues
      var w := new Matrix(1, cols);
      forall k | 0 <= k < cols {
        w.data[k] := sp.values[k];
      }
      ghost var vectors := Mat(rows, cols, false, sp.vectors);
      assert W.data[..] == sp.vectors;
      assert W.Snap() == vectors;
      assert w.data[..] == sp.values;
      V := W;
      D := w;
      if sp.info != 0 {
        return false, V, D;
      }
      var i := 0;
      while i < w.cols && w.data[Idx(1, cols, 0, i)] < EPSILON
        invariant 0 <= i <= cols
        invariant forall t :: 0 <= t < i ==> sp.values[t] < EPSILON
      {
        i := i + 1;
      }
      assert i == FirstAtLeastEpsilon(sp.values);
      if i < cols - n1 {
        i := cols - n1;
      }
      assert i == KeepFrom(sp.values, n1);
      if i >= cols {
        return false, V, D;
      }
      V, D := KeepPairs(W, w, i);
      ok := true;
    }

    /** The end of `eigen`: V = V(i, V.cols) and D = D(i, D.cols).diagonalize(). */
    static method KeepPairs(W: Matrix, w: Matrix, i: int) returns (V: Matrix, D: Matrix)
      requires W.Wf() && w.Wf() && w.rows == 1 && w.cols == W.cols && 0 <= i < W.cols
      ensures V.Valid() && V.T != null && fresh(V) && fresh(V.data) && fresh(V.T)
      ensures D.Valid() && D.T != null && fresh(D) && fresh(D.data) && fresh(D.T)
      ensures IsColumnRange(V.Snap(), W.Snap(), i, W.cols)
      ensures IsDiagonalOf(D.Snap(), w.data[i..])
    {
      V := new Matrix.CopyColumns(W, i, W.cols);
      var d := new Matrix.CopyColumns(w, i, w.cols);
      RowRangeIsSlice(d.Snap(), w.Snap(), i, w.cols);
      D := d.Diagonalize();
    }

    /**
      Matrix::determinant from the LU factorisation `f` that sgetrf leaves in a
      copy of this matrix: the sign of the row exchanges times the diagonal of U.
      `ok` is false where the source aborts because the factorisation failed.
     */
    method Determinant(f: LUFactors) returns (ok: bool, det: real)
      requires Wf() && cols > 0
      requires |f.lu| == rows * cols && |f.ipiv| == if rows < cols then rows else cols
      ensures ok <==> f.info == 0
      ensures ok ==> det == LUDeterminant(f.ipiv, Mat(rows, cols, false, f.lu), |f.ipiv|)
    {
      var U := Copy(this);
      forall k | 0 <= k < rows * cols {
        U.data[k] := f.lu[k];
      }
      if f.info != 0 {
        return false, 0.0;
      }
      var mn := if rows < cols then rows else cols;
      ghost var LU := Mat(rows, cols, false, f.lu);
      det := 1.0;
      for i := 0 to mn
        modifies {}
        invariant det == PivotSign(f.ipiv, i)
      {
        if i + 1 != f.ipiv[i] {
          det := -det;
        }
      }
      ghost var s := det;
      for i := 0 to mn
        modifies {}
        invariant det == ScaledDiagProduct(s, LU, i)
      {
        var k := Idx(rows, cols, i, i);
        assert U.data[k] == LU.elems[k];
        det := det * U.data[k];
      }
      ScaledDiagProductIsProduct(f.ipiv, LU, mn);
      ok := true;
    }

    /** Matrix::sum of a row or column vector: its elements added in storage order. */
    method Sum() returns (s: real)
      requires Wf() && (rows == 1 || cols == 1)
      ensures s == SumSeq(data[..])
    {
      var n := if rows == 1 then cols else rows;
      s := 0.0;
      for i := 0 to n
        invariant s == SumSeq(data[..i])
      {
        assert data[..i + 1][..i] == data[..i];
        s := s + data[i];
      }
      assert data[..n] == data[..];
    }

    /** Matrix::mean_column: the rows×1 vector of row means (sum over columns, divided by cols). */
    method MeanColumn() returns (mu: Matrix)
      requires Wf() && cols > 0
      ensures mu.Valid() && mu.T != null && fresh(mu) && fresh(mu.data) && fresh(mu.T)
      ensures mu.rows == rows && mu.cols == 1
      ensures forall r :: 0 <= r < rows ==> mu.data[r] == RowSum(Snap(), r, cols) / (cols as real)
    {
      mu := Zeros(rows, 1);
      var buf := mu.data;
      ghost var M := Snap();
      for i := 0 to cols
        modifies buf
        invariant forall r :: 0 <= r < rows ==> buf[r] == RowSum(M, r, i)
      {
        for j := 0 to rows
          modifies buf
          invariant forall r :: 0 <= r < rows ==> buf[r] == if r < j then RowSum(M, r, i + 1) else RowSum(M, r, i)
        {
          buf[j] := buf[j] + data[Idx(rows, cols, j, i)];
        }
      }
      forall k | 0 <= k < rows {
        buf[k] := buf[k] / (cols as real);
      }
    }

    /** Matrix::mean_row: the 1×cols vector of column means (sum over rows, divided by rows). */
    method MeanRow() returns (mu: Matrix)
      requires Wf() && rows > 0
      ensures mu.Valid() && mu.T != null && fresh(mu) && fresh(mu.data) && fresh(mu.T)
      ensures mu.rows == 1 && mu.cols == cols
      ensures forall c :: 0 <= c < cols ==> mu.data[c] == ColSum(Snap(), c, rows) / (rows as real)
    {
      mu := Zeros(1, cols);
      var buf := mu.data;
      ghost var M := Snap();
      for i := 0 to rows
        modifies buf
        invariant forall c :: 0 <= c < cols ==> buf[c] == ColSum(M, c, i)
      {
        for j := 0 to cols
          modifies buf
          invariant forall c :: 0 <= c < cols ==> buf[c] == if c < j then ColSum(M, c, i + 1) else ColSum(M, c, i)
        {
          buf[j] := buf[j] + data[Idx(rows, cols, i, j)];
        }
      }
      forall k | 0 <= k < cols {
        buf[k] := buf[k] / (rows as real);
      }
    }

    /** Matrix::add: this += B elementwise (B may be this matrix or its view). */
    method Add(B: Matrix)
      requires Wf() && B.Wf() && B.rows == rows && B.cols == cols
      modifies data
      ensures forall k :: 0 <= k < data.Length ==> data[k] == old(data[k]) + old(B.data[k])
    {
      forall k | 0 <= k < rows * cols {
        data[k] := data[k] + B.data[k];
      }
    }

    /** Matrix::subtract: this -= B elementwise (B may be this matrix or its view). */
    method Subtract(B: Matrix)
      requires Wf() && B.Wf() && B.rows == rows && B.cols == cols
      modifies data
      ensures forall k :: 0 <= k < data.Length ==> data[k] == old(data[k]) - old(B.data[k])
    {
      forall k | 0 <= k < rows * cols {
        data[k] := data[k] - B.data[k];
      }
    }

    /** Matrix::elem_mult: every element scaled by c. */
    method ElemMult(c: real)
      requires Wf()
      modifies data
      ensures forall k :: 0 <= k < data.Length ==> data[k] == c * old(data[k])
    {
      forall k | 0 <= k < rows * cols {
        data[k] := c * data[k];
      }
    }

    /** Matrix::elem_apply: every element replaced by f of itself, row by row. */
    method ElemApply(f: real -> real)
      requires Wf()
      modifies data
      ensures forall i, j :: 0 <= i < rows && 0 <= j < cols ==>
        data[Idx(rows, cols, i, j)] == f(old(data[Idx(rows, cols, i, j)]))
    {
      for i := 0 to rows
        invariant forall a, b :: 0 <= a < rows && 0 <= b < cols ==>
          data[Idx(rows, cols, a, b)] == if a < i then f(old(data[Idx(rows, cols, a, b)])) else old(data[Idx(rows, cols, a, b)])
      {
        for j := 0 to cols
          invariant forall a, b :: 0 <= a < rows && 0 <= b < cols ==>
            data[Idx(rows, cols, a, b)] ==
              if a < i || (a == i && b < j) then f(old(data[Idx(rows, cols, a, b)])) else old(data[Idx(rows, cols, a, b)])
        {
          IdxDistinct(rows, cols, i, j);
          data[Idx(rows, cols, i, j)] := f(data[Idx(rows, cols, i, j)]);
        }
      }
    }

    /** Matrix::subtract_columns: a (rows×1) subtracted from every column, M = M - a·1'. */
    method SubtractColumns(a: Matrix)
      requires Wf() && a.Wf() && a.rows == rows && a.cols == 1
      modifies data
      ensures forall r, c :: 0 <= r < rows && 0 <= c < cols ==>
        data[Idx(rows, cols, r, c)] == old(data[Idx(rows, cols, r, c)]) - old(a.data[r])
    {
      ghost var od, oa := data[..], a.data[..];
      for i := 0 to cols
        invariant forall r, c :: 0 <= r < rows && 0 <= c < cols ==>
          data[Idx(rows, cols, r, c)] == if c < i then od[Idx(rows, cols, r, c)] - oa[r] else od[Idx(rows, cols, r, c)]
      {
        for j := 0 to rows
          invariant forall r, c :: 0 <= r < rows && 0 <= c < cols ==>
            data[Idx(rows, cols, r, c)] ==
              if c < i || (c == i && r < j) then od[Idx(rows, cols, r, c)] - oa[r] else od[Idx(rows, cols, r, c)]
        {
          if a.data == data {
            UnitFactor(rows, cols);
            assert Idx(rows, cols, j, i) == j;
            assert data[Idx(rows, cols, j, i)] == od[Idx(rows, cols, j, i)];
          }
          assert a.data[j] == oa[j];
          IdxDistinct(rows, cols, j, i);
          data[Idx(rows, cols, j, i)] := data[Idx(rows, cols, j, i)] - a.data[j];
        }
      }
    }

    /** Matrix::subtract_rows: a (1×cols) subtracted from every row, M = M - 1·a. */
    method SubtractRows(a: Matrix)
      requires Wf() && a.Wf() && a.cols == cols && a.rows == 1
      modifies data
      ensures forall r, c :: 0 <= r < rows && 0 <= c < cols ==>
        data[Idx(rows, cols, r, c)] == old(data[Idx(rows, cols, r, c)]) - old(a.data[c])
    {
      ghost var od, oa := data[..], a.data[..];
      for i := 0 to rows
        invariant forall r, c :: 0 <= r < rows && 0 <= c < cols ==>
          data[Idx(rows, cols, r, c)] == if r < i then od[Idx(rows, cols, r, c)] - oa[c] else od[Idx(rows, cols, r, c)]
      {
        for j := 0 to cols
          invariant forall r, c :: 0 <= r < rows && 0 <= c < cols ==>
            data[Idx(rows, cols, r, c)] ==
              if r < i || (r == i && c < j) then od[Idx(rows, cols, r, c)] - oa[c] else od[Idx(rows, cols, r, c)]
        {
          if a.data == data {
            UnitFactor(cols, rows);
            assert Idx(rows, cols, i, j) == j;
            assert data[Idx(rows, cols, i, j)] == od[Idx(rows, cols, i, j)];
          }
          assert a.data[j] == oa[j];
          IdxDistinct(rows, cols, i, j);
          data[Idx(rows, cols, i, j)] := data[Idx(rows, cols, i, j)] - a.data[j];
        }
      }
    }

    /**
      assign_column(i, B, j) as evidently intended: column i of this matrix
      becomes column j of B; every other element is unchanged.
     */
    method AssignColumn(i: int, B: Matrix, j: int)
      requires Wf() && B.Wf() && B.rows == rows && 0 <= i < cols && 0 <= j < B.cols
      modifies data
      ensures Snap() == WithColumn(old(Snap()), i, old(B.Snap()), j)
    {
      ghost var A0, B0 := Snap(), B.Snap();
      var lo, from := i * rows, j * rows;
      ColumnBlock(rows, cols, i);
      ColumnBlock(rows, B.cols, j);
      CopyBlock(data, lo, B.data, from, rows);
      ColumnCopied(A0, i, B0, j, lo, from, data[..]);
    }

    /** Matrix::assign_row(i, B, j): row i of this matrix becomes row j of B, element by element. */
    method AssignRow(i: int, B: Matrix, j: int)
      requires Wf() && B.Wf() && B.cols == cols && 0 <= i < rows && 0 <= j < B.rows
      modifies data
      ensures forall r, c :: 0 <= r < rows && 0 <= c < cols ==>
        data[Idx(rows, cols, r, c)] ==
          if r == i then old(B.data[Idx(B.rows, B.cols, j, c)]) else old(data[Idx(rows, cols, r, c)])
    {
      ghost var od, ob := data[..], B.data[..];
      for k := 0 to cols
        invariant forall r, c :: 0 <= r < rows && 0 <= c < cols ==>
          data[Idx(rows, cols, r, c)] ==
            if r == i && c < k then ob[Idx(B.rows, B.cols, j, c)] else od[Idx(rows, cols, r, c)]
      {
        if B.data == data {
          SameFactor(B.rows, rows, cols);
        }
        assert B.data[Idx(B.rows, B.cols, j, k)] == ob[Idx(B.rows, B.cols, j, k)];
        IdxDistinct(rows, cols, i, k);
        data[Idx(rows, cols, i, k)] := B.data[Idx(B.rows, B.cols, j, k)];
      }
    }

    /** Matrix::save: rows, cols, then the buffer in storage order, appended to the file. */
    method Save(file: seq<Cell>) returns (out: seq<Cell>)
      requires Wf()
      ensures out == file + Encode(Snap())
    {
      out := file + [IntCell(rows), IntCell(cols)];
      ghost var header := out;
      for k := 0 to data.Length
        invariant out == header + RealCells(data[..k])
      {
        RealCellsSnoc(data[..k], data[k]);
        assert data[..k + 1] == data[..k] + [data[k]];
        out := out + [RealCell(data[k])];
      }
      assert data[..data.Length] == data[..];
    }

    /**
      Matrix::load at position pos: only an empty matrix may be loaded into
      (otherwise the source exits); it then takes a fresh rows×cols buffer and
      view and reads the elements. A file too short to hold the matrix is
      reported as Malformed and leaves the matrix as it was.
     */
    method Load(file: seq<Cell>, pos: nat) returns (outcome: LoadOutcome, next: nat)
      requires Valid()
      modifies this
      ensures outcome == NotEmpty <==> old(rows * cols) != 0
      ensures outcome == Malformed <==> old(rows * cols) == 0 && Decode(file, pos).None?
      ensures outcome == Loaded ==>
        Valid() && T != null && fresh(data) && fresh(T) && Decode(file, pos) == Some((Snap(), next))
      ensures outcome != Loaded ==> unchanged(this)
    {
      next := pos;
      if rows * cols != 0 {
        return NotEmpty, next;
      }
      var d := Decode(file, pos);
      if d.None? {
        return Malformed, next;
      }
      var M := d.value.0;
      var buf := new real[M.rows * M.cols];
      forall k | 0 <= k < M.rows * M.cols {
        buf[k] := M.elems[k];
      }
      rows := M.rows;
      cols := M.cols;
      data := buf;
      transposed := false;
      T := new Matrix.View(M.rows, M.cols, buf);
      assert Snap() == M;
      outcome, next := Loaded, d.value.1;
    }
  }

  /** `assign_column` as written: it copies column 0 of B whatever j is (j is only range-checked). */
  function AssignColumnAsWritten(A: Mat, i: nat, B: Mat, j: nat): (R: Mat)
    requires A.Wf() && B.Wf() && B.rows == A.rows && i < A.cols && j < B.cols
    ensures R.Wf() && R.rows == A.rows && R.cols == A.cols
    ensures forall r :: 0 <= r < A.rows ==> R.At(r, i) == B.At(r, 0)
    ensures forall r, c :: 0 <= r < A.rows && 0 <= c < A.cols && c != i ==> R.At(r, c) == A.At(r, c)
  {
    WithColumnMeaning(A, i, B, 0);
    WithColumn(A, i, B, 0)
  }

  /** With B = [1 2] and j = 1, the row A(0, 0) receives 1, not B(0, 1) = 2. */
  lemma AssignColumnIgnoresJ()
    ensures AssignColumnAsWritten(Mat(1, 1, false, [0.0]), 0, Mat(1, 2, false, [1.0, 2.0]), 1).At(0, 0) == 1.0
    ensures Mat(1, 2, false, [1.0, 2.0]).At(0, 1) == 2.0
  {
  }

  lemma UnitFactor(n: int, m: int)
    requires 0 <= n && 0 <= m && n * m == n
    ensures n == 0 || m == 1
  {
    if n > 0 && m > 1 {
      MulMonotone(2, m, n);
    }
  }

  /** s·U(0,0)·…·U(n-1,n-1), multiplied in the order `determinant` multiplies. */
  function ScaledDiagProduct(s: real, U: Mat, n: nat): real
    requires U.Wf() && n <= U.rows && n <= U.cols
  {
    if n == 0 then s else ScaledDiagProduct(s, U, n - 1) * U.At(n - 1, n - 1)
  }

  lemma {:induction false} ScaledDiagProductIsProduct(ipiv: seq<int>, U: Mat, n: nat)
    requires U.Wf() && n <= U.rows && n <= U.cols && n <= |ipiv|
    ensures ScaledDiagProduct(PivotSign(ipiv, n), U, n) == LUDeterminant(ipiv, U, n)
  {
    ScaledProduct(PivotSign(ipiv, n), U, n);
  }

  lemma {:induction false} ScaledProduct(s: real, U: Mat, n: nat)
    requires U.Wf() && n <= U.rows && n <= U.cols
    ensures ScaledDiagProduct(s, U, n) == s * DiagProduct(U, n)
  {
    if n > 0 {
      ScaledProduct(s, U, n - 1);
      assert (s * DiagProduct(U, n - 1)) * U.At(n - 1, n - 1) == s * (DiagProduct(U, n - 1) * U.At(n - 1, n - 1));
    }
  }

  lemma SameFactor(a: int, b: int, c: int)
    requires 0 <= a && 0 <= b && 0 < c && a * c == b * c
    ensures a == b
  {
  }

  lemma {:induction false} RealCellsSnoc(s: seq<real>, x: real)
    ensures RealCells(s + [x]) == RealCells(s) + [RealCell(x)]
  {
  }


  /** swap(A, B): exchanges every field, so buffers and views change hands together. */
  method Swap(A: Matrix, B: Matrix)
    modifies A, B
    ensures A.rows == old(B.rows) && A.cols == old(B.cols) && A.data == old(B.data)
    ensures A.transposed == old(B.transposed) && A.T == old(B.T)
    ensures B.rows == old(A.rows) && B.cols == old(A.cols) && B.data == old(A.data)
    ensures B.transposed == old(A.transposed) && B.T == old(A.T)
    ensures old(A.Valid()) && old(B.Valid()) ==> A.Valid() && B.Valid()
  {
    ghost var va, vb := A.T, B.T;
    ghost var wasValid := A.Valid() && B.Valid();
    assert wasValid ==> va != A && va != B && vb != A && vb != B;
    var r := A.rows; A.rows := B.rows; B.rows := r;
    var c := A.cols; A.cols := B.cols; B.cols := c;
    var d := A.data; A.data := B.data; B.data := d;
    var t := A.transposed; A.transposed := B.transposed; B.transposed := t;
    var v := A.T; A.T := B.T; B.T := v;
  }
}
