/** Traces of products, from matrices stored flat, and the forms that compute them without vector instructions. */
module Traces {
  import opened Checksum
  import opened RowMajor

  function FlatDot(a: seq<int>, b: seq<int>, j: nat): int {
    if j == 0 then 0 else FlatDot(a, b, j - 1) + (if j <= |a| && j <= |b| then a[j - 1] * b[j - 1] else 0)
  }

  /** `a` holds the matrix row by row. */
  ghost predicate Parsed(n: nat, a: seq<int>, m: Matrix) {
    |a| == n * n && Square(n, m)
    && forall i, k :: 0 <= i < n && 0 <= k < n ==> Cell(n, i, k) < |a| && a[Cell(n, i, k)] == m[i][k]
  }

  /** `b` holds the transpose of the matrix row by row. */
  ghost predicate Transposed(n: nat, b: seq<int>, m: Matrix) {
    |b| == n * n && Square(n, m)
    && forall c, r :: 0 <= c < n && 0 <= r < n ==> Cell(n, r, c) < |b| && b[Cell(n, r, c)] == m[c][r]
  }

  ghost function Trace(n: nat, x: Matrix, y: Matrix, i: nat): int
    requires Square(n, x) && Square(n, y) && i <= n
  {
    if i == 0 then 0 else Trace(n, x, y, i - 1) + Dot(n, x, y, i - 1, i - 1, n)
  }

  // ---------- the transposed dot product is the trace ----------

  lemma {:induction false} DotRow(n: nat, a: seq<int>, b: seq<int>, x: Matrix, y: Matrix, i: nat, k: nat)
    requires n > 0 && Parsed(n, a, x) && Transposed(n, b, y) && i < n
             && k <= n && i * n + k <= n * n && i * n <= n * n
    ensures FlatDot(a, b, i * n + k) == FlatDot(a, b, i * n) + Dot(n, x, y, i, i, k)
  {
    if k > 0 {
      DotRow(n, a, b, x, y, i, k - 1);
      assert a[Cell(n, i, k - 1)] == x[i][k - 1];
      assert b[Cell(n, i, k - 1)] == y[k - 1][i];
    }
  }

  lemma {:induction false} DotIsTrace(n: nat, a: seq<int>, b: seq<int>, x: Matrix, y: Matrix, i: nat)
    requires n > 0 && Parsed(n, a, x) && Transposed(n, b, y) && i <= n && i * n <= n * n
    ensures FlatDot(a, b, i * n) == Trace(n, x, y, i)
  {
    if i > 0 {
      assert (i - 1) * n + n == i * n;
      DotIsTrace(n, a, b, x, y, i - 1);
      DotRow(n, a, b, x, y, i - 1, n);
    }
  }

  /** The scalar form. */
  method TraceScalar(a: array<int>, b: array<int>) returns (acc: int)
    requires a.Length == b.Length
    ensures acc == FlatDot(a[..], b[..], a.Length)
  {
    acc := 0;
    for j := 0 to a.Length
      invariant acc == FlatDot(a[..], b[..], j)
    {
      acc := acc + a[j] * b[j];
    }
  }

  // ---------- the same trace from untransposed data ----------

  /** The trace from both matrices row by row. */
  method TraceAB(n: nat, a: array<int>, b: array<int>, ghost x: Matrix, ghost y: Matrix) returns (acc: int)
    requires n > 0 && Parsed(n, a[..], x) && Parsed(n, b[..], y)
    ensures acc == Trace(n, x, y, n)
  {
    acc := 0;
    for i := 0 to n
      invariant acc == Trace(n, x, y, i)
    {
      for k := 0 to n
        invariant acc == Trace(n, x, y, i) + Dot(n, x, y, i, i, k)
      {
        assert a[..][Cell(n, i, k)] == x[i][k] && b[..][Cell(n, k, i)] == y[k][i];
        acc := acc + a[i * n + k] * b[k * n + i];
      }
    }
  }

  /** The reference client: the whole product, then its diagonal. */
  method NaiveTrace(n: nat, a: Matrix, b: Matrix) returns (tr: int)
    requires Square(n, a) && Square(n, b)
    ensures tr == Trace(n, a, b, n)
  {
    var c := FullProduct(n, a, b);
    tr := 0;
    for i := 0 to n
      invariant tr == Trace(n, a, b, i)
    {
      tr := tr + c[i, i];
    }
  }

  method FullProduct(n: nat, a: Matrix, b: Matrix) returns (c: array2<int>)
    requires Square(n, a) && Square(n, b)
    ensures fresh(c) && c.Length0 == c.Length1 == n
    ensures forall i, j :: 0 <= i < n && 0 <= j < n ==> c[i, j] == Dot(n, a, b, i, j, n)
  {
    c := new int[n, n]((i, j) => 0);
    for i := 0 to n
      invariant forall r, j :: 0 <= r < n && 0 <= j < n ==> c[r, j] == Dot(n, a, b, r, j, if r < i then n else 0)
    {
      for k := 0 to n
        invariant forall r, j :: 0 <= r < n && 0 <= j < n ==>
                                   c[r, j] == Dot(n, a, b, r, j, if r < i then n else if r == i then k else 0)
      {
        for j := 0 to n
          invariant forall r, s :: 0 <= r < n && 0 <= s < n ==>
                                     c[r, s] == Dot(n, a, b, r, s, if r < i then n else if r > i then 0
                                                                   else if s < j then k + 1 else k)
        {
          c[i, j] := c[i, j] + a[i][k] * b[k][j];
        }
      }
    }
  }
}
