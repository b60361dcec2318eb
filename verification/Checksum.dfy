/** The answer to a challenge: the sum of all entries of A * B modulo 997, as the server and as the client compute
    it. */
module Checksum {
  import opened Widths

  const MODULO := 997

  type Matrix = seq<seq<int>>

  ghost predicate Square(n: nat, m: Matrix) {
    |m| == n && forall i :: 0 <= i < n ==> |m[i]| == n
  }

  /** Entries as the server generates them. */
  ghost predicate Reduced(n: nat, m: Matrix) {
    Square(n, m) && forall i, j :: 0 <= i < n && 0 <= j < n ==> 0 <= m[i][j] < MODULO
  }

  // ---------- the sums ----------

  /** The first `k` terms of entry (i, j) of the product. */
  ghost function Dot(n: nat, a: Matrix, b: Matrix, i: nat, j: nat, k: nat): int
    requires Square(n, a) && Square(n, b) && i < n && j < n && k <= n
  {
    if k == 0 then 0 else Dot(n, a, b, i, j, k - 1) + a[i][k - 1] * b[k - 1][j]
  }

  /** The first `j` entries of row `i` of the product. */
  ghost function RowTotal(n: nat, a: Matrix, b: Matrix, i: nat, j: nat): int
    requires Square(n, a) && Square(n, b) && i < n && j <= n
  {
    if j == 0 then 0 else RowTotal(n, a, b, i, j - 1) + Dot(n, a, b, i, j - 1, n)
  }

  /** The first `i` rows of the product. */
  ghost function Grand(n: nat, a: Matrix, b: Matrix, i: nat): int
    requires Square(n, a) && Square(n, b) && i <= n
  {
    if i == 0 then 0 else Grand(n, a, b, i - 1) + RowTotal(n, a, b, i - 1, n)
  }

  /** The answer: all entries of the product, reduced. */
  ghost function Answer(n: nat, a: Matrix, b: Matrix): int
    requires Square(n, a) && Square(n, b)
  {
    Grand(n, a, b, n) % MODULO
  }

  ghost function ColPrefix(n: nat, a: Matrix, k: nat, i: nat): int
    requires Square(n, a) && k < n && i <= n
  {
    if i == 0 then 0 else ColPrefix(n, a, k, i - 1) + a[i - 1][k]
  }

  ghost function RowPrefix(n: nat, b: Matrix, k: nat, j: nat): int
    requires Square(n, b) && k < n && j <= n
  {
    if j == 0 then 0 else RowPrefix(n, b, k, j - 1) + b[k][j - 1]
  }

  /** The first `k` terms of the closed form, over the first `i` rows of A and `j` columns of B. */
  ghost function Folded(n: nat, a: Matrix, b: Matrix, i: nat, j: nat, k: nat): int
    requires Square(n, a) && Square(n, b) && i <= n && j <= n && k <= n
  {
    if k == 0 then 0 else Folded(n, a, b, i, j, k - 1) + ColPrefix(n, a, k - 1, i) * RowPrefix(n, b, k - 1, j)
  }

  // ---------- the closed form ----------

  ghost function RowFolded(n: nat, a: Matrix, b: Matrix, i: nat, j: nat, k: nat): int
    requires Square(n, a) && Square(n, b) && i < n && j <= n && k <= n
  {
    if k == 0 then 0 else RowFolded(n, a, b, i, j, k - 1) + a[i][k - 1] * RowPrefix(n, b, k - 1, j)
  }

  lemma {:induction false} NextColumn(n: nat, a: Matrix, b: Matrix, i: nat, j: nat, k: nat)
    requires Square(n, a) && Square(n, b) && i < n && j < n && k <= n
    ensures RowFolded(n, a, b, i, j + 1, k) == RowFolded(n, a, b, i, j, k) + Dot(n, a, b, i, j, k)
  {
    if k > 0 {
      NextColumn(n, a, b, i, j, k - 1);
      var x, r, y := a[i][k - 1], RowPrefix(n, b, k - 1, j), b[k - 1][j];
      assert x * (r + y) == x * r + x * y;
    }
  }

  lemma {:induction false} NextRow(n: nat, a: Matrix, b: Matrix, i: nat, j: nat, k: nat)
    requires Square(n, a) && Square(n, b) && i < n && j <= n && k <= n
    ensures Folded(n, a, b, i + 1, j, k) == Folded(n, a, b, i, j, k) + RowFolded(n, a, b, i, j, k)
  {
    if k > 0 {
      NextRow(n, a, b, i, j, k - 1);
      var c, x, r := ColPrefix(n, a, k - 1, i), a[i][k - 1], RowPrefix(n, b, k - 1, j);
      assert (c + x) * r == c * r + x * r;
    }
  }

  lemma {:induction false} ZeroFolded(n: nat, a: Matrix, b: Matrix, i: nat, j: nat, k: nat)
    requires Square(n, a) && Square(n, b) && i <= n && j <= n && k <= n
    ensures i == 0 ==> Folded(n, a, b, i, j, k) == 0
    ensures i < n && j == 0 ==> RowFolded(n, a, b, i, j, k) == 0
  {
    if k > 0 { ZeroFolded(n, a, b, i, j, k - 1); }
  }

  lemma {:induction false} RowTotalFolds(n: nat, a: Matrix, b: Matrix, i: nat, j: nat)
    requires Square(n, a) && Square(n, b) && i < n && j <= n
    ensures RowTotal(n, a, b, i, j) == RowFolded(n, a, b, i, j, n)
  {
    if j == 0 {
      ZeroFolded(n, a, b, i, 0, n);
    } else {
      RowTotalFolds(n, a, b, i, j - 1);
      NextColumn(n, a, b, i, j - 1, n);
    }
  }

  /** Column sums of A times row sums of B give the sum of all entries of A * B. */
  lemma {:induction false} GrandFolds(n: nat, a: Matrix, b: Matrix, i: nat)
    requires Square(n, a) && Square(n, b) && i <= n
    ensures Grand(n, a, b, i) == Folded(n, a, b, i, n, n)
  {
    if i == 0 {
      ZeroFolded(n, a, b, 0, n, n);
    } else {
      GrandFolds(n, a, b, i - 1);
      RowTotalFolds(n, a, b, i - 1, n);
      NextRow(n, a, b, i - 1, n, n);
    }
  }

  // ---------- ranges ----------

  lemma {:induction false} PrefixBounds(n: nat, m: Matrix, k: nat, i: nat)
    requires Reduced(n, m) && k < n && i <= n
    ensures 0 <= ColPrefix(n, m, k, i) <= i * 996 && 0 <= RowPrefix(n, m, k, i) <= i * 996
  {
    if i > 0 { PrefixBounds(n, m, k, i - 1); }
  }

  lemma Product(x: int, y: int, h: int)
    requires 0 <= x <= h && 0 <= y <= h
    ensures 0 <= x * y <= h * h
  {
    assert x * y <= x * h <= h * h;
  }

  lemma {:induction false} FoldedBounds(n: nat, a: Matrix, b: Matrix, k: nat)
    requires Reduced(n, a) && Reduced(n, b) && k <= n
    ensures 0 <= Folded(n, a, b, n, n, k) <= k * ((n * 996) * (n * 996))
  {
    if k > 0 {
      FoldedBounds(n, a, b, k - 1);
      PrefixBounds(n, a, k - 1, n);
      PrefixBounds(n, b, k - 1, n);
      Product(ColPrefix(n, a, k - 1, n), RowPrefix(n, b, k - 1, n), n * 996);
      assert k * ((n * 996) * (n * 996)) == (k - 1) * ((n * 996) * (n * 996)) + (n * 996) * (n * 996);
    }
  }

  /** The client's closed form gives the server's answer. */
  lemma ClosedForm(n: nat, a: Matrix, b: Matrix)
    requires Reduced(n, a) && Reduced(n, b)
    ensures Folded(n, a, b, n, n, n) >= 0 && Folded(n, a, b, n, n, n) % MODULO == Answer(n, a, b)
    ensures Folded(n, a, b, n, n, n) % 997 == Grand(n, a, b, n) % 997
  {
    GrandFolds(n, a, b, n);
    FoldedBounds(n, a, b, n);
  }

  /** At the size in use every intermediate of the client fits its declared type: the column and row sums an
      `int`, the accumulated checksum a `long long`. */
  lemma ClientFits(a: Matrix, b: Matrix, k: nat, i: nat)
    requires Reduced(128, a) && Reduced(128, b) && k < 128 && i <= 128
    ensures 0 <= ColPrefix(128, a, k, i) <= 0x7FFF_FFFF && 0 <= RowPrefix(128, b, k, i) <= 0x7FFF_FFFF
    ensures 0 <= Folded(128, a, b, 128, 128, k + 1) <= 0x7FFF_FFFF_FFFF_FFFF
  {
    PrefixBounds(128, a, k, i);
    PrefixBounds(128, b, k, i);
    FoldedBounds(128, a, b, k + 1);
    assert (k + 1) * ((128 * 996) * (128 * 996)) <= 128 * ((128 * 996) * (128 * 996));
  }

  /** The server's intermediates fit an `int`: the product is taken in 64 bits and reduced at once. */
  lemma ServerFits(row: int, x: int, y: int)
    requires 0 <= row < MODULO && 0 <= x < MODULO && 0 <= y < MODULO
    ensures 0 <= x * y <= 0x7FFF_FFFF_FFFF_FFFF && 0 <= row + (x * y) % MODULO <= 0x7FFF_FFFF
  {
    Product(x, y, 996);
  }

  // ---------- the server's computation ----------

  lemma ModSum(x: int, y: int)
    ensures (x % MODULO + y % MODULO) % MODULO == (x + y) % MODULO
    ensures (x % MODULO + y) % MODULO == (x + y) % MODULO
  {
  }

  /** Row by row with a reduction at every step, keeping one row of the product at a time. */
  method ComputeChecksum(n: nat, a: Matrix, b: Matrix) returns (checksum: int)
    requires Reduced(n, a) && Reduced(n, b)
    ensures checksum == Answer(n, a, b) == Grand(n, a, b, n) % 997
  {
    checksum := 0;
    for i := 0 to n
      invariant checksum == Grand(n, a, b, i) % MODULO && 0 <= checksum < MODULO
    {
      var rowC := ProductRow(n, a, b, i);
      checksum := AddRow(n, rowC, checksum, a, b, i);
    }
  }

  /** Adds one row of the product to the checksum, with a reduction at every entry. */
  method AddRow(n: nat, rowC: array<int>, start: int, ghost a: Matrix, ghost b: Matrix, ghost i: nat)
    returns (checksum: int)
    requires Reduced(n, a) && Reduced(n, b) && i < n
    requires rowC.Length == n && forall j :: 0 <= j < n ==> rowC[j] == Dot(n, a, b, i, j, n) % MODULO
    requires start == Grand(n, a, b, i) % MODULO && 0 <= start < MODULO
    ensures checksum == Grand(n, a, b, i + 1) % MODULO && 0 <= checksum < MODULO
  {
    checksum := start;
    for j := 0 to n
      invariant checksum == (Grand(n, a, b, i) + RowTotal(n, a, b, i, j)) % MODULO && 0 <= checksum < MODULO
    {
      assert 0 <= checksum + rowC[j] <= INT_MAX;
      ModSum(Grand(n, a, b, i) + RowTotal(n, a, b, i, j), Dot(n, a, b, i, j, n));
      checksum := (checksum + rowC[j]) % MODULO;
    }
  }

  /** One row of the product, reduced. */
  method ProductRow(n: nat, a: Matrix, b: Matrix, i: nat) returns (rowC: array<int>)
    requires Reduced(n, a) && Reduced(n, b) && i < n
    ensures fresh(rowC) && rowC.Length == n && forall j :: 0 <= j < n ==> rowC[j] == Dot(n, a, b, i, j, n) % MODULO
  {
    rowC := new int[n](_ => 0);
    for k := 0 to n
      invariant forall j :: 0 <= j < n ==> rowC[j] == Dot(n, a, b, i, j, k) % MODULO
    {
      var x := a[i][k];
      for j := 0 to n
        invariant forall c :: 0 <= c < n ==> rowC[c] == Dot(n, a, b, i, c, if c < j then k + 1 else k) % MODULO
      {
        ModSum(Dot(n, a, b, i, j, k), x * b[k][j]);
        ServerFits(rowC[j], x, b[k][j]);
        assert 0 <= x * b[k][j] <= INT64_MAX && 0 <= rowC[j] + (x * b[k][j]) % MODULO <= INT_MAX;
        rowC[j] := (rowC[j] + (x * b[k][j]) % MODULO) % MODULO;
      }
    }
  }
}
