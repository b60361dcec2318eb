/** Matrices stored flat, row by row. */
module RowMajor {

  /** Flat position of (i, k) with `n` columns. */
  function Cell(n: nat, i: nat, k: nat): nat {
    i * n + k
  }

  lemma CellBound(rows: nat, n: nat, i: nat, k: nat)
    requires i < rows && k < n
    ensures Cell(n, i, k) < rows * n
  {
    assert (rows - i - 1) * n >= 0;
    assert (rows - i - 1) * n == rows * n - i * n - n;
  }

  lemma Multiples(d: int, n: nat)
    ensures d >= 1 ==> d * n >= n
    ensures d <= -1 ==> -(d * n) >= n
  {
    assert d * n == (d - 1) * n + n;
    assert d * n == (d + 1) * n - n;
  }

  lemma CellUnique(n: nat, i: nat, k: nat, i': nat, k': nat)
    requires k < n && k' < n && Cell(n, i, k) == Cell(n, i', k')
    ensures i == i' && k == k'
  {
    assert (i - i') * n == k' - k;
    Multiples(i - i', n);
  }

  /** Every flat position below rows * n is the cell of one row and column. */
  lemma CellOf(rows: nat, n: nat, c: nat) returns (i: nat, k: nat)
    requires c < rows * n
    ensures i < rows && k < n && c == Cell(n, i, k)
  {
    i, k := c / n, c % n;
    assert c == i * n + k && (i - rows + 1) * n == i * n - rows * n + n;
    Multiples(i - rows + 1, n);
  }
}
