/** Matrix products over flat row-major arrays: the textbook order, with B transposed beforehand, and in tiles. */
module Matmul {
  import opened RowMajor

  const BLOCK_SIZE := 32

  function At(s: seq<real>, c: nat): real {
    if c < |s| then s[c] else 0.0
  }

  /** The first `k` terms of entry (i, j) of the product, added up in order. */
  function Entry(a: seq<real>, ca: nat, b: seq<real>, cb: nat, i: nat, j: nat, k: nat): real {
    if k == 0 then 0.0
    else Entry(a, ca, b, cb, i, j, k - 1) + At(a, Cell(ca, i, k - 1)) * At(b, Cell(cb, k - 1, j))
  }

  /** `r` starts with the product of `a`, ra by ca, and `b`, ca by cb. */
  ghost predicate IsProduct(r: seq<real>, a: seq<real>, ra: nat, ca: nat, b: seq<real>, cb: nat) {
    forall i, j :: 0 <= i < ra && 0 <= j < cb ==> At(r, Cell(cb, i, j)) == Entry(a, ca, b, cb, i, j, ca)
  }

  /** `t` starts with the transpose of `m`, rows by cols. */
  ghost predicate IsTranspose(t: seq<real>, m: seq<real>, rows: nat, cols: nat) {
    forall i, j :: 0 <= i < rows && 0 <= j < cols ==> At(t, Cell(rows, j, i)) == At(m, Cell(cols, i, j))
  }

  // ---------- work in progress ----------

  /** How far the loops have come. `Cells`: rows before `x` and, in row `x`, columns before `y` are complete. `Tiles`:
      rows before `i0` are complete and rows from `i1` on not begun; in between, columns before `j0` have `k1` terms,
      columns from `j1` on `k0`, and in the tile between them rows before `x` have `k1`, rows after it `k0`, and row `x`
      has k + 1 terms before column `y` and `k` from there. */
  datatype Progress =
    | Cells(x: nat, y: nat)
    | Tiles(i0: nat, i1: nat, k0: nat, k1: nat, j0: nat, j1: nat, x: nat, k: nat, y: nat)

  /** Number of terms in (i, j) so far; negative when the cell has not been written. */
  function Terms(p: Progress, ca: nat, i: int, j: int): int {
    match p
    case Cells(x, y) => if i < x || (i == x && j < y) then ca else -1
    case Tiles(i0, i1, k0, k1, j0, j1, x, k, y) =>
      if i < i0 then ca
      else if i >= i1 then 0
      else if j < j0 then k1
      else if j >= j1 then k0
      else if i < x then k1
      else if i > x then k0
      else if j < y then k + 1 else k
  }

  ghost predicate Reached(r: seq<real>, a: seq<real>, ra: nat, ca: nat, b: seq<real>, cb: nat, p: Progress) {
    forall i, j :: 0 <= i < ra && 0 <= j < cb && Terms(p, ca, i, j) >= 0 ==>
                     At(r, Cell(cb, i, j)) == Entry(a, ca, b, cb, i, j, Terms(p, ca, i, j))
  }

  /** Writing one cell. */
  lemma Write(r: seq<real>, a: seq<real>, ra: nat, ca: nat, b: seq<real>, cb: nat, p: Progress, q: Progress,
              x: nat, y: nat, v: real)
    requires Reached(r, a, ra, ca, b, cb, p) && x < ra && y < cb && ra * cb <= |r|
    requires forall i, j :: 0 <= i < ra && 0 <= j < cb && (i != x || j != y) ==>
                              Terms(q, ca, i, j) == Terms(p, ca, i, j)
    requires Terms(q, ca, x, y) >= 0 && v == Entry(a, ca, b, cb, x, y, Terms(q, ca, x, y))
    ensures Cell(cb, x, y) < |r| && Reached(r[Cell(cb, x, y) := v], a, ra, ca, b, cb, q)
  {
    CellBound(ra, cb, x, y);
    var r' := r[Cell(cb, x, y) := v];
    forall i, j | 0 <= i < ra && 0 <= j < cb && Terms(q, ca, i, j) >= 0
      ensures At(r', Cell(cb, i, j)) == Entry(a, ca, b, cb, i, j, Terms(q, ca, i, j))
    {
      if Cell(cb, i, j) == Cell(cb, x, y) { CellUnique(cb, i, j, x, y); }
    }
  }

  lemma Rename(r: seq<real>, a: seq<real>, ra: nat, ca: nat, b: seq<real>, cb: nat, p: Progress, q: Progress)
    requires Reached(r, a, ra, ca, b, cb, p)
    requires forall i, j :: 0 <= i < ra && 0 <= j < cb ==>
                              Terms(q, ca, i, j) == Terms(p, ca, i, j) || Terms(q, ca, i, j) < 0
    ensures Reached(r, a, ra, ca, b, cb, q)
  {
  }

  // ---------- the three products ----------

  /** What the callers agree on; a null pointer or mismatched dimensions make the functions return at once. */
  ghost predicate Fits(a: array?<real>, ra: nat, ca: nat, b: array?<real>, rb: nat, cb: nat, r: array?<real>)
  {
    (a != null ==> ra * ca <= a.Length) && (b != null ==> rb * cb <= b.Length)
    && (r != null ==> ra * cb <= r.Length && r != a && r != b)
  }

  predicate Refused(a: array?<real>, ca: nat, b: array?<real>, rb: nat, r: array?<real>) {
    a == null || b == null || r == null || ca != rb
  }

  method RowByColumn(a: array<real>, ra: nat, ca: nat, b: array<real>, cb: nat, i: nat, j: nat) returns (sum: real)
    requires i < ra && j < cb && ra * ca <= a.Length && ca * cb <= b.Length
    ensures sum == Entry(a[..], ca, b[..], cb, i, j, ca)
  {
    sum := 0.0;
    for k := 0 to ca
      invariant sum == Entry(a[..], ca, b[..], cb, i, j, k)
    {
      CellBound(ra, ca, i, k);
      CellBound(ca, cb, k, j);
      sum := sum + a[i * ca + k] * b[k * cb + j];
    }
  }

  method SetCell(r: array<real>, ghost m: seq<real>, ghost ra: nat, ghost ca: nat, ghost n: seq<real>, cb: nat,
                 i: nat, j: nat, sum: real)
    requires i < ra && j < cb && ra * cb <= r.Length && Reached(r[..], m, ra, ca, n, cb, Cells(i, j))
    requires sum == Entry(m, ca, n, cb, i, j, ca)
    modifies r
    ensures Reached(r[..], m, ra, ca, n, cb, Cells(i, j + 1))
  {
    Write(r[..], m, ra, ca, n, cb, Cells(i, j), Cells(i, j + 1), i, j, sum);
    CellBound(ra, cb, i, j);
    r[i * cb + j] := sum;
  }

  method MultiplyNaive(a: array?<real>, ra: nat, ca: nat, b: array?<real>, rb: nat, cb: nat, r: array?<real>)
    requires Fits(a, ra, ca, b, rb, cb, r)
    modifies if r == null then {} else {r}
    ensures a == null || b == null || ca != rb ==> r == null || r[..] == old(r[..])
    ensures a != null && b != null && r != null && ca == rb ==> IsProduct(r[..], a[..], ra, ca, b[..], cb)
  {
    if Refused(a, ca, b, rb, r) { return; }
    ZeroFill(r, ra * cb);
    ghost var m, n := a[..], b[..];
    for i := 0 to ra
      invariant a[..] == m && b[..] == n && Reached(r[..], m, ra, ca, n, cb, Cells(i, 0))
    {
      for j := 0 to cb
        invariant a[..] == m && b[..] == n && Reached(r[..], m, ra, ca, n, cb, Cells(i, j))
      {
        var sum := RowByColumn(a, ra, ca, b, cb, i, j);
        SetCell(r, m, ra, ca, n, cb, i, j, sum);
      }
      Rename(r[..], m, ra, ca, n, cb, Cells(i, cb), Cells(i + 1, 0));
    }
  }

  /** `n` is the matrix whose transpose the caller passes. */
  method MultiplyTransposedB(a: array?<real>, ra: nat, ca: nat, bt: array?<real>, rb: nat, cb: nat, r: array?<real>,
                             ghost n: seq<real>)
    requires Fits(a, ra, ca, bt, rb, cb, r) && (bt != null ==> IsTranspose(bt[..], n, rb, cb))
    modifies if r == null then {} else {r}
    ensures a == null || bt == null || ca != rb ==> r == null || r[..] == old(r[..])
    ensures a != null && bt != null && r != null && ca == rb ==> IsProduct(r[..], a[..], ra, ca, n, cb)
  {
    if Refused(a, ca, bt, rb, r) { return; }
    ghost var m, t := a[..], bt[..];
    for i := 0 to ra
      invariant a[..] == m && bt[..] == t && Reached(r[..], m, ra, ca, n, cb, Cells(i, 0))
    {
      for j := 0 to cb
        invariant a[..] == m && bt[..] == t && Reached(r[..], m, ra, ca, n, cb, Cells(i, j))
      {
        var sum := RowByRow(a, ra, ca, bt, rb, cb, i, j, n);
        SetCell(r, m, ra, ca, n, cb, i, j, sum);
      }
      Rename(r[..], m, ra, ca, n, cb, Cells(i, cb), Cells(i + 1, 0));
    }
  }

  method RowByRow(a: array<real>, ra: nat, ca: nat, bt: array<real>, rb: nat, cb: nat,
                  i: nat, j: nat, ghost n: seq<real>)
    returns (sum: real)
    requires i < ra && j < cb && ca == rb && ra * ca <= a.Length && rb * cb <= bt.Length
             && IsTranspose(bt[..], n, rb, cb)
    ensures sum == Entry(a[..], ca, n, cb, i, j, ca)
  {
    sum := 0.0;
    for k := 0 to ca
      invariant sum == Entry(a[..], ca, n, cb, i, j, k)
    {
      CellBound(ra, ca, i, k);
      CellBound(cb, rb, j, k);
      assert At(bt[..], Cell(rb, j, k)) == At(n, Cell(cb, k, j));
      sum := sum + a[i * ca + k] * bt[j * rb + k];
    }
  }

  method ZeroFill(r: array<real>, n: nat)
    requires n <= r.Length
    modifies r
    ensures forall c :: 0 <= c < n ==> r[c] == 0.0
  {
    for c := 0 to n
      invariant forall d :: 0 <= d < c ==> r[d] == 0.0
    {
      r[c] := 0.0;
    }
  }

  method Transpose(src: array<real>, rows: nat, cols: nat, dst: array<real>)
    requires rows * cols <= src.Length && rows * cols <= dst.Length && src != dst
    modifies dst
    ensures IsTranspose(dst[..], src[..], rows, cols)
  {
    ghost var m := src[..];
    for i := 0 to rows
      invariant src[..] == m && Flipped(dst[..], m, rows, cols, i, 0)
    {
      for j := 0 to cols
        invariant src[..] == m && Flipped(dst[..], m, rows, cols, i, j)
      {
        CellBound(rows, cols, i, j);
        CellBound(cols, rows, j, i);
        FlipOne(dst[..], m, rows, cols, i, j);
        dst[j * rows + i] := src[i * cols + j];
      }
    }
  }

  /** Transposed so far: rows before `x` and, in row `x`, columns before `y`. */
  ghost predicate Flipped(t: seq<real>, m: seq<real>, rows: nat, cols: nat, x: nat, y: nat) {
    forall i, j :: 0 <= i < rows && 0 <= j < cols && (i < x || (i == x && j < y)) ==>
                     At(t, Cell(rows, j, i)) == At(m, Cell(cols, i, j))
  }

  lemma FlipOne(t: seq<real>, m: seq<real>, rows: nat, cols: nat, x: nat, y: nat)
    requires rows * cols <= |t| && Flipped(t, m, rows, cols, x, y) && x < rows && y < cols
    ensures Cell(rows, y, x) < |t|
    ensures Flipped(t[Cell(rows, y, x) := At(m, Cell(cols, x, y))], m, rows, cols, x, y + 1)
  {
    CellBound(cols, rows, y, x);
    var t' := t[Cell(rows, y, x) := At(m, Cell(cols, x, y))];
    forall i, j | 0 <= i < rows && 0 <= j < cols && (i < x || (i == x && j < y + 1))
      ensures At(t', Cell(rows, j, i)) == At(m, Cell(cols, i, j))
    {
      if Cell(rows, j, i) == Cell(rows, y, x) { CellUnique(rows, j, i, y, x); }
    }
  }

  function Min(x: nat, y: nat): nat {
    if x <= y then x else y
  }

  /** Blocks that need not divide the dimensions. */
  method MultiplyTiled(a: array?<real>, ra: nat, ca: nat, b: array?<real>, rb: nat, cb: nat, r: array?<real>)
    requires Fits(a, ra, ca, b, rb, cb, r)
    modifies if r == null then {} else {r}
    ensures a == null || b == null || ca != rb ==> r == null || r[..] == old(r[..])
    ensures a != null && b != null && r != null && ca == rb ==> IsProduct(r[..], a[..], ra, ca, b[..], cb)
  {
    if Refused(a, ca, b, rb, r) { return; }
    ZeroFill(r, ra * cb);
    ghost var m, n := a[..], b[..];
    var ii := 0;
    NothingYet(r[..], m, ra, ca, n, cb);
    while ii < ra
      invariant a[..] == m && b[..] == n && Reached(r[..], m, ra, ca, n, cb, Above(Min(ii, ra)))
    {
      RowBand(a, ra, ca, b, cb, r, ii);
      ii := ii + BLOCK_SIZE;
    }
  }

  /** Between bands: rows before `i` complete, the others not begun. */
  function Above(i: nat): Progress {
    Tiles(i, i, 0, 0, 0, 0, 0, 0, 0)
  }

  /** Within a band, with every column at `k` terms. */
  function Level(i0: nat, i1: nat, k: nat): Progress {
    Tiles(i0, i1, k, k, 0, 0, 0, 0, 0)
  }

  /** Within a slab, with columns before `j` at `k1` terms and the others at `k0`. */
  function Slab(i0: nat, i1: nat, k0: nat, k1: nat, j: nat): Progress {
    Tiles(i0, i1, k0, k1, j, j, 0, 0, 0)
  }

  lemma NothingYet(r: seq<real>, a: seq<real>, ra: nat, ca: nat, b: seq<real>, cb: nat)
    requires ra * cb <= |r| && forall c :: 0 <= c < ra * cb ==> r[c] == 0.0
    ensures Reached(r, a, ra, ca, b, cb, Above(0))
  {
    forall i, j | 0 <= i < ra && 0 <= j < cb ensures At(r, Cell(cb, i, j)) == 0.0 {
      CellBound(ra, cb, i, j);
    }
  }

  method RowBand(a: array<real>, ra: nat, ca: nat, b: array<real>, cb: nat, r: array<real>, ii: nat)
    requires ra * ca <= a.Length && ca * cb <= b.Length && ra * cb <= r.Length && r != a && r != b && ii < ra
    requires Reached(r[..], a[..], ra, ca, b[..], cb, Above(ii))
    modifies r
    ensures Reached(r[..], a[..], ra, ca, b[..], cb, Above(Min(ii + BLOCK_SIZE, ra)))
  {
    var iEnd := Min(ii + BLOCK_SIZE, ra);
    ghost var m, n := a[..], b[..];
    Rename(r[..], m, ra, ca, n, cb, Above(ii), Level(ii, iEnd, 0));
    var kk := 0;
    while kk < ca
      invariant a[..] == m && b[..] == n && Reached(r[..], m, ra, ca, n, cb, Level(ii, iEnd, Min(kk, ca)))
    {
      ColumnSlab(a, ra, ca, b, cb, r, ii, iEnd, kk);
      kk := kk + BLOCK_SIZE;
    }
    Rename(r[..], m, ra, ca, n, cb, Level(ii, iEnd, ca), Above(iEnd));
  }

  method ColumnSlab(a: array<real>, ra: nat, ca: nat, b: array<real>, cb: nat,
                    r: array<real>, ii: nat, iEnd: nat, kk: nat)
    requires ra * ca <= a.Length && ca * cb <= b.Length && ra * cb <= r.Length && r != a && r != b
    requires ii <= iEnd <= ra && kk < ca && Reached(r[..], a[..], ra, ca, b[..], cb, Level(ii, iEnd, kk))
    modifies r
    ensures Reached(r[..], a[..], ra, ca, b[..], cb, Level(ii, iEnd, Min(kk + BLOCK_SIZE, ca)))
  {
    var kEnd := Min(kk + BLOCK_SIZE, ca);
    ghost var m, n := a[..], b[..];
    Rename(r[..], m, ra, ca, n, cb, Level(ii, iEnd, kk), Slab(ii, iEnd, kk, kEnd, 0));
    var jj := 0;
    while jj < cb
      invariant a[..] == m && b[..] == n && Reached(r[..], m, ra, ca, n, cb, Slab(ii, iEnd, kk, kEnd, Min(jj, cb)))
    {
      Tile(a, ra, ca, b, cb, r, ii, iEnd, kk, kEnd, jj, Min(jj + BLOCK_SIZE, cb));
      jj := jj + BLOCK_SIZE;
    }
    Rename(r[..], m, ra, ca, n, cb, Slab(ii, iEnd, kk, kEnd, cb), Level(ii, iEnd, kEnd));
  }

  method Tile(a: array<real>, ra: nat, ca: nat, b: array<real>, cb: nat, r: array<real>,
              i0: nat, i1: nat, k0: nat, k1: nat, j0: nat, j1: nat)
    requires ra * ca <= a.Length && ca * cb <= b.Length && ra * cb <= r.Length && r != a && r != b
    requires i0 <= i1 <= ra && k0 <= k1 <= ca && j0 <= j1 <= cb
    requires Reached(r[..], a[..], ra, ca, b[..], cb, Slab(i0, i1, k0, k1, j0))
    modifies r
    ensures Reached(r[..], a[..], ra, ca, b[..], cb, Slab(i0, i1, k0, k1, j1))
  {
    ghost var m, n, p := a[..], b[..], Tiles(i0, i1, k0, k1, j0, j1, i0, k0, j0);
    EnterTile(r[..], m, ra, ca, n, cb, p);
    for i := i0 to i1
      invariant a[..] == m && b[..] == n && Reached(r[..], m, ra, ca, n, cb, InTile(p, i, k0, j0))
    {
      TileRow(a, ra, ca, b, cb, r, i, k0, k1, j0, j1, p);
      NextRow(r[..], m, ra, ca, n, cb, p, i);
    }
    LeaveTile(r[..], m, ra, ca, n, cb, p);
  }

  method TileRow(a: array<real>, ra: nat, ca: nat, b: array<real>, cb: nat, r: array<real>,
                 i: nat, k0: nat, k1: nat, j0: nat, j1: nat, ghost p: Progress)
    requires ra * ca <= a.Length && ca * cb <= b.Length && ra * cb <= r.Length && r != a && r != b
    requires p.Tiles? && p.i0 <= i < p.i1 <= ra && p.k0 == k0 <= k1 == p.k1 <= ca && p.j0 == j0 <= j1 == p.j1 <= cb
    requires Reached(r[..], a[..], ra, ca, b[..], cb, InTile(p, i, k0, j0))
    modifies r
    ensures Reached(r[..], a[..], ra, ca, b[..], cb, InTile(p, i, k1, j0))
  {
    ghost var m, n := a[..], b[..];
    for k := k0 to k1
      invariant a[..] == m && b[..] == n && Reached(r[..], m, ra, ca, n, cb, InTile(p, i, k, j0))
    {
      Sweep(a, ra, ca, b, cb, r, i, k, j0, j1, p);
    }
  }

  /** The same tile at another place. */
  function InTile(p: Progress, x: nat, k: nat, y: nat): Progress {
    if p.Tiles? then p.(x := x, k := k, y := y) else p
  }

  lemma EnterTile(r: seq<real>, a: seq<real>, ra: nat, ca: nat, b: seq<real>, cb: nat, p: Progress)
    requires p.Tiles? && p.j0 <= p.j1 && Reached(r, a, ra, ca, b, cb, Slab(p.i0, p.i1, p.k0, p.k1, p.j0))
    ensures Reached(r, a, ra, ca, b, cb, InTile(p, p.i0, p.k0, p.j0))
  {
    var q := Slab(p.i0, p.i1, p.k0, p.k1, p.j0);
    forall i, j | 0 <= i < ra && 0 <= j < cb
      ensures Terms(InTile(p, p.i0, p.k0, p.j0), ca, i, j) == Terms(q, ca, i, j)
    {
    }
  }

  lemma NextRow(r: seq<real>, a: seq<real>, ra: nat, ca: nat, b: seq<real>, cb: nat, p: Progress, x: nat)
    requires p.Tiles? && Reached(r, a, ra, ca, b, cb, InTile(p, x, p.k1, p.j0))
    ensures Reached(r, a, ra, ca, b, cb, InTile(p, x + 1, p.k0, p.j0))
  {
    forall i, j | 0 <= i < ra && 0 <= j < cb
      ensures Terms(InTile(p, x, p.k1, p.j0), ca, i, j) == Terms(InTile(p, x + 1, p.k0, p.j0), ca, i, j)
    {
    }
  }

  lemma LeaveTile(r: seq<real>, a: seq<real>, ra: nat, ca: nat, b: seq<real>, cb: nat, p: Progress)
    requires p.Tiles? && p.j0 <= p.j1 && Reached(r, a, ra, ca, b, cb, InTile(p, p.i1, p.k0, p.j0))
    ensures Reached(r, a, ra, ca, b, cb, Slab(p.i0, p.i1, p.k0, p.k1, p.j1))
  {
    var q := Slab(p.i0, p.i1, p.k0, p.k1, p.j1);
    forall i, j | 0 <= i < ra && 0 <= j < cb
      ensures Terms(InTile(p, p.i1, p.k0, p.j0), ca, i, j) == Terms(q, ca, i, j)
    {
    }
  }

  lemma NextTerm(r: seq<real>, a: seq<real>, ra: nat, ca: nat, b: seq<real>, cb: nat, p: Progress, x: nat, k: nat)
    requires p.Tiles? && Reached(r, a, ra, ca, b, cb, InTile(p, x, k, p.j1))
    ensures Reached(r, a, ra, ca, b, cb, InTile(p, x, k + 1, p.j0))
  {
    forall i, j | 0 <= i < ra && 0 <= j < cb
      ensures Terms(InTile(p, x, k, p.j1), ca, i, j) == Terms(InTile(p, x, k + 1, p.j0), ca, i, j)
    {
    }
  }

  /** One entry of A, used across the columns of the tile. */
  method Sweep(a: array<real>, ra: nat, ca: nat, b: array<real>, cb: nat, r: array<real>,
               i: nat, k: nat, j0: nat, j1: nat, ghost p: Progress)
    requires ra * ca <= a.Length && ca * cb <= b.Length && ra * cb <= r.Length && r != a && r != b
    requires p.Tiles? && p.i0 <= i < p.i1 <= ra && p.k0 <= k < p.k1 <= ca && p.j0 == j0 <= j1 == p.j1 <= cb
    requires Reached(r[..], a[..], ra, ca, b[..], cb, InTile(p, i, k, j0))
    modifies r
    ensures Reached(r[..], a[..], ra, ca, b[..], cb, InTile(p, i, k + 1, j0))
  {
    ghost var m, n := a[..], b[..];
    CellBound(ra, ca, i, k);
    var aik := a[i * ca + k];
    for j := j0 to j1
      invariant a[..] == m && b[..] == n && Reached(r[..], m, ra, ca, n, cb, InTile(p, i, k, j))
    {
      AddTerm(a, ra, ca, b, cb, r, aik, i, k, j, p);
    }
    NextTerm(r[..], m, ra, ca, n, cb, p, i, k);
  }

  /** The innermost statement. */
  method AddTerm(a: array<real>, ghost ra: nat, ghost ca: nat, b: array<real>, cb: nat, r: array<real>, aik: real,
                 i: nat, k: nat, j: nat, ghost p: Progress)
    requires ca * cb <= b.Length && ra * cb <= r.Length && r != a && r != b && aik == At(a[..], Cell(ca, i, k))
    requires p.Tiles? && p.i0 <= i < p.i1 <= ra && k < ca && p.j0 <= j < p.j1 <= cb
    requires Reached(r[..], a[..], ra, ca, b[..], cb, InTile(p, i, k, j))
    modifies r
    ensures Reached(r[..], a[..], ra, ca, b[..], cb, InTile(p, i, k, j + 1))
  {
    CellBound(ca, cb, k, j);
    CellBound(ra, cb, i, j);
    var c, d := i * cb + j, k * cb + j;
    var v := r[c] + aik * b[d];
    NextEntry(r[..], a[..], ra, ca, b[..], cb, p, i, k, j, v);
    Extend(r[..], a[..], ra, ca, b[..], cb, p, i, k, j, v);
    r[c] := v;
  }

  lemma NextEntry(r: seq<real>, a: seq<real>, ra: nat, ca: nat, b: seq<real>, cb: nat, p: Progress, i: nat, k: nat,
                  j: nat, v: real)
    requires p.Tiles? && p.i0 <= i < p.i1 <= ra && p.j0 <= j < p.j1 <= cb
    requires Reached(r, a, ra, ca, b, cb, InTile(p, i, k, j))
    requires v == At(r, Cell(cb, i, j)) + At(a, Cell(ca, i, k)) * At(b, Cell(cb, k, j))
    ensures v == Entry(a, ca, b, cb, i, j, k + 1)
  {
    assert Terms(InTile(p, i, k, j), ca, i, j) == k;
  }

  lemma Extend(r: seq<real>, a: seq<real>, ra: nat, ca: nat, b: seq<real>, cb: nat, p: Progress, i: nat, k: nat, j: nat,
               v: real)
    requires p.Tiles? && p.i0 <= i < p.i1 <= ra && p.j0 <= j < p.j1 <= cb && ra * cb <= |r|
    requires Reached(r, a, ra, ca, b, cb, InTile(p, i, k, j)) && v == Entry(a, ca, b, cb, i, j, k + 1)
    ensures Cell(cb, i, j) < |r| && Reached(r[Cell(cb, i, j) := v], a, ra, ca, b, cb, InTile(p, i, k, j + 1))
  {
    var q, q' := InTile(p, i, k, j), InTile(p, i, k, j + 1);
    forall x, y | 0 <= x < ra && 0 <= y < cb && (x != i || y != j) ensures Terms(q', ca, x, y) == Terms(q, ca, x, y) {
    }
    Write(r, a, ra, ca, b, cb, q, q', i, j, v);
  }

  // ---------- they agree ----------

  /** The product is unique: whichever function computed it, the cells are the same. */
  lemma ProductUnique(r: seq<real>, s: seq<real>, a: seq<real>, ra: nat, ca: nat, b: seq<real>, cb: nat)
    requires IsProduct(r, a, ra, ca, b, cb) && IsProduct(s, a, ra, ca, b, cb)
    requires ra * cb <= |r| && ra * cb <= |s|
    ensures r[..ra * cb] == s[..ra * cb]
  {
    forall c | 0 <= c < ra * cb ensures r[c] == s[c] {
      var i, j := CellOf(ra, cb, c);
      assert At(r, Cell(cb, i, j)) == At(s, Cell(cb, i, j));
    }
  }

  /** Transposing twice gives the matrix back. */
  lemma TransposeTwice(t: seq<real>, u: seq<real>, m: seq<real>, rows: nat, cols: nat)
    requires IsTranspose(t, m, rows, cols) && IsTranspose(u, t, cols, rows) && rows * cols <= |m| && rows * cols <= |u|
    ensures u[..rows * cols] == m[..rows * cols]
  {
    forall c | 0 <= c < rows * cols ensures u[c] == m[c] {
      var i, j := CellOf(rows, cols, c);
      assert At(t, Cell(rows, j, i)) == At(m, Cell(cols, i, j));
      assert At(u, Cell(cols, i, j)) == At(t, Cell(rows, j, i));
    }
  }

  lemma SameProducts(r: seq<real>, s: seq<real>, a: seq<real>, ra: nat, ca: nat, b: seq<real>, cb: nat)
    requires IsProduct(r, a, ra, ca, b, cb) && IsProduct(s, a, ra, ca, b, cb) && |r| == |s| == ra * cb
    ensures r == s
  {
    ProductUnique(r, s, a, ra, ca, b, cb);
    assert r[..ra * cb] == r && s[..ra * cb] == s;
  }

  method Naive(a: array<real>, ra: nat, ca: nat, b: array<real>, cb: nat) returns (r: array<real>)
    requires ra * ca <= a.Length && ca * cb <= b.Length
    ensures fresh(r) && r.Length == ra * cb && IsProduct(r[..], a[..], ra, ca, b[..], cb)
  {
    r := new real[ra * cb](_ => 0.0);
    MultiplyNaive(a, ra, ca, b, ca, cb, r);
  }

  method Tiled(a: array<real>, ra: nat, ca: nat, b: array<real>, cb: nat) returns (r: array<real>)
    requires ra * ca <= a.Length && ca * cb <= b.Length
    ensures fresh(r) && r.Length == ra * cb && IsProduct(r[..], a[..], ra, ca, b[..], cb)
  {
    r := new real[ra * cb](_ => 0.0);
    MultiplyTiled(a, ra, ca, b, ca, cb, r);
  }

  method Transposed(b: array<real>, ca: nat, cb: nat) returns (bt: array<real>)
    requires ca * cb <= b.Length
    ensures fresh(bt) && bt.Length == ca * cb && IsTranspose(bt[..], b[..], ca, cb)
  {
    bt := new real[ca * cb](_ => 0.0);
    Transpose(b, ca, cb, bt);
  }

  method ViaTranspose(a: array<real>, ra: nat, ca: nat, b: array<real>, cb: nat) returns (r: array<real>)
    requires ra * ca <= a.Length && ca * cb <= b.Length
    ensures fresh(r) && r.Length == ra * cb && IsProduct(r[..], a[..], ra, ca, b[..], cb)
  {
    var bt := Transposed(b, ca, cb);
    r := new real[ra * cb](_ => 0.0);
    MultiplyTransposedB(a, ra, ca, bt, ca, cb, r, b[..]);
  }

  /** The three functions on the same inputs give the same product. */
  method ThreeWays(a: array<real>, ra: nat, ca: nat, b: array<real>, cb: nat)
    returns (naive: array<real>, tiled: array<real>, transposed: array<real>)
    requires ra * ca <= a.Length && ca * cb <= b.Length
    ensures IsProduct(naive[..], a[..], ra, ca, b[..], cb)
    ensures naive[..] == tiled[..] == transposed[..]
  {
    naive := Naive(a, ra, ca, b, cb);
    tiled := Tiled(a, ra, ca, b, cb);
    transposed := ViaTranspose(a, ra, ca, b, cb);
    SameProducts(naive[..], tiled[..], a[..], ra, ca, b[..], cb);
    SameProducts(naive[..], transposed[..], a[..], ra, ca, b[..], cb);
  }
}
