/** What the hft client makes of the bytes of a payload: id and size skipped as two fields, a newline scan for the end
    of A's text, and one parse from either side of it. And when that is the answer to the challenge. */
module HftParser {
  import opened Checksum
  import opened Wire
  import opened Client2026
  import opened RowMajor
  import opened TraceKernel
  import opened Traces
  import opened Wrappers

  /** An unsigned number kept in 32 bits and stored in an `int32_t`. */
  function AsInt32(v: nat): int {
    if v >= 0x1_0000_0000 then AsInt32(v - 0x1_0000_0000) else if v >= 0x8000_0000 then v - 0x1_0000_0000 else v
  }

  /** The conversion keeps the low 32 bits. */
  lemma {:induction false} AsInt32Keeps(v: nat)
    ensures -0x8000_0000 <= AsInt32(v) < 0x8000_0000 && (v - AsInt32(v)) % 0x1_0000_0000 == 0
  {
    if v >= 0x1_0000_0000 { AsInt32Keeps(v - 0x1_0000_0000); }
  }

  /** The value and width of the field at `p`; -1 and no width where the bytes end. */
  function Field(s: string, p: nat): (int, nat) {
    if p + 2 < |s| then
      var (v, len) := DecodeVal(s[p], s[p + 1], s[p + 2]);
      (AsInt32(v), len)
    else (-1, 0)
  }

  /** The cursor behind `k` fields from `p` on. */
  function Cursor(s: string, p: nat, k: nat): nat {
    if k == 0 then p else Cursor(s, p, k - 1) + Field(s, Cursor(s, p, k - 1)).1
  }

  /** The `k`-th field from `p` on. */
  function FieldAt(s: string, p: nat, k: nat): int {
    Field(s, Cursor(s, p, k)).0
  }

  /** The position behind the `k`-th newline from `p` on. */
  function Behind(s: string, p: nat, k: nat): nat {
    if p <= |s| && FrameLength(s[p..], k).Some? then p + FrameLength(s[p..], k).value else p
  }

  /** Where the main thread starts on A: behind two fields, taken to be the id and the size. */
  function AfterHeader(s: string): nat {
    Cursor(s, 0, 2)
  }

  /** Where the worker starts on B: behind the first newline from there. */
  function WorkerStart(s: string): nat {
    Behind(s, AfterHeader(s), 1)
  }

  /** The first `k` fields from `p` on. */
  function Fields(s: string, p: nat, k: nat): (r: seq<int>)
    ensures |r| == k
  {
    if k == 0 then [] else Fields(s, p, k - 1) + [FieldAt(s, p, k - 1)]
  }

  /** Fields from `p` on fill a matrix column by column: the first `k` cells of row `r`. */
  function Across(n: nat, s: string, p: nat, r: nat, k: nat): (x: seq<int>)
    ensures |x| == k
  {
    if k == 0 then [] else Across(n, s, p, r, k - 1) + [FieldAt(s, p, Cell(n, k - 1, r))]
  }

  /** The first `rows` rows of that matrix. */
  function Columns(n: nat, s: string, p: nat, rows: nat): seq<int> {
    if rows == 0 then [] else Columns(n, s, p, rows - 1) + Across(n, s, p, rows - 1, n)
  }

  /** What the client answers to a payload, with the kernel of tier `t`. */
  function Response(n: nat, t: Tier, s: string): int
    requires n > 0
  {
    TraceOf(t, n, Fields(s, AfterHeader(s), n * n), Columns(n, s, WorkerStart(s), n)) % MODULO
  }

  lemma {:induction false} FieldsAt(s: string, p: nat, k: nat, i: nat)
    requires i < k
    ensures Fields(s, p, k)[i] == FieldAt(s, p, i)
  {
    if i < k - 1 { FieldsAt(s, p, k - 1, i); }
  }

  lemma {:induction false} AcrossAt(n: nat, s: string, p: nat, r: nat, k: nat, c: nat)
    requires c < k
    ensures Across(n, s, p, r, k)[c] == FieldAt(s, p, Cell(n, c, r))
  {
    if c < k - 1 { AcrossAt(n, s, p, r, k - 1, c); }
  }

  lemma {:induction false} ColumnsLength(n: nat, s: string, p: nat, rows: nat)
    ensures |Columns(n, s, p, rows)| == rows * n
  {
    if rows > 0 {
      ColumnsLength(n, s, p, rows - 1);
      assert rows * n == (rows - 1) * n + n;
    }
  }

  lemma OneRow(n: nat, s: string, p: nat, rows: nat)
    requires rows > 0
    ensures Columns(n, s, p, rows) == Columns(n, s, p, rows - 1) + Across(n, s, p, rows - 1, n)
  {
  }

  lemma LastRow(n: nat, s: string, p: nat, r: nat, c: nat)
    requires c < n
    ensures Cell(n, r, c) < |Columns(n, s, p, r + 1)|
    ensures Columns(n, s, p, r + 1)[Cell(n, r, c)] == Across(n, s, p, r, n)[c]
  {
    OneRow(n, s, p, r + 1);
    ColumnsLength(n, s, p, r);
    assert Cell(n, r, c) == |Columns(n, s, p, r)| + c;
  }

  lemma {:induction false} EarlierRows(n: nat, s: string, p: nat, r: nat, rows: nat)
    requires r <= rows
    ensures Columns(n, s, p, r) <= Columns(n, s, p, rows)
    decreases rows
  {
    if r < rows {
      EarlierRows(n, s, p, r, rows - 1);
      OneRow(n, s, p, rows);
    }
  }

  lemma ColumnsAt(n: nat, s: string, p: nat, rows: nat, r: nat, c: nat)
    requires r < rows && c < n
    ensures Cell(n, r, c) < |Columns(n, s, p, rows)|
    ensures Columns(n, s, p, rows)[Cell(n, r, c)] == FieldAt(s, p, Cell(n, c, r))
  {
    LastRow(n, s, p, r, c);
    AcrossAt(n, s, p, r, n, c);
    EarlierRows(n, s, p, r + 1, rows);
  }

  /** The newline scan, from A's first byte: one past its result is where the worker starts. */
  method FindNewline(s: string, p: nat) returns (q: nat)
    requires p <= |s| && FrameLength(s[p..], 1).Some?
    ensures p <= q < |s| && s[q] == NL && q + 1 == Behind(s, p, 1) && forall k :: p <= k < q ==> s[k] != NL
  {
    q := p;
    while s[q] != NL
      invariant p <= q < |s| && FrameLength(s[q..], 1).Some? && Behind(s, q, 1) == Behind(s, p, 1)
      invariant forall k :: p <= k < q ==> s[k] != NL
      decreases |s| - q
    {
      assert s[q..][1..] == s[q + 1..];
      q := q + 1;
    }
    assert FrameLength(s[q..][1..], 0) == Some(0);
  }

  // ---------- text that holds what the parser expects ----------

  lemma SmallAsInt32(v: nat)
    requires v < 1000
    ensures AsInt32(v) == v
  {
  }

  /** The values from `k` on stand in the text from `p` on, each followed by a space, and then a newline. */
  ghost predicate Stand(s: string, p: nat, vals: seq<int>, k: nat)
    requires Values(vals) && k <= |vals|
    decreases |vals| - k
  {
    if k == |vals| then p < |s| && s[p] == NL
    else At(s, p, Dec(vals[k]) + [' ']) && Stand(s, p + |Dec(vals[k])| + 1, vals, k + 1)
  }

  lemma {:induction false} StandFrom(s: string, p: nat, vals: seq<int>, k: nat, more: string)
    requires Values(vals) && k <= |vals| && At(s, p, Spaced(vals[k..]) + ([NL] + more))
    ensures Stand(s, p, vals, k)
    decreases |vals| - k
  {
    if k == |vals| {
      AtIndex(s, p, Spaced(vals[k..]) + ([NL] + more), 0);
    } else {
      var v := Dec(vals[k]) + [' '];
      assert vals[k..][1..] == vals[k + 1..];
      assert Spaced(vals[k..]) + ([NL] + more) == v + (Spaced(vals[k + 1..]) + ([NL] + more));
      AtSplit(s, p, v, Spaced(vals[k + 1..]) + ([NL] + more));
      StandFrom(s, p + |v|, vals, k + 1, more);
    }
  }

  /** Where the text of value `k` starts, if that of the first starts at `p`. */
  ghost function TextStart(p: nat, vals: seq<int>, k: nat): nat
    requires Values(vals) && k <= |vals|
  {
    if k == 0 then p else TextStart(p, vals, k - 1) + |Dec(vals[k - 1])| + 1
  }

  lemma {:induction false} StandAt(s: string, p: nat, vals: seq<int>, k: nat)
    requires Values(vals) && k <= |vals| && Stand(s, p, vals, 0)
    ensures Stand(s, TextStart(p, vals, k), vals, k)
  {
    if k > 0 { StandAt(s, p, vals, k - 1); }
  }

  lemma {:induction false} StandBound(s: string, p: nat, vals: seq<int>, k: nat)
    requires Values(vals) && k <= |vals| && Stand(s, p, vals, k)
    ensures p < |s|
  {
    if k < |vals| { DecDigits(vals[k]); }
  }

  /** A value followed by a space is one field; it starts with a digit. */
  lemma FieldOfValue(s: string, p: nat, vals: seq<int>, k: nat)
    requires Values(vals) && k < |vals| && Stand(s, p, vals, k)
    ensures Field(s, p) == (vals[k], |Dec(vals[k])| + 1) && |Dec(vals[k])| >= 1
    ensures p + 2 < |s| && Digit(s[p]) < 10
  {
    var v := Dec(vals[k]) + [' '];
    StandBound(s, p + |v|, vals, k + 1);
    DecDigits(vals[k]);
    DecodeInverts(vals[k], ' ', s[p + |v|..]);
    Unsplit(s, p, v);
    assert s[p] == v[0] == Dec(vals[k])[0];
    SmallAsInt32(vals[k]);
  }

  lemma Unsplit(s: string, p: nat, t: string)
    requires At(s, p, t)
    ensures var f := t + s[p + |t|..]; |f| == |s| - p && forall i :: 0 <= i < |f| ==> f[i] == s[p + i]
  {
    forall i | 0 <= i < |t| ensures t[i] == s[p + i] { AtIndex(s, p, t, i); }
  }

  lemma NextCursor(s: string, p: nat, k: nat)
    requires k > 0
    ensures Cursor(s, p, k) == Cursor(s, p, k - 1) + Field(s, Cursor(s, p, k - 1)).1
  {
  }

  /** The cursor follows the text of some values, value by value. */
  lemma {:induction false} CursorReads(s: string, p: nat, vals: seq<int>, k: nat)
    requires Values(vals) && Stand(s, p, vals, 0) && k <= |vals|
    ensures Cursor(s, p, k) == TextStart(p, vals, k)
  {
    if k > 0 {
      CursorReads(s, p, vals, k - 1);
      StandAt(s, p, vals, k - 1);
      OneValue(s, p, vals, k - 1);
    }
  }

  lemma OneValue(s: string, p: nat, vals: seq<int>, k: nat)
    requires Values(vals) && k < |vals| && Cursor(s, p, k) == TextStart(p, vals, k)
    requires Stand(s, TextStart(p, vals, k), vals, k)
    ensures Cursor(s, p, k + 1) == TextStart(p, vals, k + 1)
  {
    FieldOfValue(s, TextStart(p, vals, k), vals, k);
    NextCursor(s, p, k + 1);
  }

  /** From the start of the text of some values, the `k`-th field is the `k`-th value. */
  lemma FieldsRead(s: string, p: nat, vals: seq<int>, k: nat)
    requires Values(vals) && Stand(s, p, vals, 0) && k < |vals|
    ensures FieldAt(s, p, k) == vals[k]
  {
    CursorReads(s, p, vals, k);
    StandAt(s, p, vals, k);
    FieldOfValue(s, TextStart(p, vals, k), vals, k);
  }

  lemma {:induction false} FlattenAt(n: nat, m: Matrix, i: nat, k: nat)
    requires RowsOk(n, m) && i < |m| && k < n
    ensures Cell(n, i, k) < |Flatten(m)| && Flatten(m)[Cell(n, i, k)] == m[i][k]
  {
    FlattenValues(n, m);
    CellBound(|m|, n, i, k);
    if i > 0 {
      FlattenAt(n, m[1..], i - 1, k);
      assert Cell(n, i, k) == n + Cell(n, i - 1, k) by { assert i * n == (i - 1) * n + n; }
    }
  }

  /** The text of a matrix, and a newline. */
  ghost predicate MatrixAt(n: nat, s: string, p: nat, m: Matrix) {
    RowsOk(n, m) && |m| == n && Values(Flatten(m)) && Stand(s, p, Flatten(m), 0)
  }

  lemma MatrixStands(n: nat, s: string, p: nat, m: Matrix, more: string)
    requires RowsOk(n, m) && |m| == n && At(s, p, MatrixText(n, m) + ([NL] + more))
    ensures MatrixAt(n, s, p, m)
  {
    FlattenValues(n, m);
    assert Flatten(m)[0..] == Flatten(m);
    StandFrom(s, p, Flatten(m), 0, more);
  }

  /** From the text of a matrix the fields are its entries, row by row. */
  lemma EntryRead(n: nat, s: string, p: nat, m: Matrix, i: nat, k: nat)
    requires MatrixAt(n, s, p, m) && i < n && k < n
    ensures FieldAt(s, p, Cell(n, i, k)) == m[i][k]
  {
    FlattenAt(n, m, i, k);
    FieldsRead(s, p, Flatten(m), Cell(n, i, k));
  }

  lemma FieldsParsed(n: nat, s: string, p: nat, m: Matrix)
    requires Square(n, m) && MatrixAt(n, s, p, m)
    ensures Parsed(n, Fields(s, p, n * n), m)
  {
    forall i, k | 0 <= i < n && 0 <= k < n
      ensures Cell(n, i, k) < n * n && Fields(s, p, n * n)[Cell(n, i, k)] == m[i][k]
    {
      FieldParsed(n, s, p, m, i, k);
    }
  }

  lemma FieldParsed(n: nat, s: string, p: nat, m: Matrix, i: nat, k: nat)
    requires MatrixAt(n, s, p, m) && i < n && k < n
    ensures Cell(n, i, k) < n * n && Fields(s, p, n * n)[Cell(n, i, k)] == m[i][k]
  {
    CellBound(n, n, i, k);
    FieldsAt(s, p, n * n, Cell(n, i, k));
    EntryRead(n, s, p, m, i, k);
  }

  /** The columns are its transpose. */
  lemma ColumnsTransposed(n: nat, s: string, p: nat, m: Matrix)
    requires Square(n, m) && MatrixAt(n, s, p, m)
    ensures Transposed(n, Columns(n, s, p, n), m)
  {
    ColumnsLength(n, s, p, n);
    forall c, r | 0 <= c < n && 0 <= r < n
      ensures Cell(n, r, c) < |Columns(n, s, p, n)| && Columns(n, s, p, n)[Cell(n, r, c)] == m[c][r]
    {
      ColumnParsed(n, s, p, m, c, r);
    }
  }

  lemma ColumnParsed(n: nat, s: string, p: nat, m: Matrix, c: nat, r: nat)
    requires MatrixAt(n, s, p, m) && c < n && r < n
    ensures Cell(n, r, c) < |Columns(n, s, p, n)| && Columns(n, s, p, n)[Cell(n, r, c)] == m[c][r]
  {
    ColumnsAt(n, s, p, n, r, c);
    EntryRead(n, s, p, m, c, r);
  }

  // ---------- the header ----------

  /** Both lines of the header. */
  ghost function HeaderText(n: nat, c: Challenge): string {
    Line(Dec(c.cid)) + Line(Dec(n))
  }

  /** A line of at most three digits is one field, up to its newline. */
  lemma FieldOfLine(s: string, p: nat, v: nat, rest: string)
    requires v < 1000 && |rest| >= 1 && At(s, p, Line(Dec(v)) + rest)
    ensures p + Field(s, p).1 == p + |Line(Dec(v))| && At(s, p + |Line(Dec(v))|, rest)
  {
    DecodeInverts(v, NL, rest);
    var f := Dec(v) + [NL] + rest;
    assert Line(Dec(v)) + rest == f;
    AtIndex(s, p, f, 0);
    AtIndex(s, p, f, 1);
    AtIndex(s, p, f, 2);
    AtSplit(s, p, Line(Dec(v)), rest);
  }

  // ---------- ids below 1000 ----------

  /** The payload as header, A, and what follows. */
  ghost function BehindA(n: nat, c: Challenge): string
    requires GoodChallenge(n, c)
  {
    ReducedRows(n, c.b);
    [NL] + (MatrixText(n, c.b) + [NL])
  }

  lemma PayloadParts(n: nat, c: Challenge)
    requires GoodChallenge(n, c)
    ensures RowsOk(n, c.a) && RowsOk(n, c.b)
    ensures Payload(n, c) == HeaderText(n, c) + (MatrixText(n, c.a) + BehindA(n, c))
  {
    ReducedRows(n, c.a);
    ReducedRows(n, c.b);
    PayloadLayout(n, c);
  }

  lemma AtPart(x: string, y: string)
    ensures At(x + y, 0, x) && At(x + y, |x|, y)
  {
  }

  lemma TwoFields(s: string, x: nat, y: nat, rest: string)
    requires x < 1000 && y < 1000 && |rest| >= 1 && At(s, 0, Line(Dec(x)) + (Line(Dec(y)) + rest))
    ensures AfterHeader(s) == |Line(Dec(x))| + |Line(Dec(y))|
  {
    FieldOfLine(s, 0, x, Line(Dec(y)) + rest);
    FieldOfLine(s, |Line(Dec(x))|, y, rest);
    NextCursor(s, 0, 1);
    NextCursor(s, 0, 2);
  }

  /** Two fields of at most three digits end where the second line does. */
  lemma HeaderSkipped(n: nat, c: Challenge, rest: string)
    requires n < 1000 && c.cid < 1000 && |rest| >= 1
    ensures AfterHeader(HeaderText(n, c) + rest) == |HeaderText(n, c)|
  {
    var s := HeaderText(n, c) + rest;
    assert s == Line(Dec(c.cid)) + (Line(Dec(n)) + rest);
    AtPart(s, []);
    assert s + [] == s;
    TwoFields(s, c.cid, n, rest);
  }

  /** From the start of A's text, the scan ends where B's starts. */
  lemma ScanOverLine(s: string, p: nat, line: string, rest: string)
    requires At(s, p, line + ([NL] + rest)) && p + |line| + 1 + |rest| == |s| && NoNewline(line)
    ensures Behind(s, p, 1) == p + |line| + 1 && At(s, p + |line| + 1, rest)
  {
    Reassociate(line, [NL], rest);
    assert s[p..] == s[p..p + |Line(line) + rest|] == Line(line) + rest;
    LineFrame(line, rest, 1);
    AtSplit(s, p, Line(line), rest);
  }

  /** With an id below 1000 the main thread starts on the text of A, and the worker on the text of B. */
  lemma Positions(n: nat, c: Challenge)
    requires GoodChallenge(n, c) && n < 1000 && c.cid < 1000
    ensures var s := Payload(n, c); MatrixAt(n, s, AfterHeader(s), c.a) && MatrixAt(n, s, WorkerStart(s), c.b)
  {
    PayloadParts(n, c);
    var h, rest := HeaderText(n, c), MatrixText(n, c.a) + BehindA(n, c);
    HeaderSkipped(n, c, rest);
    AtPart(h, rest);
    MatrixLine(n, c.a);
    ScanOverLine(h + rest, |h|, MatrixText(n, c.a), MatrixText(n, c.b) + [NL]);
    MatrixStands(n, h + rest, |h|, c.a, MatrixText(n, c.b) + [NL]);
    assert MatrixText(n, c.b) + ([NL] + []) == MatrixText(n, c.b) + [NL];
    MatrixStands(n, h + rest, WorkerStart(h + rest), c.b, []);
  }

  lemma ParsedInRange(n: nat, a: seq<int>, m: Matrix)
    requires n > 0 && Parsed(n, a, m) && Reduced(n, m)
    ensures InRange(a)
  {
    forall c | 0 <= c < |a| ensures 0 <= a[c] < MODULO {
      var i, k := CellOf(n, n, c);
      assert a[Cell(n, i, k)] == m[i][k];
    }
  }

  lemma TransposedInRange(n: nat, b: seq<int>, m: Matrix)
    requires n > 0 && Transposed(n, b, m) && Reduced(n, m)
    ensures InRange(b)
  {
    forall c | 0 <= c < |b| ensures 0 <= b[c] < MODULO {
      var i, k := CellOf(n, n, c);
      assert b[Cell(n, i, k)] == m[k][i];
    }
  }

  /** With an id below 1000 the parses are A and the transpose of B, of values the kernel can take. */
  lemma ParsesMatrices(n: nat, c: Challenge)
    requires n > 0 && GoodChallenge(n, c) && n < 1000 && c.cid < 1000
    ensures var s := Payload(n, c);
            var a, b := Fields(s, AfterHeader(s), n * n), Columns(n, s, WorkerStart(s), n);
            Parsed(n, a, c.a) && Transposed(n, b, c.b) && InRange(a) && InRange(b)
  {
    Positions(n, c);
    var s := Payload(n, c);
    FieldsParsed(n, s, AfterHeader(s), c.a);
    ColumnsTransposed(n, s, WorkerStart(s), c.b);
    ParsedInRange(n, Fields(s, AfterHeader(s), n * n), c.a);
    TransposedInRange(n, Columns(n, s, WorkerStart(s), n), c.b);
  }

  /** Whatever tier the client is compiled to, its kernel computes the trace of the matrices parsed. */
  lemma TierTrace(n: nat, t: Tier, a: seq<int>, b: seq<int>, x: Matrix, y: Matrix)
    requires n > 0 && Supported(t, n) && InRange(a) && InRange(b) && Parsed(n, a, x) && Transposed(n, b, y)
    ensures TraceOf(t, n, a, b) == Trace(n, x, y, n)
  {
    TraceOfIsDot(t, n, a, b);
    DotIsTrace(n, a, b, x, y, n);
  }

  /** The answer the challenge asks for. */
  ghost predicate Right(n: nat, t: Tier, c: Challenge)
    requires n > 0
  {
    GoodChallenge(n, c) ==> Response(n, t, Payload(n, c)) == Trace(n, c.a, c.b, n) % 997
  }

  lemma SmallIdsRight(n: nat, t: Tier, c: Challenge)
    requires 0 < n < 1000 && Supported(t, n) && c.cid < 1000
    ensures Right(n, t, c)
  {
    if GoodChallenge(n, c) {
      ParsesMatrices(n, c);
      var s := Payload(n, c);
      TierTrace(n, t, Fields(s, AfterHeader(s), n * n), Columns(n, s, WorkerStart(s), n), c.a, c.b);
    }
  }
}
