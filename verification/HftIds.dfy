/** Challenge ids that the hft client's parser for three digits cannot read: from id 1000 on it starts too early, and
    its answer does not depend on B. */
module HftIds {
  import opened Checksum
  import opened Wire
  import opened Client2026
  import opened RowMajor
  import opened TraceKernel
  import opened Traces
  import opened HftParser
  import opened Wrappers

  lemma {:induction false} LongDec(v: nat, k: nat)
    requires v >= Pow10(k)
    ensures |Dec(v)| >= k + 1
  {
    DecDigits(v);
    if k > 0 { LongDec(v / 10, k - 1); }
  }

  lemma FieldWidth(s: string, p: nat)
    ensures Field(s, p).1 <= 4
  {
  }

  /** Two fields are at most eight bytes; with four digits or more of id and three of size the header is longer. */
  lemma HeaderTooLong(n: nat, c: Challenge, s: string)
    requires 100 <= n && c.cid >= 1000
    ensures AfterHeader(s) <= 8 < |HeaderText(n, c)|
  {
    assert Pow10(2) == 100 && Pow10(3) == 1000;
    LongDec(n, 2);
    LongDec(c.cid, 3);
    FieldWidth(s, 0);
    FieldWidth(s, Cursor(s, 0, 1));
    assert AfterHeader(s) == Cursor(s, 0, 1) + Field(s, Cursor(s, 0, 1)).1 && Cursor(s, 0, 1) == Field(s, 0).1;
  }

  /** Two fields end behind the second line exactly if the id is below 1000. */
  lemma HeaderExact(n: nat, c: Challenge)
    requires GoodChallenge(n, c) && 100 <= n < 1000
    ensures AfterHeader(Payload(n, c)) == |HeaderText(n, c)| <==> c.cid < 1000
  {
    PayloadParts(n, c);
    if c.cid < 1000 {
      HeaderSkipped(n, c, MatrixText(n, c.a) + BehindA(n, c));
    } else {
      HeaderTooLong(n, c, Payload(n, c));
    }
  }

  /** A field that starts no later than a value ends no later than it. */
  lemma FieldPace(s: string, c: nat, p: nat, vals: seq<int>, k: nat)
    requires Values(vals) && k < |vals| && Stand(s, p, vals, k) && c <= p
    ensures c + Field(s, c).1 <= p + |Dec(vals[k])| + 1
  {
    FieldOfValue(s, p, vals, k);
    FieldWidth(s, c);
    if c == p - 1 { FieldBefore(s, p); }
  }

  /** Starting on the byte before a value does not gain on it. */
  lemma FieldBefore(s: string, p: nat)
    requires p > 0 && p + 2 < |s| && Digit(s[p]) < 10
    ensures p - 1 + Field(s, p - 1).1 <= p + Field(s, p).1
  {
  }

  /** The first `e` bytes are the same. */
  ghost predicate Agree(s: string, r: string, e: nat) {
    e == 0 || (e <= |s| && e <= |r| && s[e - 1] == r[e - 1] && Agree(s, r, e - 1))
  }

  lemma {:induction false} AgreeAt(s: string, r: string, e: nat, c: nat)
    requires Agree(s, r, e) && c < e
    ensures c < |s| && c < |r| && s[c] == r[c]
  {
    if c < e - 1 { AgreeAt(s, r, e - 1, c); }
  }

  lemma {:induction false} AgreeInside(w: string, x: string, y: string, e: nat)
    requires e <= |w|
    ensures Agree(w + x, w + y, e)
  {
    if e > 0 { AgreeInside(w, x, y, e - 1); }
  }

  lemma SameField(s: string, r: string, e: nat, c: nat)
    requires Agree(s, r, e) && c + 2 < e
    ensures Field(s, c) == Field(r, c)
  {
    AgreeAt(s, r, e, c);
    AgreeAt(s, r, e, c + 1);
    AgreeAt(s, r, e, c + 2);
  }

  /** The text of the values behind the `k`-th takes at least two bytes each. */
  lemma {:induction false} StartBefore(p: nat, vals: seq<int>, k: nat, l: nat)
    requires Values(vals) && k <= l <= |vals|
    ensures TextStart(p, vals, k) + 2 * (l - k) <= TextStart(p, vals, l)
  {
    if k < l {
      StartBefore(p, vals, k, l - 1);
      DecDigits(vals[l - 1]);
    }
  }

  /** Two texts that agree as far as the newline behind some values. */
  ghost predicate Shared(s: string, r: string, at: nat, vals: seq<int>) {
    Values(vals) && Stand(s, at, vals, 0) && Agree(s, r, TextStart(at, vals, |vals|) + 1)
  }

  lemma SameNext(s: string, r: string, c: nat, at: nat, vals: seq<int>, k: nat)
    requires Shared(s, r, at, vals) && k < |vals| && c <= TextStart(at, vals, k)
    ensures Field(s, c) == Field(r, c) && c + Field(s, c).1 <= TextStart(at, vals, k + 1)
  {
    StandAt(s, at, vals, k);
    FieldPace(s, c, TextStart(at, vals, k), vals, k);
    StartBefore(at, vals, k, |vals|);
    SameField(s, r, TextStart(at, vals, |vals|) + 1, c);
  }

  /** From any start no later than the values, as many fields are the same in both texts, and none ends later than the
      value it counts for. */
  lemma {:induction false} Lockstep(s: string, r: string, p: nat, at: nat, vals: seq<int>, k: nat)
    requires Shared(s, r, at, vals) && k <= |vals| && p <= at
    ensures Cursor(s, p, k) == Cursor(r, p, k) <= TextStart(at, vals, k)
  {
    if k > 0 {
      Lockstep(s, r, p, at, vals, k - 1);
      SameNext(s, r, Cursor(s, p, k - 1), at, vals, k - 1);
      NextCursor(s, p, k);
      NextCursor(r, p, k);
    }
  }

  lemma SameFieldAt(s: string, r: string, p: nat, at: nat, vals: seq<int>, k: nat)
    requires Shared(s, r, at, vals) && k < |vals| && p <= at
    ensures FieldAt(s, p, k) == FieldAt(r, p, k)
  {
    Lockstep(s, r, p, at, vals, k);
    SameNext(s, r, Cursor(s, p, k), at, vals, k);
  }

  lemma {:induction false} SameFields(s: string, r: string, p: nat, at: nat, vals: seq<int>, k: nat)
    requires Shared(s, r, at, vals) && k <= |vals| && p <= at
    ensures Fields(s, p, k) == Fields(r, p, k)
  {
    if k > 0 {
      SameFields(s, r, p, at, vals, k - 1);
      SameFieldAt(s, r, p, at, vals, k - 1);
      NextField(s, p, k);
      NextField(r, p, k);
    }
  }

  lemma NextField(s: string, p: nat, k: nat)
    requires k > 0
    ensures Fields(s, p, k) == Fields(s, p, k - 1) + [FieldAt(s, p, k - 1)]
  {
  }

  lemma {:induction false} SameAcross(n: nat, s: string, r: string, p: nat, at: nat, vals: seq<int>, row: nat, k: nat)
    requires Shared(s, r, at, vals) && |vals| == n * n && row < n && k <= n && p <= at
    ensures Across(n, s, p, row, k) == Across(n, r, p, row, k)
  {
    if k > 0 {
      SameAcross(n, s, r, p, at, vals, row, k - 1);
      CellBound(n, n, k - 1, row);
      SameFieldAt(s, r, p, at, vals, Cell(n, k - 1, row));
    }
  }

  lemma SameColumns(n: nat, s: string, r: string, p: nat, at: nat, vals: seq<int>)
    requires Shared(s, r, at, vals) && |vals| == n * n && p <= at
    ensures Columns(n, s, p, n) == Columns(n, r, p, n)
  {
    forall row | 0 <= row < n ensures Across(n, s, p, row, n) == Across(n, r, p, row, n) {
      SameAcross(n, s, r, p, at, vals, row, n);
    }
    SameRows(n, s, r, p, n);
  }

  lemma {:induction false} SameRows(n: nat, s: string, r: string, p: nat, rows: nat)
    requires forall row :: 0 <= row < rows ==> Across(n, s, p, row, n) == Across(n, r, p, row, n)
    ensures Columns(n, s, p, rows) == Columns(n, r, p, rows)
  {
    if rows > 0 { SameRows(n, s, r, p, rows - 1); }
  }

  /** A start before the end of the header leads the newline scan no further than there. */
  lemma ScanInHeader(h: string, rest: string, q: nat)
    requires q < |h| && h[|h| - 1] == NL
    ensures Behind(h + rest, q, 1) <= |h| && Behind(h + rest, q, 1) == q + FrameLengthIn(h[q..])
  {
    EndsInNewline(h[q..]);
    FrameExtends(h[q..], rest, 1);
    assert (h + rest)[q..] == h[q..] + rest;
  }

  function FrameLengthIn(s: string): nat {
    if FrameLength(s, 1).Some? then FrameLength(s, 1).value else 0
  }

  lemma {:induction false} EndsInNewline(s: string)
    requires s != [] && s[|s| - 1] == NL
    ensures FrameLength(s, 1).Some?
  {
    if s[0] != NL { EndsInNewline(s[1..]); } else { assert FrameLength(s[1..], 0) == Some(0); }
  }

  /** From id 1000 on the client's answer does not depend on B: both threads read nothing but header and A. */
  lemma LargeIdsIgnoreB(n: nat, t: Tier, c: Challenge, d: Challenge)
    requires GoodChallenge(n, c) && GoodChallenge(n, d) && n >= 100
    requires c.cid == d.cid >= 1000 && c.a == d.a
    ensures Response(n, t, Payload(n, c)) == Response(n, t, Payload(n, d))
  {
    var s, r := Payload(n, c), Payload(n, d);
    PayloadParts(n, c);
    PayloadParts(n, d);
    SameStarts(n, c, MatrixText(n, c.a) + BehindA(n, c), MatrixText(n, c.a) + BehindA(n, d));
    SharedPart(n, c, d);
    SameParses(n, s, r, |HeaderText(n, c)|, Flatten(c.a));
  }

  lemma SameParses(n: nat, s: string, r: string, at: nat, vals: seq<int>)
    requires n > 0 && Shared(s, r, at, vals) && |vals| == n * n
    requires AfterHeader(s) == AfterHeader(r) <= at && WorkerStart(s) == WorkerStart(r) <= at
    ensures Fields(s, AfterHeader(s), n * n) == Fields(r, AfterHeader(r), n * n)
    ensures Columns(n, s, WorkerStart(s), n) == Columns(n, r, WorkerStart(r), n)
  {
    SameFields(s, r, AfterHeader(s), at, vals, n * n);
    SameColumns(n, s, r, WorkerStart(s), at, vals);
  }

  /** A's text stands behind the header, in its full length. */
  lemma AStands(n: nat, c: Challenge)
    requires GoodChallenge(n, c) && RowsOk(n, c.a)
    ensures MatrixAt(n, Payload(n, c), |HeaderText(n, c)|, c.a) && |Flatten(c.a)| == n * n
    ensures TextStart(|HeaderText(n, c)|, Flatten(c.a), n * n) == |HeaderText(n, c)| + |MatrixText(n, c.a)|
  {
    PayloadParts(n, c);
    FlattenValues(n, c.a);
    var h := |HeaderText(n, c)|;
    AtPart(HeaderText(n, c), MatrixText(n, c.a) + BehindA(n, c));
    MatrixStands(n, Payload(n, c), h, c.a, MatrixText(n, c.b) + [NL]);
    StartEnd(h, Flatten(c.a), n * n);
    assert Flatten(c.a)[n * n..] == [];
  }

  /** Two payloads with the same header and the same A agree up to the end of A's line. */
  lemma SharedPart(n: nat, c: Challenge, d: Challenge)
    requires GoodChallenge(n, c) && GoodChallenge(n, d) && c.cid == d.cid && c.a == d.a
    ensures |Flatten(c.a)| == n * n && Shared(Payload(n, c), Payload(n, d), |HeaderText(n, c)|, Flatten(c.a))
  {
    PayloadParts(n, c);
    PayloadParts(n, d);
    AStands(n, c);
    SharedText(n, c, d);
  }

  lemma SharedText(n: nat, c: Challenge, d: Challenge)
    requires GoodChallenge(n, c) && GoodChallenge(n, d) && c.cid == d.cid && c.a == d.a && RowsOk(n, c.a)
    ensures Agree(Payload(n, c), Payload(n, d), |HeaderText(n, c)| + |MatrixText(n, c.a)| + 1)
  {
    PayloadParts(n, c);
    PayloadParts(n, d);
    var h, text, x, y := HeaderText(n, c), MatrixText(n, c.a), MatrixText(n, c.b) + [NL], MatrixText(n, d.b) + [NL];
    Regroup(h, text, x);
    Regroup(h, text, y);
    AgreeOnPrefix(Payload(n, c), Payload(n, d), h + (text + [NL]), x, y);
  }

  lemma AgreeOnPrefix(s: string, r: string, w: string, x: string, y: string)
    requires s == w + x && r == w + y
    ensures Agree(s, r, |w|)
  {
    AgreeInside(w, x, y, |w|);
  }

  lemma Regroup(h: string, text: string, x: string)
    ensures h + (text + ([NL] + x)) == (h + (text + [NL])) + x
  {
    Reassociate(text, [NL], x);
    Reassociate(h, text + [NL], x);
  }

  lemma {:induction false} StartEnd(p: nat, vals: seq<int>, k: nat)
    requires Values(vals) && k <= |vals|
    ensures TextStart(p, vals, k) + |Spaced(vals[k..])| == p + |Spaced(vals)|
  {
    if k == 0 {
      assert vals[0..] == vals;
    } else {
      StartEnd(p, vals, k - 1);
      assert vals[k - 1..][1..] == vals[k..];
    }
  }

  lemma SameStarts(n: nat, c: Challenge, x: string, y: string)
    requires n >= 100 && c.cid >= 1000
    ensures var h := HeaderText(n, c);
            AfterHeader(h + x) == AfterHeader(h + y) <= |h| && WorkerStart(h + x) == WorkerStart(h + y) <= |h|
  {
    var h := HeaderText(n, c);
    SameHeaderEnd(n, c, x, y);
    HeaderTooLong(n, c, h + x);
    assert h[|h| - 1] == NL;
    ScanInHeader(h, x, AfterHeader(h + x));
    ScanInHeader(h, y, AfterHeader(h + x));
  }

  lemma SameHeaderEnd(n: nat, c: Challenge, x: string, y: string)
    requires n >= 100 && c.cid >= 1000
    ensures AfterHeader(HeaderText(n, c) + x) == AfterHeader(HeaderText(n, c) + y)
  {
    var h := HeaderText(n, c);
    var s, r := h + x, h + y;
    HeaderTooLong(n, c, s);
    AgreeInside(h, x, y, |h|);
    FieldWidth(s, 0);
    SameField(s, r, |h|, 0);
    NextCursor(s, 0, 1);
    NextCursor(r, 0, 1);
    SameField(s, r, |h|, Cursor(s, 0, 1));
    NextCursor(s, 0, 2);
    NextCursor(r, 0, 2);
  }

  /** The matrix with a one in its first cell and zeros elsewhere, or with zeros only. */
  ghost function Corner(n: nat, x: int): Matrix {
    seq(n, i => seq(n, k => if i == 0 && k == 0 then x else 0))
  }

  lemma {:induction false} CornerDot(n: nat, x: int, i: nat, k: nat)
    requires i < n && k <= n
    ensures Square(n, Corner(n, 1)) && Square(n, Corner(n, x))
    ensures Dot(n, Corner(n, 1), Corner(n, x), i, i, k) == if i == 0 && k > 0 then x else 0
  {
    if k > 0 { CornerDot(n, x, i, k - 1); }
  }

  lemma {:induction false} CornerTrace(n: nat, x: int, i: nat)
    requires i <= n
    ensures Square(n, Corner(n, 1)) && Square(n, Corner(n, x))
    ensures Trace(n, Corner(n, 1), Corner(n, x), i) == if i == 0 then 0 else x
  {
    if i > 0 {
      CornerTrace(n, x, i - 1);
      CornerDot(n, x, i - 1, n);
    }
  }

  /** Every id from 1000 on has a challenge that the client answers wrongly. */
  lemma LargeIdsWrong(n: nat, t: Tier, cid: nat) returns (c: Challenge)
    requires n >= 100 && 1000 <= cid < 0x8000_0000
    ensures c.cid == cid && !Right(n, t, c)
  {
    var c0, c1 := Challenge(cid, Corner(n, 1), Corner(n, 0)), Challenge(cid, Corner(n, 1), Corner(n, 1));
    CornerTrace(n, 0, n);
    CornerTrace(n, 1, n);
    LargeIdsIgnoreB(n, t, c0, c1);
    c := if Right(n, t, c0) then c1 else c0;
  }

  /** The client answers every challenge of an id with the trace exactly if the id is below 1000. */
  lemma ExactIds(n: nat, t: Tier, cid: nat)
    requires 100 <= n < 1000 && Supported(t, n) && cid < 0x8000_0000
    ensures (forall c: Challenge :: c.cid == cid ==> Right(n, t, c)) <==> cid < 1000
  {
    if cid < 1000 {
      forall c: Challenge | c.cid == cid ensures Right(n, t, c) { SmallIdsRight(n, t, c); }
    } else {
      var c := LargeIdsWrong(n, t, cid);
    }
  }

  /** The client reads no byte behind the payload, whatever the id. */
  lemma ReadsInside(n: nat, c: Challenge, k: nat)
    requires GoodChallenge(n, c) && 100 <= n < 1000 && k < n * n
    ensures var s := Payload(n, c);
            Cursor(s, AfterHeader(s), k) + 2 < |s| && Cursor(s, WorkerStart(s), k) + 2 < |s|
  {
    var s := Payload(n, c);
    if c.cid < 1000 {
      Positions(n, c);
      FlattenValues(n, c.a);
      FlattenValues(n, c.b);
      InsideValues(s, AfterHeader(s), AfterHeader(s), Flatten(c.a), k);
      InsideValues(s, WorkerStart(s), WorkerStart(s), Flatten(c.b), k);
    } else {
      PayloadParts(n, c);
      SameStarts(n, c, MatrixText(n, c.a) + BehindA(n, c), MatrixText(n, c.a) + BehindA(n, c));
      SharedPart(n, c, c);
      InsideValues(s, AfterHeader(s), |HeaderText(n, c)|, Flatten(c.a), k);
      InsideValues(s, WorkerStart(s), |HeaderText(n, c)|, Flatten(c.a), k);
    }
  }

  lemma InsideValues(s: string, p: nat, at: nat, vals: seq<int>, k: nat)
    requires Values(vals) && Stand(s, at, vals, 0) && k < |vals| && p <= at
    ensures Cursor(s, p, k) + 2 < |s|
  {
    StandAt(s, at, vals, |vals|);
    AgreeSelf(s, TextStart(at, vals, |vals|) + 1);
    Lockstep(s, s, p, at, vals, k);
    StandAt(s, at, vals, k);
    FieldOfValue(s, TextStart(at, vals, k), vals, k);
  }

  lemma {:induction false} AgreeSelf(s: string, e: nat)
    requires e <= |s|
    ensures Agree(s, s, e)
  {
    if e > 0 { AgreeSelf(s, e - 1); }
  }
}
