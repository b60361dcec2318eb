/** Reading a whole frame back: the client's field-by-field parse as a function of the frame's bytes alone, and the
    proof that it inverts the server's serialiser. */
module FrameDecoding {
  import opened Checksum
  import opened Wire
  import opened Client2026
  import opened Numerals

  /** Digits from `p` on, accumulated onto `acc`, and the position of the first byte that is no digit. */
  function ReadDigits(s: string, p: nat, acc: nat): (nat, nat)
    decreases |s| - p
  {
    if p < |s| && IsDigit(s[p]) then ReadDigits(s, p + 1, acc * 10 + (s[p] as int - '0' as int)) else (acc, p)
  }

  /** `count` fields from `p` on; a field cut off by the end of the bytes ends the reading. */
  function ReadRow(s: string, p: nat, count: nat): (seq<int>, nat)
    decreases count
  {
    if count == 0 || p + 2 >= |s| then ([], p)
    else
      var (v, len) := DecodeVal(s[p], s[p + 1], s[p + 2]);
      var (vals, q) := ReadRow(s, p + len, count - 1);
      ([v] + vals, q)
  }

  function ReadRows(n: nat, s: string, p: nat, count: nat): (Matrix, nat)
    decreases count
  {
    if count == 0 then ([], p)
    else
      var (row, q) := ReadRow(s, p, n);
      var (rows, r) := ReadRows(n, s, q, count - 1);
      ([row] + rows, r)
  }

  /** The id, and the position behind the size. */
  function DecodeHeader(s: string): (nat, nat) {
    var (cid, p) := ReadDigits(s, 0, 0);
    var (_, q) := ReadDigits(s, p + 1, 0);
    (cid, q + 1)
  }

  function DecodeBody(n: nat, s: string, p: nat): (Matrix, Matrix, nat) {
    var (a, q) := ReadRows(n, s, p, n);
    var (b, r) := ReadRows(n, s, q + 1, n);
    (a, b, r)
  }

  /** The challenge in a frame, and where the cursor ends. */
  function Decode(n: nat, s: string): (Challenge, nat) {
    var (cid, p) := DecodeHeader(s);
    var (a, b, q) := DecodeBody(n, s, p);
    (Challenge(cid, a, b), q)
  }

  lemma {:induction false} ReadDigitsInverts(s: string, p: nat, t: string, k: nat)
    requires At(s, p, Line(t)) && k <= |t| && AllDigits(t)
    ensures ReadDigits(s, p + k, NumVal(t[..k])) == (NumVal(t), p + |t|)
    decreases |t| - k
  {
    DigitsEnd(s, p, t, k);
    if k < |t| {
      AtIndex(s, p, Line(t), k);
      assert t[..k + 1][..k] == t[..k];
      ReadDigitsInverts(s, p, t, k + 1);
    } else {
      assert t[..k] == t;
    }
  }

  lemma ReadNumber(s: string, p: nat, v: nat)
    requires At(s, p, Line(Dec(v)))
    ensures ReadDigits(s, p, 0) == (v, p + |Dec(v)|)
  {
    NumValDec(v);
    assert Dec(v)[..0] == [];
    ReadDigitsInverts(s, p, Dec(v), 0);
  }

  lemma {:induction false} ReadRowInverts(s: string, p: nat, vals: seq<int>, tail: string)
    requires Values(vals) && |tail| >= 1 && At(s, p, Spaced(vals) + tail)
    ensures ReadRow(s, p, |vals|) == (vals, p + |Spaced(vals)|)
    decreases |vals|
  {
    if vals != [] {
      var q := FirstValue(s, p, vals, tail);
      ReadRowInverts(s, q, vals[1..], tail);
      assert vals == [vals[0]] + vals[1..];
    }
  }

  /** The first field, and what reading on from behind it does. */
  lemma FirstValue(s: string, p: nat, vals: seq<int>, tail: string) returns (q: nat)
    requires Values(vals) && vals != [] && |tail| >= 1 && At(s, p, Spaced(vals) + tail)
    ensures At(s, q, Spaced(vals[1..]) + tail) && q + |Spaced(vals[1..])| == p + |Spaced(vals)|
    ensures ReadRow(s, p, |vals|) ==
            ([vals[0]] + ReadRow(s, q, |vals| - 1).0, ReadRow(s, q, |vals| - 1).1)
  {
    assert vals[0..] == vals;
    ReadValue(s, p, vals, 0, tail);
    q := p + DecodeVal(s[p], s[p + 1], s[p + 2]).1;
  }

  lemma ReadRowsStep(n: nat, s: string, p: nat, count: nat, row: seq<int>, q: nat, rows: Matrix, e: nat)
    requires count > 0 && ReadRow(s, p, n) == (row, q) && ReadRows(n, s, q, count - 1) == (rows, e)
    ensures ReadRows(n, s, p, count) == ([row] + rows, e)
  {
  }

  lemma ReadOneRow(s: string, p: nat, row: seq<int>, tail: string)
    requires Values(row) && |tail| >= 1 && At(s, p, Spaced(row) + tail)
    ensures ReadRow(s, p, |row|) == (row, p + |Spaced(row)|) && At(s, p + |Spaced(row)|, tail)
  {
    ReadRowInverts(s, p, row, tail);
    AtSplit(s, p, Spaced(row), tail);
  }

  lemma FirstRow(n: nat, m: Matrix, tail: string)
    requires m != [] && RowsOk(n, m)
    ensures Values(m[0]) && MatrixText(n, m) + tail == Spaced(m[0]) + (MatrixText(n, m[1..]) + tail)
    ensures |MatrixText(n, m)| == |Spaced(m[0])| + |MatrixText(n, m[1..])|
  {
    assert m[0..] == m;
    RowsStep(n, m, 0, tail);
  }

  /** Reading the first row leaves the cursor on the text of the others. */
  lemma RowRead(n: nat, s: string, p: nat, m: Matrix, tail: string) returns (q: nat)
    requires m != [] && RowsOk(n, m) && |tail| >= 1 && At(s, p, MatrixText(n, m) + tail)
    ensures RowsOk(n, m[1..]) && ReadRow(s, p, n) == (m[0], q) && At(s, q, MatrixText(n, m[1..]) + tail)
    ensures q + |MatrixText(n, m[1..])| == p + |MatrixText(n, m)|
  {
    FirstRow(n, m, tail);
    q := TextRead(s, p, m[0], MatrixText(n, m[1..]) + tail, MatrixText(n, m) + tail);
  }

  lemma TextRead(s: string, p: nat, row: seq<int>, text: string, all: string) returns (q: nat)
    requires Values(row) && |text| >= 1 && all == Spaced(row) + text && At(s, p, all)
    ensures ReadRow(s, p, |row|) == (row, q) && At(s, q, text) && q == p + |Spaced(row)|
  {
    ReadOneRow(s, p, row, text);
    q := p + |Spaced(row)|;
  }

  /** `count` rows remain, with this text. */
  lemma {:induction false} ReadRowsInverts(n: nat, s: string, p: nat, m: Matrix, tail: string)
    requires RowsOk(n, m) && |tail| >= 1 && At(s, p, MatrixText(n, m) + tail)
    ensures ReadRows(n, s, p, |m|) == (m, p + |MatrixText(n, m)|)
    decreases |m|
  {
    if m != [] {
      var q := RowRead(n, s, p, m, tail);
      ReadRowsInverts(n, s, q, m[1..], tail);
      ReadRowsStep(n, s, p, |m|, m[0], q, m[1..], p + |MatrixText(n, m)|);
      assert m == [m[0]] + m[1..];
    }
  }

  lemma ReadMatrix(n: nat, s: string, p: nat, m: Matrix, tail: string)
    requires RowsOk(n, m) && |m| == n && |tail| >= 1 && At(s, p, MatrixText(n, m) + tail)
    ensures ReadRows(n, s, p, n) == (m, p + |MatrixText(n, m)|)
  {
    ReadRowsInverts(n, s, p, m, tail);
  }

  /** Where the parts of a frame stand. */
  lemma FrameParts(s: string, l1: string, l2: string, rest: string)
    requires s == l1 + (l2 + rest)
    ensures At(s, 0, l1) && At(s, |l1|, l2) && At(s, |l1| + |l2|, rest)
  {
    assert At(s, 0, l1 + (l2 + rest));
    AtSplit(s, 0, l1, l2 + rest);
    AtSplit(s, |l1|, l2, rest);
  }

  lemma ReadLine(s: string, p: nat, v: nat, len: nat)
    requires At(s, p, Line(Dec(v))) && len == |Line(Dec(v))|
    ensures ReadDigits(s, p, 0) == (v, p + len - 1)
  {
    ReadNumber(s, p, v);
  }

  lemma HeaderFields(s: string, cid: nat, d: nat, size: nat, q: nat)
    requires d > 0 && ReadDigits(s, 0, 0) == (cid, d - 1) && ReadDigits(s, d, 0) == (size, q)
    ensures DecodeHeader(s) == (cid, q + 1)
  {
  }

  lemma BodyInverts(n: nat, s: string, p: nat, body: string, a: Matrix, b: Matrix)
    requires RowsOk(n, a) && RowsOk(n, b) && |a| == n && |b| == n
    requires body == MatrixText(n, a) + ([NL] + (MatrixText(n, b) + [NL])) && At(s, p, body)
    ensures DecodeBody(n, s, p) == (a, b, p + |body| - 1)
  {
    var ta, tb := MatrixText(n, a), MatrixText(n, b) + [NL];
    AtSplit(s, p, ta, [NL] + tb);
    AtSplit(s, p + |ta|, [NL], tb);
    TwoMatrices(n, s, p, p + |ta|, a, b, [NL] + tb);
  }

  lemma TwoMatrices(n: nat, s: string, p: nat, q: nat, a: Matrix, b: Matrix, tail: string)
    requires RowsOk(n, a) && RowsOk(n, b) && |a| == n && |b| == n && |tail| >= 1
    requires At(s, p, MatrixText(n, a) + tail) && q == p + |MatrixText(n, a)| && At(s, q + 1, MatrixText(n, b) + [NL])
    ensures DecodeBody(n, s, p) == (a, b, q + 1 + |MatrixText(n, b)|)
  {
    ReadMatrix(n, s, p, a, tail);
    ReadMatrix(n, s, q + 1, b, [NL]);
  }

  lemma HeaderAt(s: string, cid: nat, size: nat, d: nat, e: nat)
    requires At(s, 0, Line(Dec(cid))) && d == |Line(Dec(cid))|
    requires At(s, d, Line(Dec(size))) && e == |Line(Dec(size))|
    ensures DecodeHeader(s) == (cid, d + e)
  {
    ReadLine(s, 0, cid, d);
    ReadLine(s, d, size, e);
    HeaderFields(s, cid, d, size, d + e - 1);
  }

  lemma HeaderInverts(s: string, cid: nat, size: nat)
    requires At(s, 0, Line(Dec(cid))) && At(s, |Line(Dec(cid))|, Line(Dec(size)))
    ensures DecodeHeader(s) == (cid, |Line(Dec(cid))| + |Line(Dec(size))|)
  {
    HeaderAt(s, cid, size, |Line(Dec(cid))|, |Line(Dec(size))|);
  }

  lemma FrameInverts(n: nat, s: string, p: nat, body: string, cid: nat, a: Matrix, b: Matrix)
    requires RowsOk(n, a) && RowsOk(n, b) && |a| == n && |b| == n
    requires body == MatrixText(n, a) + ([NL] + (MatrixText(n, b) + [NL]))
    requires DecodeHeader(s) == (cid, p) && At(s, p, body)
    ensures Decode(n, s) == (Challenge(cid, a, b), p + |body| - 1)
  {
    BodyInverts(n, s, p, body, a, b);
  }

  lemma PayloadAt(n: nat, c: Challenge, body: string)
    requires GoodChallenge(n, c) && RowsOk(n, c.a) && RowsOk(n, c.b)
    requires body == MatrixText(n, c.a) + ([NL] + (MatrixText(n, c.b) + [NL]))
    ensures var s, l1, l2 := Payload(n, c), Line(Dec(c.cid)), Line(Dec(n));
            At(s, 0, l1) && At(s, |l1|, l2) && At(s, |l1| + |l2|, body) && |s| == |l1| + |l2| + |body|
  {
    PayloadLayout(n, c);
    FrameParts(Payload(n, c), Line(Dec(c.cid)), Line(Dec(n)), body);
  }

  /** Round trip: every value of every challenge is recovered from its payload alone, and the cursor ends on the
      payload's last newline. */
  lemma DecodePayload(n: nat, c: Challenge)
    requires GoodChallenge(n, c)
    ensures Decode(n, Payload(n, c)) == (c, |Payload(n, c)| - 1)
  {
    ReducedRows(n, c.a);
    ReducedRows(n, c.b);
    var body := MatrixText(n, c.a) + ([NL] + (MatrixText(n, c.b) + [NL]));
    PayloadAt(n, c, body);
    HeaderInverts(Payload(n, c), c.cid, n);
    FrameInverts(n, Payload(n, c), |Line(Dec(c.cid))| + |Line(Dec(n))|, body, c.cid, c.a, c.b);
  }
}
