/** The challenge protocol on the wire: four newline-terminated lines with the challenge id, the size and the two
    matrices, every value followed by one space. */
module Wire {
  import opened Checksum
  import opened Wrappers

  datatype Challenge = Challenge(cid: nat, a: Matrix, b: Matrix)

  const NL := '\n'

  function DigitChar(d: nat): char
    requires d < 10
  {
    ('0' as int + d) as char
  }

  /** Decimal text, as `<<` on a stream writes it. */
  function Dec(v: nat): string {
    if v < 10 then [DigitChar(v)] else Dec(v / 10) + [DigitChar(v % 10)]
  }

  /** Values, each followed by one space. */
  function Spaced(vals: seq<int>): string
    requires Values(vals)
  {
    if vals == [] then [] else Dec(vals[0]) + [' '] + Spaced(vals[1..])
  }

  /** Row-major values of a matrix. */
  function Flatten(m: Matrix): seq<int> {
    if m == [] then [] else m[0] + Flatten(m[1..])
  }

  ghost predicate GoodChallenge(n: nat, c: Challenge) {
    Reduced(n, c.a) && Reduced(n, c.b) && c.cid < 0x8000_0000
  }

  predicate Values(vals: seq<int>) {
    forall k :: 0 <= k < |vals| ==> 0 <= vals[k] < MODULO
  }

  lemma ValuesAppend(a: seq<int>, b: seq<int>)
    requires Values(a) && Values(b)
    ensures Values(a + b)
  {
  }

  lemma Rows(k: nat, n: nat)
    requires k > 0
    ensures k * n == n + (k - 1) * n
  {
  }

  /** Rows of `n` values each. */
  ghost predicate RowsOk(n: nat, m: Matrix) {
    forall i :: 0 <= i < |m| ==> |m[i]| == n && Values(m[i])
  }

  lemma {:induction false} FlattenValues(n: nat, m: Matrix)
    requires RowsOk(n, m)
    ensures Values(Flatten(m)) && |Flatten(m)| == |m| * n
  {
    if m != [] {
      FlattenValues(n, m[1..]);
      ValuesAppend(m[0], Flatten(m[1..]));
      Rows(|m|, n);
    }
  }

  lemma ReducedRows(n: nat, m: Matrix)
    requires Reduced(n, m)
    ensures RowsOk(n, m)
  {
  }

  /** The text of a whole matrix. */
  ghost function MatrixText(n: nat, m: Matrix): string
    requires RowsOk(n, m)
  {
    FlattenValues(n, m);
    Spaced(Flatten(m))
  }

  function Line(s: string): string {
    s + [NL]
  }

  /** The payload of a challenge as the server serialises it. */
  ghost function Payload(n: nat, c: Challenge): string
    requires GoodChallenge(n, c)
  {
    ReducedRows(n, c.a);
    ReducedRows(n, c.b);
    Line(Dec(c.cid)) + (Line(Dec(n)) + (Line(MatrixText(n, c.a)) + Line(MatrixText(n, c.b))))
  }

  // ---------- text facts ----------

  predicate IsDigit(c: char) {
    '0' <= c <= '9'
  }

  predicate AllDigits(s: string) {
    forall k :: 0 <= k < |s| ==> IsDigit(s[k])
  }

  lemma {:induction false} DecDigits(v: nat)
    ensures AllDigits(Dec(v)) && |Dec(v)| >= 1
  {
    if v >= 10 { DecDigits(v / 10); }
  }

  function Pow10(k: nat): nat {
    if k == 0 then 1 else 10 * Pow10(k - 1)
  }

  lemma {:induction false} DecLength(v: nat, k: nat)
    requires k > 0 && v < Pow10(k)
    ensures |Dec(v)| <= k
  {
    if v >= 10 { DecLength(v / 10, k - 1); }
  }

  predicate NoNewline(s: string) {
    forall k :: 0 <= k < |s| ==> s[k] != NL
  }

  lemma {:induction false} SpacedLine(vals: seq<int>)
    requires Values(vals)
    ensures NoNewline(Spaced(vals)) && |Spaced(vals)| <= 4 * |vals|
  {
    if vals != [] {
      SpacedLine(vals[1..]);
      DecDigits(vals[0]);
      assert Pow10(3) == 1000;
      DecLength(vals[0], 3);
    }
  }

  // ---------- framing ----------

  /** The length of the shortest prefix with `k` newlines. */
  function FrameLength(s: string, k: nat): Option<nat> {
    if k == 0 then Some(0)
    else if s == [] then None
    else
      match FrameLength(s[1..], if s[0] == NL then k - 1 else k)
      case None => None
      case Some(e) => Some(e + 1)
  }

  lemma {:induction false} LineFrame(line: string, rest: string, k: nat)
    requires NoNewline(line) && k > 0
    ensures FrameLength(Line(line) + rest, k) ==
            match FrameLength(rest, k - 1) case None => None case Some(e) => Some(|line| + 1 + e)
  {
    if line == [] {
      assert Line(line) + rest == [NL] + rest;
    } else {
      assert (Line(line) + rest)[1..] == Line(line[1..]) + rest;
      LineFrame(line[1..], rest, k);
    }
  }

  /** A frame once found stays the same when more bytes arrive. */
  lemma {:induction false} FrameExtends(s: string, more: string, k: nat)
    requires FrameLength(s, k).Some?
    ensures FrameLength(s, k).value <= |s| && FrameLength(s + more, k) == FrameLength(s, k)
  {
    if k > 0 {
      assert (s + more)[1..] == s[1..] + more;
      FrameExtends(s[1..], more, if s[0] == NL then k - 1 else k);
    }
  }

  lemma FourLines(l1: string, l2: string, l3: string, l4: string, more: string)
    requires NoNewline(l1) && NoNewline(l2) && NoNewline(l3) && NoNewline(l4)
    ensures var p := Line(l1) + (Line(l2) + (Line(l3) + Line(l4))); FrameLength(p + more, 4) == Some(|p|)
  {
    LineFrame(l4, more, 1);
    LineFrame(l3, Line(l4) + more, 2);
    LineFrame(l2, Line(l3) + (Line(l4) + more), 3);
    LineFrame(l1, Line(l2) + (Line(l3) + (Line(l4) + more)), 4);
    var p := Line(l1) + (Line(l2) + (Line(l3) + Line(l4)));
    assert p + more == Line(l1) + (Line(l2) + (Line(l3) + (Line(l4) + more)));
  }

  /** A payload is exactly one frame of four lines, whatever follows it. */
  lemma PayloadFrame(n: nat, c: Challenge, more: string)
    requires GoodChallenge(n, c)
    ensures FrameLength(Payload(n, c) + more, 4) == Some(|Payload(n, c)|)
  {
    ReducedRows(n, c.a);
    ReducedRows(n, c.b);
    DecDigits(c.cid);
    DecDigits(n);
    MatrixLine(n, c.a);
    MatrixLine(n, c.b);
    FourLines(Dec(c.cid), Dec(n), MatrixText(n, c.a), MatrixText(n, c.b), more);
  }

  lemma MatrixLine(n: nat, m: Matrix)
    requires RowsOk(n, m)
    ensures NoNewline(MatrixText(n, m)) && |MatrixText(n, m)| <= 4 * (|m| * n)
  {
    FlattenValues(n, m);
    SpacedLine(Flatten(m));
  }

  /** An incomplete payload is not a frame. */
  lemma PartialPayload(n: nat, c: Challenge, part: string)
    requires GoodChallenge(n, c) && |part| < |Payload(n, c)| && part == Payload(n, c)[..|part|]
    ensures FrameLength(part, 4) == None
  {
    if FrameLength(part, 4).Some? {
      FrameExtends(part, Payload(n, c)[|part|..], 4);
      assert part + Payload(n, c)[|part|..] == Payload(n, c) + [];
      PayloadFrame(n, c, []);
      assert false;
    }
  }

  /** The largest a payload gets. */
  function MaxPayload(n: nat): nat {
    14 + |Dec(n)| + 8 * (n * n)
  }

  lemma PayloadBound(n: nat, c: Challenge)
    requires GoodChallenge(n, c)
    ensures 0 < |Payload(n, c)| <= MaxPayload(n)
  {
    ReducedRows(n, c.a);
    ReducedRows(n, c.b);
    MatrixLine(n, c.a);
    MatrixLine(n, c.b);
    assert Pow10(10) == 10000000000;
    DecLength(c.cid, 10);
  }

  /** At the size in use a payload fits the receive buffer many times over. */
  lemma BufferSuffices()
    ensures MaxPayload(128) < 0x40_0000
  {
    assert Pow10(3) == 1000;
    DecLength(128, 3);
  }
}
