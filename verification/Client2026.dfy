/** The 2026 client: finds a frame in its receive buffer, parses it with the fixed-width parser, answers it by the
    closed form and keeps whatever bytes follow the frame. */
module Client2026 {
  import opened Checksum
  import opened Numerals
  import opened Wire
  import opened Wrappers

  // ---------- text in a buffer ----------

  /** The bytes of `s` from `p` on begin with `t`. */
  ghost predicate At(s: string, p: nat, t: string) {
    p + |t| <= |s| && s[p..p + |t|] == t
  }

  lemma AtSplit(s: string, p: nat, a: string, b: string)
    requires At(s, p, a + b)
    ensures At(s, p, a) && At(s, p + |a|, b)
  {
    var w := s[p..p + |a + b|];
    assert w[..|a|] == a && w[|a|..] == b;
    assert s[p..p + |a|] == w[..|a|] && s[p + |a|..p + |a| + |b|] == w[|a|..];
  }

  lemma AtIndex(s: string, p: nat, t: string, k: nat)
    requires At(s, p, t) && k < |t|
    ensures s[p + k] == t[k]
  {
    assert s[p..p + |t|][k] == t[k];
  }

  // ---------- one value ----------

  /** A byte less '0' as an unsigned 32-bit number: below '0' the difference wraps around. */
  function Digit(c: char): nat {
    if c >= '0' then c as int - '0' as int else c as int - '0' as int + 0x1_0000_0000
  }

  /** The value and the length of the field that starts with these three bytes. */
  function DecodeVal(c0: char, c1: char, c2: char): (int, nat) {
    var d0, d1, d2 := Digit(c0), Digit(c1), Digit(c2);
    if d1 >= 10 then (d0, 2)
    else if d2 >= 10 then (d0 * 10 + d1, 3)
    else (d0 * 100 + d1 * 10 + d2, 4)
  }

  lemma DigitOfChar(d: nat)
    requires d < 10
    ensures Digit(DigitChar(d)) == d
  {
  }

  /** The shape of the text of a number of at most three digits. */
  lemma DecShape(v: int)
    requires 0 <= v < 1000
    ensures v < 10 ==> Dec(v) == [DigitChar(v)]
    ensures 10 <= v < 100 ==> Dec(v) == [DigitChar(v / 10), DigitChar(v % 10)]
    ensures 100 <= v ==> Dec(v) == [DigitChar(v / 100), DigitChar(v / 10 % 10), DigitChar(v % 10)]
  {
    if v >= 100 {
      assert v / 10 / 10 == v / 100 && Dec(v / 10) == Dec(v / 100) + [DigitChar(v / 10 % 10)];
    }
  }

  /** The parser inverts the serialiser on one field of at most three digits, reading at most one byte past its
      separator. */
  lemma DecodeInverts(v: int, sep: char, t: string)
    requires 0 <= v < 1000 && Digit(sep) >= 10 && |t| >= 1
    ensures var f := Dec(v) + [sep] + t;
            |f| >= 3 && DecodeVal(f[0], f[1], f[2]) == (v, |Dec(v)| + 1)
  {
    DecShape(v);
    DigitOfChar(v % 10);
    if v < 10 {
      DigitOfChar(v);
    } else if v < 100 {
      DigitOfChar(v / 10);
    } else {
      DigitOfChar(v / 100);
      DigitOfChar(v / 10 % 10);
    }
  }

  /** Reading value `k` of a row leaves the cursor on the rest of the row. */
  lemma ReadValue(s: string, p: nat, vals: seq<int>, k: nat, tail: string)
    requires Values(vals) && k < |vals| && |tail| >= 1 && At(s, p, Spaced(vals[k..]) + tail)
    ensures p + 2 < |s|
    ensures var (v, len) := DecodeVal(s[p], s[p + 1], s[p + 2]);
            v == vals[k] && At(s, p + len, Spaced(vals[k + 1..]) + tail)
            && len + |Spaced(vals[k + 1..])| == |Spaced(vals[k..])|
  {
    var v := vals[k];
    var rest := Spaced(vals[k + 1..]) + tail;
    assert vals[k..][1..] == vals[k + 1..];
    assert Spaced(vals[k..]) + tail == Dec(v) + [' '] + rest;
    assert |rest| >= 1;
    DecodeInverts(v, ' ', rest);
    AtIndex(s, p, Dec(v) + [' '] + rest, 0);
    AtIndex(s, p, Dec(v) + [' '] + rest, 1);
    AtIndex(s, p, Dec(v) + [' '] + rest, 2);
    AtSplit(s, p, Dec(v) + [' '], rest);
  }

  lemma Reassociate(x: string, y: string, z: string)
    ensures (x + y) + z == x + (y + z)
  {
  }

  lemma {:induction false} SpacedAppend(a: seq<int>, b: seq<int>)
    requires Values(a) && Values(b)
    ensures Values(a + b) && Spaced(a + b) == Spaced(a) + Spaced(b)
  {
    if a == [] {
      assert a + b == b;
    } else {
      assert (a + b)[1..] == a[1..] + b && (a + b)[0] == a[0];
      SpacedAppend(a[1..], b);
      Reassociate(Dec(a[0]) + [' '], Spaced(a[1..]), Spaced(b));
    }
  }

  /** The text of the rows from `i` on. */
  ghost function RowsText(n: nat, m: Matrix, i: nat): string
    requires i <= |m| && RowsOk(n, m)
  {
    MatrixText(n, m[i..])
  }

  lemma RowsStep(n: nat, m: Matrix, i: nat, tail: string)
    requires i < |m| && RowsOk(n, m)
    ensures Values(m[i]) && RowsText(n, m, i) + tail == Spaced(m[i]) + (RowsText(n, m, i + 1) + tail)
    ensures |RowsText(n, m, i)| == |Spaced(m[i])| + |RowsText(n, m, i + 1)|
  {
    RowsSplit(n, m, i);
    assert (Spaced(m[i]) + RowsText(n, m, i + 1)) + tail == Spaced(m[i]) + (RowsText(n, m, i + 1) + tail);
  }

  lemma RowsSplit(n: nat, m: Matrix, i: nat)
    requires i < |m| && RowsOk(n, m)
    ensures Values(m[i]) && RowsText(n, m, i) == Spaced(m[i]) + RowsText(n, m, i + 1)
  {
    assert m[i..][0] == m[i] && m[i..][1..] == m[i + 1..];
    FlattenValues(n, m[i..]);
    FlattenValues(n, m[i + 1..]);
    SpacedAppend(m[i], Flatten(m[i + 1..]));
  }

  // ---------- decimal numbers ----------

  /** The first byte that is no digit is the one behind the number. */
  lemma DigitsEnd(s: string, p: nat, t: string, k: nat)
    requires At(s, p, Line(t)) && AllDigits(t) && k <= |t|
    ensures IsDigit(s[p + k]) <==> k < |t|
  {
    AtIndex(s, p, Line(t), k);
  }

  /** What the client sends back for a challenge. */
  ghost function Reply(n: nat, c: Challenge): string
    requires GoodChallenge(n, c)
  {
    Dec(c.cid) + [' '] + Dec(Answer(n, c.a, c.b)) + [NL]
  }

  /** What the server reads from a line: the id of the challenge, then the sum of all entries of A * B modulo 997. */
  ghost predicate Answers(n: nat, c: Challenge, line: string) {
    Square(n, c.a) && Square(n, c.b) && ReadTwo(line) == Some((c.cid, Grand(n, c.a, c.b, n) % 997))
  }

  lemma ReplyAnswers(n: nat, c: Challenge)
    requires GoodChallenge(n, c)
    ensures Answers(n, c, Reply(n, c))
  {
    LineReadsBack(c.cid, Answer(n, c.a, c.b));
  }

  class Client {
    const n: nat
    const buf: array<char>
    var have: nat

    constructor (n: nat, capacity: nat)
      ensures this.n == n && buf.Length == capacity && have == 0 && fresh(buf)
    {
      this.n, buf, have := n, new char[capacity](_ => ' '), 0;
    }

    ghost predicate Valid()
      reads this
    {
      have <= buf.Length
    }

    /** The bytes received and not yet consumed. */
    ghost function Bytes(): string
      reads this, buf
      requires Valid()
    {
      buf[..have]
    }

    /** Counts newlines from the front of the buffer until it has four. */
    method Scan() returns (nl: nat, end: nat)
      requires Valid()
      ensures FrameLength(Bytes(), 4) == if nl == 4 then Some(end) else None
      ensures nl <= 4 && (nl == 4 ==> end <= have)
    {
      nl, end := 0, 0;
      ghost var s := buf[..have];
      var i := 0;
      while i < have
        invariant i <= have && nl < 4
        invariant FrameLength(s, 4) == match FrameLength(s[i..], 4 - nl) case None => None case Some(e) => Some(e + i)
      {
        assert s[i..][1..] == s[i + 1..] && s[i..][0] == buf[i];
        if buf[i] == NL {
          nl := nl + 1;
          if nl == 4 {
            end := i + 1;
            return;
          }
        }
        i := i + 1;
      }
    }

    /** Appends received bytes behind those already there. */
    method Receive(chunk: string)
      requires Valid() && have + |chunk| <= buf.Length
      modifies this`have, buf
      ensures Valid() && Bytes() == old(Bytes()) + chunk
    {
      for k := 0 to |chunk|
        invariant have == old(have) && buf[..have] == old(buf[..have]) && buf[have..have + k] == chunk[..k]
      {
        buf[have + k] := chunk[k];
        assert buf[have..have + k + 1] == buf[have..have + k] + [chunk[k]];
        assert chunk[..k + 1] == chunk[..k] + [chunk[k]];
      }
      assert chunk[..|chunk|] == chunk;
      assert buf[..have + |chunk|] == buf[..have] + buf[have..have + |chunk|];
      have := have + |chunk|;
    }

    /** Moves the bytes behind a consumed frame to the front. */
    method Retain(end: nat)
      requires Valid() && end <= have
      modifies this`have, buf
      ensures Valid() && Bytes() == old(Bytes())[end..]
    {
      ghost var s := buf[..];
      for k := 0 to have - end
        invariant have == old(have) && forall j :: 0 <= j < k ==> buf[j] == s[end + j]
        invariant forall j :: k <= j < buf.Length ==> buf[j] == s[j]
      {
        buf[k] := buf[end + k];
      }
      have := have - end;
      assert buf[..have] == s[..have + end][end..];
    }

    /** Parses digits up to the first byte that is none, and steps over that byte. */
    method ParseNumber(p: nat, ghost v: nat) returns (value: nat, p': nat)
      requires At(buf[..], p, Line(Dec(v)))
      ensures value == v && p' == p + |Dec(v)| + 1
    {
      ghost var t := Dec(v);
      DecDigits(v);
      NumValDec(v);
      value, p' := 0, p;
      AtIndex(buf[..], p, Line(t), |t|);
      while '0' <= buf[p'] <= '9'
        invariant p <= p' <= p + |t| && p + |t| < buf.Length && buf[p + |t|] == NL
        invariant AllDigits(t[..p' - p]) && value == NumVal(t[..p' - p])
        decreases p + |t| - p'
      {
        AtIndex(buf[..], p, Line(t), p' - p);
        assert t[..p' - p + 1][..p' - p] == t[..p' - p];
        value := value * 10 + (buf[p'] as int - '0' as int);
        p' := p' + 1;
      }
      DigitsEnd(buf[..], p, t, p' - p);
      assert t[..|t|] == t;
      p' := p' + 1;
    }

    /** Parses one value; `row` is the row it stands in, and `k` its place there. */
    method ParseVal(p: nat, ghost row: seq<int>, ghost k: nat, ghost tail: string) returns (v: int, p': nat)
      requires Values(row) && k < |row| && |tail| >= 1 && At(buf[..], p, Spaced(row[k..]) + tail)
      ensures v == row[k] && At(buf[..], p', Spaced(row[k + 1..]) + tail)
      ensures p' + |Spaced(row[k + 1..])| == p + |Spaced(row[k..])|
    {
      ReadValue(buf[..], p, row, k, tail);
      var (value, len) := DecodeVal(buf[p], buf[p + 1], buf[p + 2]);
      v, p' := value, p + len;
    }

    /** Adds entry (i, k) of A to column sum `k`. */
    method AddToColumn(colA: array<int>, k: nat, v: int, ghost a: Matrix, ghost i: nat)
      requires Square(n, a) && i < n && k < n && v == a[i][k] && colA.Length == n
      requires forall c :: 0 <= c < n ==> colA[c] == ColPrefix(n, a, c, if c < k then i + 1 else i)
      modifies colA
      ensures forall c :: 0 <= c < n ==> colA[c] == ColPrefix(n, a, c, if c < k + 1 then i + 1 else i)
    {
      colA[k] := colA[k] + v;
    }

    /** Parses row `i` of A into the column sums. */
    method SumRow(p: nat, colA: array<int>, ghost a: Matrix, ghost i: nat, ghost tail: string) returns (p': nat)
      requires Reduced(n, a) && i < n && Values(a[i]) && |tail| >= 1 && colA.Length == n
      requires At(buf[..], p, Spaced(a[i]) + tail)
      requires forall c :: 0 <= c < n ==> colA[c] == ColPrefix(n, a, c, i)
      modifies colA
      ensures forall c :: 0 <= c < n ==> colA[c] == ColPrefix(n, a, c, i + 1)
      ensures At(buf[..], p', tail) && p' == p + |Spaced(a[i])|
    {
      p' := p;
      assert a[i][0..] == a[i];
      for k := 0 to n
        invariant At(buf[..], p', Spaced(a[i][k..]) + tail) && p' + |Spaced(a[i][k..])| == p + |Spaced(a[i])|
        invariant forall c :: 0 <= c < n ==> colA[c] == ColPrefix(n, a, c, if c < k then i + 1 else i)
      {
        var v;
        v, p' := ParseVal(p', a[i], k, tail);
        AddToColumn(colA, k, v, a, i);
      }
      assert Spaced(a[i][n..]) + tail == tail;
    }

    /** Parses A, adding up its columns on the way. */
    method SumColumns(p: nat, ghost a: Matrix, ghost tail: string) returns (colA: array<int>, p': nat)
      requires Reduced(n, a) && RowsOk(n, a) && |tail| >= 1
      requires At(buf[..], p, MatrixText(n, a) + tail)
      ensures fresh(colA) && colA.Length == n && forall k :: 0 <= k < n ==> colA[k] == ColPrefix(n, a, k, n)
      ensures At(buf[..], p', tail) && p' == p + |MatrixText(n, a)|
    {
      colA := new int[n](_ => 0);
      p' := p;
      assert a[0..] == a;
      for i := 0 to n
        invariant At(buf[..], p', RowsText(n, a, i) + tail) && p' + |RowsText(n, a, i)| == p + |MatrixText(n, a)|
        invariant forall c :: 0 <= c < n ==> colA[c] == ColPrefix(n, a, c, i)
      {
        RowsStep(n, a, i, tail);
        p' := SumRow(p', colA, a, i, RowsText(n, a, i + 1) + tail);
      }
      assert RowsText(n, a, n) + tail == tail;
    }

    /** Parses row `k` of B and adds it up. */
    method RowSum(p: nat, ghost b: Matrix, ghost k: nat, ghost tail: string) returns (sum: int, p': nat)
      requires Reduced(n, b) && k < n && Values(b[k]) && |tail| >= 1
      requires At(buf[..], p, Spaced(b[k]) + tail)
      ensures sum == RowPrefix(n, b, k, n) && At(buf[..], p', tail) && p' == p + |Spaced(b[k])|
    {
      sum, p' := 0, p;
      assert b[k][0..] == b[k];
      for j := 0 to n
        invariant At(buf[..], p', Spaced(b[k][j..]) + tail) && p' + |Spaced(b[k][j..])| == p + |Spaced(b[k])|
        invariant sum == RowPrefix(n, b, k, j)
      {
        var v;
        v, p' := ParseVal(p', b[k], j, tail);
        sum := sum + v;
      }
      assert Spaced(b[k][n..]) + tail == tail;
    }

    /** Parses B, folding its row sums into the column sums of A. */
    method FoldRows(p: nat, colA: array<int>, ghost a: Matrix, ghost b: Matrix, ghost tail: string)
      returns (checksum: int, p': nat)
      requires Reduced(n, a) && Reduced(n, b) && RowsOk(n, b) && |tail| >= 1
      requires colA.Length == n && forall k :: 0 <= k < n ==> colA[k] == ColPrefix(n, a, k, n)
      requires At(buf[..], p, MatrixText(n, b) + tail)
      ensures checksum == Folded(n, a, b, n, n, n) && At(buf[..], p', tail) && p' == p + |MatrixText(n, b)|
    {
      checksum, p' := 0, p;
      assert b[0..] == b;
      for k := 0 to n
        invariant At(buf[..], p', RowsText(n, b, k) + tail) && p' + |RowsText(n, b, k)| == p + |MatrixText(n, b)|
        invariant checksum == Folded(n, a, b, n, n, k)
      {
        RowsStep(n, b, k, tail);
        var s;
        s, p' := RowSum(p', b, k, RowsText(n, b, k + 1) + tail);
        checksum := checksum + colA[k] * s;
      }
      assert RowsText(n, b, n) + tail == tail;
    }

    /** Parses the id and steps over the size. */
    method ParseHeader(ghost cid: nat, ghost tail: string) returns (value: nat, p: nat)
      requires At(buf[..], 0, Line(Dec(cid)) + (Line(Dec(n)) + tail))
      ensures value == cid && p == |Line(Dec(cid))| + |Line(Dec(n))| && At(buf[..], p, tail)
    {
      AtSplit(buf[..], 0, Line(Dec(cid)), Line(Dec(n)) + tail);
      value, p := ParseNumber(0, cid);
      AtSplit(buf[..], p, Line(Dec(n)), tail);
      var size;
      size, p := ParseNumber(p, n);
    }

    /** Parses both matrices and computes the answer. */
    method ParseMatrices(start: nat, ghost a: Matrix, ghost b: Matrix) returns (ans: int, p: nat)
      requires Reduced(n, a) && Reduced(n, b) && RowsOk(n, a) && RowsOk(n, b)
      requires At(buf[..], start, MatrixText(n, a) + ([NL] + (MatrixText(n, b) + [NL])))
      ensures ans == Answer(n, a, b) && 0 <= ans && p == start + |MatrixText(n, a)| + 1 + |MatrixText(n, b)|
    {
      ghost var tb := MatrixText(n, b) + [NL];
      var colA;
      colA, p := SumColumns(start, a, [NL] + tb);
      AtSplit(buf[..], p, [NL], tb);
      p := p + 1;
      var checksum;
      checksum, p := FoldRows(p, colA, a, b, [NL]);
      ClosedForm(n, a, b);
      ans := checksum % MODULO;
    }

    /** Answers the challenge at the front of the buffer. The cursor ends on the last newline of the frame. */
    method Solve(ghost c: Challenge) returns (line: string, ghost cursor: nat)
      requires GoodChallenge(n, c) && At(buf[..], 0, Payload(n, c))
      ensures line == Reply(n, c) && Answers(n, c, line) && cursor + 1 == |Payload(n, c)|
    {
      ReducedRows(n, c.a);
      ReducedRows(n, c.b);
      PayloadLayout(n, c);
      var cid, p := ParseHeader(c.cid, MatrixText(n, c.a) + ([NL] + (MatrixText(n, c.b) + [NL])));
      var ans, q := ParseMatrices(p, c.a, c.b);
      line := Dec(cid) + [' '] + Dec(ans) + [NL];
      cursor := q;
      ReplyAnswers(n, c);
    }
  }

  lemma PayloadLayout(n: nat, c: Challenge)
    requires GoodChallenge(n, c) && RowsOk(n, c.a) && RowsOk(n, c.b)
    ensures var tb := MatrixText(n, c.b) + [NL];
            Payload(n, c) == Line(Dec(c.cid)) + (Line(Dec(n)) + (MatrixText(n, c.a) + ([NL] + tb)))
            && |Payload(n, c)| ==
               |Line(Dec(c.cid))| + |Line(Dec(n))| + |MatrixText(n, c.a)| + 1 + |MatrixText(n, c.b)| + 1
  {
    assert Line(MatrixText(n, c.a)) + Line(MatrixText(n, c.b)) ==
           MatrixText(n, c.a) + ([NL] + (MatrixText(n, c.b) + [NL]));
  }
}
