/** Text as a reader of formatted numbers sees it: blanks skipped, then digits, as `sscanf` and `>>` take unsigned
    numbers. What is sent is described by what such a reader gets from it. */
module Numerals {
  import opened Checksum
  import opened RowMajor
  import opened Wire
  import opened Wrappers

  function NumVal(s: string): nat
    requires AllDigits(s)
  {
    if s == [] then 0 else 10 * NumVal(s[..|s| - 1]) + (s[|s| - 1] as int - '0' as int)
  }

  lemma {:induction false} NumValDec(v: nat)
    ensures AllDigits(Dec(v)) && NumVal(Dec(v)) == v
  {
    DecDigits(v);
    if v >= 10 {
      NumValDec(v / 10);
      var d := Dec(v / 10);
      assert Dec(v)[..|Dec(v)| - 1] == d;
    } else {
      assert Dec(v)[..0] == [];
    }
  }

  predicate IsBlank(c: char) {
    c == ' ' || c == '\n' || c == '\r' || c == '\t'
  }

  function SkipBlanks(s: string): (t: string)
    ensures |t| <= |s|
  {
    if s != [] && IsBlank(s[0]) then SkipBlanks(s[1..]) else s
  }

  /** The digits a text begins with. */
  function Digits(s: string): (t: string)
    ensures |t| <= |s| && AllDigits(t)
  {
    if s == [] || !IsDigit(s[0]) then [] else [s[0]] + Digits(s[1..])
  }

  /** The first number of a text, and the text behind it. */
  function ReadInt(s: string): (r: Option<(nat, string)>)
    ensures r.Some? ==> |r.value.1| < |s|
  {
    var t := SkipBlanks(s);
    var d := Digits(t);
    if d == [] then None else Some((NumVal(d), t[|d|..]))
  }

  /** Two numbers, as the server reads an answer. */
  function ReadTwo(s: string): Option<(nat, nat)> {
    match ReadInt(s)
    case None => None
    case Some((first, rest)) =>
      match ReadInt(rest)
      case None => None
      case Some((second, _)) => Some((first, second))
  }

  /** All numbers up to the first thing that is none. */
  function Numbers(s: string): seq<int>
    decreases |s|
  {
    match ReadInt(s)
    case None => []
    case Some((v, rest)) => [v] + Numbers(rest)
  }

  lemma {:induction false} DigitsOf(d: string, rest: string)
    requires AllDigits(d) && (rest == [] || !IsDigit(rest[0]))
    ensures Digits(d + rest) == d
  {
    if d == [] {
      assert d + rest == rest;
    } else {
      assert (d + rest)[1..] == d[1..] + rest;
      DigitsOf(d[1..], rest);
    }
  }

  /** A number that is written is the number that is read. */
  lemma ReadsBack(v: nat, rest: string)
    requires rest == [] || !IsDigit(rest[0])
    ensures ReadInt(Dec(v) + rest) == Some((v, rest))
  {
    var d := Dec(v);
    DecDigits(v);
    NumValDec(v);
    DigitsOf(d, rest);
    assert (d + rest)[0] == d[0] && (d + rest)[|d|..] == rest;
  }

  lemma BlankSkipped(c: char, rest: string)
    requires IsBlank(c)
    ensures ReadInt([c] + rest) == ReadInt(rest) && Numbers([c] + rest) == Numbers(rest)
  {
    assert ([c] + rest)[1..] == rest;
  }

  /** The server reads the two numbers of a line in the order in which they are written. */
  lemma LineReadsBack(first: nat, second: nat)
    ensures ReadTwo(Dec(first) + [' '] + Dec(second) + [NL]) == Some((first, second))
  {
    var rest := [' '] + (Dec(second) + [NL]);
    assert Dec(first) + [' '] + Dec(second) + [NL] == Dec(first) + rest;
    ReadsBack(first, rest);
    BlankSkipped(' ', Dec(second) + [NL]);
    ReadsBack(second, [NL]);
  }

  // ---------- the payload ----------

  lemma NumbersCons(v: nat, c: char, rest: string)
    requires IsBlank(c)
    ensures Numbers(Dec(v) + ([c] + rest)) == [v] + Numbers(rest)
  {
    ReadsBack(v, [c] + rest);
    BlankSkipped(c, rest);
  }

  lemma SpacedCons(vals: seq<int>, rest: string)
    requires Values(vals) && vals != []
    ensures Spaced(vals) + rest == Dec(vals[0]) + ([' '] + (Spaced(vals[1..]) + rest))
  {
    var d, t := Dec(vals[0]), Spaced(vals[1..]);
    Regroup(d, [' '], t, rest);
  }

  lemma Regroup(a: string, b: string, c: string, d: string)
    ensures ((a + b) + c) + d == a + (b + (c + d))
  {
  }

  lemma {:induction false} NumbersSpaced(vals: seq<int>, rest: string)
    requires Values(vals)
    ensures Numbers(Spaced(vals) + rest) == vals + Numbers(rest)
  {
    if vals == [] {
      assert Spaced(vals) + rest == rest;
    } else {
      var tail := Spaced(vals[1..]) + rest;
      SpacedCons(vals, rest);
      NumbersCons(vals[0], ' ', tail);
      NumbersSpaced(vals[1..], rest);
      Front(vals, Numbers(rest));
    }
  }

  lemma Front(vals: seq<int>, more: seq<int>)
    requires vals != []
    ensures [vals[0]] + (vals[1..] + more) == vals + more
  {
  }

  lemma NumbersLine(vals: seq<int>)
    requires Values(vals)
    ensures Numbers(Line(Spaced(vals))) == vals
  {
    NumbersSpaced(vals, [NL]);
    BlankSkipped(NL, []);
    assert Line(Spaced(vals)) == Spaced(vals) + [NL];
  }

  lemma {:induction false} FlattenAt(n: nat, m: Matrix, i: nat, j: nat)
    requires RowsOk(n, m) && i < |m| && j < n
    ensures |Flatten(m)| == |m| * n && Cell(n, i, j) < |Flatten(m)| && Flatten(m)[Cell(n, i, j)] == m[i][j]
  {
    FlattenValues(n, m);
    CellBound(|m|, n, i, j);
    if i > 0 {
      FlattenAt(n, m[1..], i - 1, j);
      assert Cell(n, i, j) == n + Cell(n, i - 1, j);
    }
  }

  /** One line of the payload: no newline but its last, and these numbers. */
  ghost predicate LineOf(line: string, vals: seq<int>) {
    line != [] && line[|line| - 1] == '\n' && (forall k :: 0 <= k < |line| - 1 ==> line[k] != '\n')
    && Numbers(line) == vals
  }

  lemma NumberLine(v: nat)
    ensures LineOf(Line(Dec(v)), [v])
  {
    DecDigits(v);
    NumbersCons(v, NL, []);
    assert Line(Dec(v)) == Dec(v) + ([NL] + []);
  }

  lemma MatrixLineOf(n: nat, m: Matrix)
    requires RowsOk(n, m)
    ensures LineOf(Line(MatrixText(n, m)), Flatten(m))
  {
    MatrixLine(n, m);
    FlattenValues(n, m);
    NumbersLine(Flatten(m));
  }

  /** What is on the wire: four lines, from which the id, the size, and the entries of A and of B, row by row, are
      read. */
  lemma PayloadReads(n: nat, c: Challenge)
    returns (id: string, size: string, a: string, b: string)
    requires GoodChallenge(n, c)
    ensures Payload(n, c) == id + (size + (a + b))
    ensures LineOf(id, [c.cid]) && LineOf(size, [n])
    ensures LineOf(a, Numbers(a)) && LineOf(b, Numbers(b)) && |Numbers(a)| == |Numbers(b)| == n * n
    ensures forall i: nat, j: nat :: i < n && j < n ==>
              Cell(n, i, j) < n * n
              && Numbers(a)[Cell(n, i, j)] == c.a[i][j] && Numbers(b)[Cell(n, i, j)] == c.b[i][j]
  {
    ReducedRows(n, c.a);
    ReducedRows(n, c.b);
    id, size := Line(Dec(c.cid)), Line(Dec(n));
    a, b := Line(MatrixText(n, c.a)), Line(MatrixText(n, c.b));
    NumberLine(c.cid);
    NumberLine(n);
    MatrixLineOf(n, c.a);
    MatrixLineOf(n, c.b);
    FlattenValues(n, c.a);
    FlattenValues(n, c.b);
    forall i: nat, j: nat | i < n && j < n
      ensures Cell(n, i, j) < n * n
      ensures Numbers(a)[Cell(n, i, j)] == c.a[i][j] && Numbers(b)[Cell(n, i, j)] == c.b[i][j]
    {
      FlattenAt(n, c.a, i, j);
      FlattenAt(n, c.b, i, j);
    }
  }
}
