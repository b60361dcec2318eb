/** The challenge protocol end to end: a broadcaster pushes payloads into a client's outbox, a sender moves them to
    the byte stream, and the client answers whatever frames have arrived. */
module ChallengeRun {
  import opened Checksum
  import opened Wire
  import opened Client2026
  import opened FrameDecoding
  import opened Wrappers

  /** `hand` is the message a sender has popped and not yet sent. */
  datatype Sys = Sys(pushed: seq<Challenge>, outbox: seq<string>, hand: Option<string>, wire: string,
                     buf: string, emitted: seq<string>, failed: bool)

  datatype Event =
    | Push(c: Challenge)   // broadcaster, under the outbox lock
    | Pop                  // sender, under the outbox lock
    | Send                 // sender, outside the lock
    | Recv(k: nat)         // client, one recv of k bytes
    | Respond              // client, one complete frame
    | Overflow             // client, the buffer is full without a complete frame

  const START := Sys([], [], None, [], [], [], false)

  ghost predicate Enabled(n: nat, cap: nat, s: Sys, e: Event) {
    match e
    case Push(c) => GoodChallenge(n, c)
    case Pop => s.hand == None && s.outbox != []
    case Send => s.hand.Some?
    case Recv(k) => FrameLength(s.buf, 4) == None && 0 < k <= |s.wire| && |s.buf| + k <= cap
    case Respond => FrameLength(s.buf, 4).Some?
    case Overflow => FrameLength(s.buf, 4) == None && |s.buf| >= cap
  }

  /** The line the client sends back for a frame: what it parses, column sums of A times row sums of B, reduced. */
  ghost function ReplyLine(n: nat, frame: string): string {
    var c := Decode(n, frame).0;
    if Square(n, c.a) && Square(n, c.b) && Folded(n, c.a, c.b, n, n, n) >= 0
    then Dec(c.cid) + [' '] + Dec(Folded(n, c.a, c.b, n, n, n) % MODULO) + [NL]
    else []
  }

  ghost function Next(n: nat, cap: nat, s: Sys, e: Event): Sys
    requires Enabled(n, cap, s, e)
  {
    match e
    case Push(c) => s.(pushed := s.pushed + [c], outbox := s.outbox + [Payload(n, c)])
    case Pop => s.(hand := Some(s.outbox[0]), outbox := s.outbox[1..])
    case Send => s.(hand := None, wire := s.wire + s.hand.value)
    case Recv(k) => s.(wire := s.wire[k..], buf := s.buf + s.wire[..k])
    case Respond =>
      var end := FrameLength(s.buf, 4).value;
      FrameExtends(s.buf, [], 4);
      s.(emitted := s.emitted + [ReplyLine(n, s.buf[..end])], buf := s.buf[end..])
    case Overflow => s.(failed := true)
  }

  // ---------- the invariant ----------

  ghost predicate AllGood(n: nat, cs: seq<Challenge>) {
    forall i :: 0 <= i < |cs| ==> GoodChallenge(n, cs[i])
  }

  /** The payloads of challenges, one behind the other. */
  ghost function Stream(n: nat, cs: seq<Challenge>): string
    requires AllGood(n, cs)
  {
    if cs == [] then [] else Payload(n, cs[0]) + Stream(n, cs[1..])
  }

  ghost function Replies(n: nat, cs: seq<Challenge>): seq<string>
    requires AllGood(n, cs)
  {
    if cs == [] then [] else [Reply(n, cs[0])] + Replies(n, cs[1..])
  }

  function Concat(ms: seq<string>): string {
    if ms == [] then [] else ms[0] + Concat(ms[1..])
  }

  function InHand(s: Sys): string {
    if s.hand.Some? then s.hand.value else []
  }

  /** Bytes received and not consumed, on the wire, in the sender's hand and in the outbox: together exactly the
      payloads not yet answered. */
  ghost predicate Inv(n: nat, cap: nat, s: Sys) {
    AllGood(n, s.pushed) && |s.emitted| <= |s.pushed| && !s.failed && |s.buf| <= cap
    && s.emitted == Replies(n, s.pushed[..|s.emitted|])
    && s.buf + (s.wire + (InHand(s) + Concat(s.outbox))) == Stream(n, s.pushed[|s.emitted|..])
  }

  lemma {:induction false} StreamAppend(n: nat, cs: seq<Challenge>, c: Challenge)
    requires AllGood(n, cs) && GoodChallenge(n, c)
    ensures AllGood(n, cs + [c]) && Stream(n, cs + [c]) == Stream(n, cs) + Payload(n, c)
  {
    if cs != [] {
      assert (cs + [c])[1..] == cs[1..] + [c];
      StreamAppend(n, cs[1..], c);
    } else {
      assert cs + [c] == [c];
    }
  }

  lemma {:induction false} RepliesAppend(n: nat, cs: seq<Challenge>, c: Challenge)
    requires AllGood(n, cs) && GoodChallenge(n, c)
    ensures AllGood(n, cs + [c]) && Replies(n, cs + [c]) == Replies(n, cs) + [Reply(n, c)]
  {
    if cs != [] {
      assert (cs + [c])[1..] == cs[1..] + [c];
      RepliesAppend(n, cs[1..], c);
    } else {
      assert cs + [c] == [c];
    }
  }

  /** The lines that answer `cs`, one by one: each is read as the id of its challenge and the right sum. */
  ghost predicate AnsweredBy(n: nat, cs: seq<Challenge>, lines: seq<string>) {
    |lines| == |cs| && forall k :: 0 <= k < |cs| ==> Answers(n, cs[k], lines[k])
  }

  lemma {:induction false} RepliesAnswer(n: nat, cs: seq<Challenge>)
    requires AllGood(n, cs)
    ensures AnsweredBy(n, cs, Replies(n, cs))
  {
    if cs != [] {
      ReplyAnswers(n, cs[0]);
      RepliesAnswer(n, cs[1..]);
      forall k | 0 <= k < |cs| ensures |Replies(n, cs)| == |cs| && Answers(n, cs[k], Replies(n, cs)[k]) {
        if k > 0 { assert cs[k] == cs[1..][k - 1]; }
      }
    }
  }

  /** The challenges that the broadcaster pushes in the course of `es`. */
  function PushedBy(es: seq<Event>): seq<Challenge> {
    if es == [] then [] else (if es[0].Push? then [es[0].c] else []) + PushedBy(es[1..])
  }

  lemma {:induction false} ConcatAppend(ms: seq<string>, m: string)
    ensures Concat(ms + [m]) == Concat(ms) + m
  {
    if ms != [] {
      assert (ms + [m])[1..] == ms[1..] + [m];
      ConcatAppend(ms[1..], m);
    } else {
      assert ms + [m] == [m];
    }
  }

  /** What the buffer holds when the unread bytes are a stream: a first frame is the first payload, and without a
      frame the buffer is shorter than that payload. */
  lemma FrontOfStream(n: nat, buf: string, rest: string, cs: seq<Challenge>)
    requires AllGood(n, cs) && buf + rest == Stream(n, cs)
    ensures FrameLength(buf, 4).Some? ==>
              cs != [] && FrameLength(buf, 4).value == |Payload(n, cs[0])| && |Payload(n, cs[0])| <= |buf|
              && buf[..|Payload(n, cs[0])|] == Payload(n, cs[0])
              && buf[|Payload(n, cs[0])|..] + rest == Stream(n, cs[1..])
    ensures FrameLength(buf, 4) == None ==> if cs == [] then buf == [] && rest == [] else |buf| < |Payload(n, cs[0])|
  {
    if cs != [] {
      var p := Payload(n, cs[0]);
      var all := Stream(n, cs);
      assert all == p + Stream(n, cs[1..]) && all[..|p|] == p;
      assert buf == all[..|buf|];
      if |buf| >= |p| {
        assert buf[..|p|] == all[..|p|] == p;
        assert buf == p + buf[|p|..];
        PayloadFrame(n, cs[0], buf[|p|..]);
        assert buf[|p|..] + rest == all[|p|..];
      } else {
        assert p[..|buf|] == all[..|buf|];
        PartialPayload(n, cs[0], buf);
      }
    }
  }

  // ---------- preservation ----------

  lemma Assoc<T>(a: seq<T>, b: seq<T>, c: seq<T>)
    ensures (a + b) + c == a + (b + c)
  {
  }

  lemma PushKeeps(n: nat, cap: nat, s: Sys, c: Challenge)
    requires Inv(n, cap, s) && GoodChallenge(n, c)
    ensures Inv(n, cap, Next(n, cap, s, Push(c)))
  {
    var k := |s.emitted|;
    assert (s.pushed + [c])[..k] == s.pushed[..k];
    assert (s.pushed + [c])[k..] == s.pushed[k..] + [c];
    StreamAppend(n, s.pushed[k..], c);
    ConcatAppend(s.outbox, Payload(n, c));
    var p := Payload(n, c);
    Assoc(InHand(s), Concat(s.outbox), p);
    Assoc(s.wire, InHand(s) + Concat(s.outbox), p);
    Assoc(s.buf, s.wire + (InHand(s) + Concat(s.outbox)), p);
  }

  lemma TransportKeeps(n: nat, cap: nat, s: Sys, e: Event)
    requires Inv(n, cap, s) && Enabled(n, cap, s, e) && (e.Pop? || e.Send? || e.Recv?)
    ensures Inv(n, cap, Next(n, cap, s, e))
  {
    match e
    case Pop => assert [] + Concat(s.outbox) == s.outbox[0] + Concat(s.outbox[1..]);
    case Send =>
      Assoc(s.wire, InHand(s), Concat(s.outbox));
      assert [] + Concat(s.outbox) == Concat(s.outbox);
    case Recv(k) =>
      var rest := InHand(s) + Concat(s.outbox);
      assert s.wire == s.wire[..k] + s.wire[k..];
      Assoc(s.wire[..k], s.wire[k..], rest);
      Assoc(s.buf, s.wire[..k], s.wire[k..] + rest);
  }

  /** The frame answered next is the next challenge's payload. */
  lemma NextFrame(n: nat, cap: nat, s: Sys)
    requires Inv(n, cap, s) && Enabled(n, cap, s, Respond)
    ensures var s' := Next(n, cap, s, Respond);
            |s.emitted| < |s.pushed|
            && s'.emitted == s.emitted + [Reply(n, s.pushed[|s.emitted|])]
            && s'.buf + (s.wire + (InHand(s) + Concat(s.outbox))) == Stream(n, s.pushed[|s.emitted| + 1..])
            && |s'.buf| <= |s.buf|
  {
    var left := s.pushed[|s.emitted|..];
    FrontOfStream(n, s.buf, s.wire + (InHand(s) + Concat(s.outbox)), left);
    DecodePayload(n, left[0]);
    ClosedForm(n, left[0].a, left[0].b);
    assert left[0] == s.pushed[|s.emitted|] && left[1..] == s.pushed[|s.emitted| + 1..];
  }

  lemma RespondKeeps(n: nat, cap: nat, s: Sys)
    requires Inv(n, cap, s) && Enabled(n, cap, s, Respond)
    ensures Inv(n, cap, Next(n, cap, s, Respond))
  {
    var k := |s.emitted|;
    NextFrame(n, cap, s);
    TakeOne(s.pushed, k);
    RepliesAppend(n, s.pushed[..k], s.pushed[k]);
  }

  /** The buffer never fills up without a complete frame in it. */
  lemma NeverOverflows(n: nat, cap: nat, s: Sys)
    requires Inv(n, cap, s) && MaxPayload(n) < cap
    ensures !Enabled(n, cap, s, Overflow)
  {
    var left := s.pushed[|s.emitted|..];
    FrontOfStream(n, s.buf, s.wire + (InHand(s) + Concat(s.outbox)), left);
    if left != [] { PayloadBound(n, left[0]); }
  }

  lemma StepKeeps(n: nat, cap: nat, s: Sys, e: Event)
    requires Inv(n, cap, s) && MaxPayload(n) < cap && Enabled(n, cap, s, e)
    ensures Inv(n, cap, Next(n, cap, s, e))
  {
    match e
    case Push(c) => PushKeeps(n, cap, s, c);
    case Respond => RespondKeeps(n, cap, s);
    case Overflow => NeverOverflows(n, cap, s); assert false;
    case _ => TransportKeeps(n, cap, s, e);
  }

  // ---------- every run ----------

  /** `es` is an interleaving of the threads' steps from `s`. */
  ghost predicate Runs(n: nat, cap: nat, s: Sys, es: seq<Event>)
    decreases es
  {
    es == [] || (Enabled(n, cap, s, es[0]) && Runs(n, cap, Next(n, cap, s, es[0]), es[1..]))
  }

  ghost function After(n: nat, cap: nat, s: Sys, es: seq<Event>): Sys
    requires Runs(n, cap, s, es)
    decreases es
  {
    if es == [] then s else After(n, cap, Next(n, cap, s, es[0]), es[1..])
  }

  lemma {:induction false} RunKeeps(n: nat, cap: nat, s: Sys, es: seq<Event>)
    requires Inv(n, cap, s) && MaxPayload(n) < cap && Runs(n, cap, s, es)
    ensures Inv(n, cap, After(n, cap, s, es))
    decreases es
  {
    if es != [] {
      StepKeeps(n, cap, s, es[0]);
      RunKeeps(n, cap, Next(n, cap, s, es[0]), es[1..]);
    }
  }

  lemma {:induction false} PushedInRun(n: nat, cap: nat, s: Sys, es: seq<Event>)
    requires Runs(n, cap, s, es)
    ensures After(n, cap, s, es).pushed == s.pushed + PushedBy(es)
    decreases es
  {
    if es != [] {
      PushedOne(n, cap, s, es[0]);
      PushedInRun(n, cap, Next(n, cap, s, es[0]), es[1..]);
      Assoc(s.pushed, if es[0].Push? then [es[0].c] else [], PushedBy(es[1..]));
    }
  }

  lemma PushedOne(n: nat, cap: nat, s: Sys, e: Event)
    requires Enabled(n, cap, s, e)
    ensures Next(n, cap, s, e).pushed == s.pushed + if e.Push? then [e.c] else []
  {
  }

  /** In every interleaving, and however the bytes are cut up, the lines sent back answer the challenges pushed, in the
      order they were pushed and as far as they go: from each the server reads the id of its challenge and the sum of
      all entries of A * B modulo 997. The client never gives up on a full buffer. */
  lemma EndToEnd(n: nat, cap: nat, es: seq<Event>)
    requires MaxPayload(n) < cap && Runs(n, cap, START, es)
    ensures var s := After(n, cap, START, es);
            |s.emitted| <= |PushedBy(es)| && AnsweredBy(n, PushedBy(es)[..|s.emitted|], s.emitted)
            && s.pushed == PushedBy(es) && AllGood(n, s.pushed)
            && s.emitted == Replies(n, s.pushed[..|s.emitted|]) && !s.failed && !Enabled(n, cap, s, Overflow)
  {
    RunKeeps(n, cap, START, es);
    PushedInRun(n, cap, START, es);
    var s := After(n, cap, START, es);
    assert s.pushed == PushedBy(es);
    NeverOverflows(n, cap, s);
    RepliesAnswer(n, s.pushed[..|s.emitted|]);
  }

  /** With the sizes in use, matrices of 128 rows and a buffer of 4 MiB, no run of the system fills the buffer. */
  lemma BufferNeverFull(es: seq<Event>)
    requires Runs(128, 0x40_0000, START, es)
    ensures !Enabled(128, 0x40_0000, After(128, 0x40_0000, START, es), Overflow)
  {
    BufferSuffices();
    RunKeeps(128, 0x40_0000, START, es);
    NeverOverflows(128, 0x40_0000, After(128, 0x40_0000, START, es));
  }

  lemma SomeStep(n: nat, cap: nat, s: Sys)
    requires MaxPayload(n) < cap && Inv(n, cap, s) && |s.emitted| < |s.pushed|
    ensures Enabled(n, cap, s, Pop) || Enabled(n, cap, s, Send)
            || Enabled(n, cap, s, Recv(1)) || Enabled(n, cap, s, Respond)
  {
    var left := s.pushed[|s.emitted|..];
    PayloadBound(n, left[0]);
    FrontOfStream(n, s.buf, s.wire + (InHand(s) + Concat(s.outbox)), left);
  }

  /** While a challenge is unanswered some sender or client step is possible, so answers are never stuck. */
  lemma NoDeadlock(n: nat, cap: nat, es: seq<Event>)
    requires MaxPayload(n) < cap && Runs(n, cap, START, es)
    ensures var s := After(n, cap, START, es);
            |s.emitted| < |s.pushed| ==>
              Enabled(n, cap, s, Pop) || Enabled(n, cap, s, Send)
              || Enabled(n, cap, s, Recv(1)) || Enabled(n, cap, s, Respond)
  {
    RunKeeps(n, cap, START, es);
    var s := After(n, cap, START, es);
    if |s.emitted| < |s.pushed| { SomeStep(n, cap, s); }
  }

  /** Once everything has been delivered and no frame is left, every challenge has been answered. */
  lemma AllAnswered(n: nat, cap: nat, es: seq<Event>)
    requires MaxPayload(n) < cap && Runs(n, cap, START, es)
    ensures var s := After(n, cap, START, es);
            s.outbox == [] && s.hand == None && s.wire == [] && FrameLength(s.buf, 4) == None ==>
              AnsweredBy(n, PushedBy(es), s.emitted) && s.buf == []
  {
    RunKeeps(n, cap, START, es);
    EndToEnd(n, cap, es);
    var s := After(n, cap, START, es);
    var left := s.pushed[|s.emitted|..];
    FrontOfStream(n, s.buf, s.wire + (InHand(s) + Concat(s.outbox)), left);
    if left == [] { assert PushedBy(es)[..|s.emitted|] == PushedBy(es); }
  }

  // ---------- the client's own loop ----------

  /** One recv of at most `cut` bytes, at least one, and no more than fit. */
  method RecvSome(client: Client, pending: string, cut: nat) returns (rest: string)
    requires client.Valid() && client.have < client.buf.Length && pending != []
    modifies client, client.buf
    ensures client.Valid() && |rest| < |pending| && client.Bytes() + rest == old(client.Bytes()) + pending
  {
    var r := if cut == 0 then 1 else cut;
    r := if r > |pending| then |pending| else r;
    r := if r > client.buf.Length - client.have then client.buf.Length - client.have else r;
    rest := pending[r..];
    assert pending == pending[..r] + rest;
    Assoc(client.Bytes(), pending[..r], rest);
    client.Receive(pending[..r]);
  }

  /** Answers the frame at the front of the buffer and moves the rest up. */
  method AnswerFront(client: Client, end: nat, ghost c: Challenge) returns (line: string)
    requires client.Valid() && GoodChallenge(client.n, c) && end == |Payload(client.n, c)| <= client.have
    requires client.Bytes()[..end] == Payload(client.n, c)
    modifies client, client.buf
    ensures client.Valid() && line == Reply(client.n, c) && Answers(client.n, c, line)
    ensures client.Bytes() == old(client.Bytes())[end..]
    ensures client.have == old(client.have) - end
  {
    assert At(client.buf[..], 0, Payload(client.n, c));
    ghost var cursor;
    line, cursor := client.Solve(c);
    client.Retain(end);
  }

  /** The first `k` challenges are answered, and what is buffered and pending is the rest. */
  ghost predicate Serving(n: nat, cs: seq<Challenge>, k: nat, buffered: string, pending: string, sent: seq<string>) {
    AllGood(n, cs) && k <= |cs| && sent == Replies(n, cs[..k]) && buffered + pending == Stream(n, cs[k..])
  }

  lemma TakeOne<T>(s: seq<T>, k: nat)
    requires k < |s|
    ensures s[..k + 1] == s[..k] + [s[k]]
  {
  }

  lemma ServedFront(n: nat, cs: seq<Challenge>, k: nat, buffered: string, pending: string, end: nat)
    requires AllGood(n, cs) && k <= |cs| && buffered + pending == Stream(n, cs[k..])
             && FrameLength(buffered, 4) == Some(end)
    ensures k < |cs| && GoodChallenge(n, cs[k]) && 0 < end == |Payload(n, cs[k])| <= |buffered|
            && buffered[..end] == Payload(n, cs[k]) && buffered[end..] + pending == Stream(n, cs[k + 1..])
  {
    FrontOfStream(n, buffered, pending, cs[k..]);
    assert cs[k..][0] == cs[k] && cs[k..][1..] == cs[k + 1..];
    PayloadBound(n, cs[k]);
  }

  lemma ServedOne(n: nat, cs: seq<Challenge>, k: nat, buffered: string, pending: string, sent: seq<string>, end: nat)
    requires Serving(n, cs, k, buffered, pending, sent) && FrameLength(buffered, 4) == Some(end)
    ensures k < |cs| && GoodChallenge(n, cs[k]) && 0 < end == |Payload(n, cs[k])| <= |buffered|
            && buffered[..end] == Payload(n, cs[k])
            && Serving(n, cs, k + 1, buffered[end..], pending, sent + [Reply(n, cs[k])])
  {
    ServedFront(n, cs, k, buffered, pending, end);
    TakeOne(cs, k);
    RepliesAppend(n, cs[..k], cs[k]);
  }

  lemma ServedAll(n: nat, cs: seq<Challenge>, k: nat, buffered: string, pending: string, sent: seq<string>)
    requires Serving(n, cs, k, buffered, pending, sent) && FrameLength(buffered, 4) == None
    ensures |buffered| <= MaxPayload(n) && (pending == [] ==> sent == Replies(n, cs))
  {
    FrontOfStream(n, buffered, pending, cs[k..]);
    if k < |cs| { PayloadBound(n, cs[k..][0]); } else { assert cs[..k] == cs; }
  }

  /** The client's loop on a connection that delivers `stream` and then closes; the i-th recv returns `cuts(i)` bytes,
      or what is left, or what fits. It answers every challenge in the stream, in order, with lines from which the
      server reads its id and the right sum, and never reports overflow. */
  method Serve(n: nat, capacity: nat, stream: string, cuts: nat -> nat, ghost cs: seq<Challenge>)
    returns (sent: seq<string>, overflow: bool)
    requires AllGood(n, cs) && stream == Stream(n, cs) && MaxPayload(n) < capacity
    ensures sent == Replies(n, cs) && AnsweredBy(n, cs, sent) && !overflow
  {
    RepliesAnswer(n, cs);
    var client := new Client(n, capacity);
    var pending := stream;
    var received := 0;
    ghost var k := 0;
    sent, overflow := [], false;
    assert cs[0..] == cs && cs[..0] == [];
    while true
      invariant fresh(client) && fresh(client.buf) && client.n == n && client.buf.Length == capacity && client.Valid()
      invariant Serving(n, cs, k, client.Bytes(), pending, sent)
      decreases |pending|, client.have
    {
      var nl, end := client.Scan();
      if nl < 4 {
        ServedAll(n, cs, k, client.Bytes(), pending, sent);
        if client.have == capacity { overflow := true; return; }
        if pending == [] { return; }
        pending := RecvSome(client, pending, cuts(received));
        received := received + 1;
      } else {
        ServedOne(n, cs, k, client.Bytes(), pending, sent, end);
        var line := AnswerFront(client, end, cs[k]);
        sent := sent + [line];
        k := k + 1;
      }
    }
  }
}
