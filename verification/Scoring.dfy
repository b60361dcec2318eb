/** The server's side of a challenge: which answers count for the challenge in hand, and who wins it. */
module Scoring {
  import opened Widths

  /** What a message parses to: nothing, a single number, or a challenge id and a number. */
  datatype Message = Garbled | Single(ans: int) | Pair(cid: int, ans: int)

  datatype Event = Open(cid: int, now: int) | Answer(name: string, msg: Message, now: int)

  // ---------- which answers count ----------

  /** The challenge in hand after these events, and when it was opened. */
  function Active(es: seq<Event>): int {
    if es == [] then 0 else if es[|es| - 1].Open? then es[|es| - 1].cid else Active(es[..|es| - 1])
  }

  function OpenedAt(es: seq<Event>): int {
    if es == [] then 0 else if es[|es| - 1].Open? then es[|es| - 1].now else OpenedAt(es[..|es| - 1])
  }

  /** The `k`-th event answers the challenge then in hand: it names it, or names none. */
  predicate Counts(es: seq<Event>, k: nat)
    requires k < |es|
  {
    es[k].Answer?
    && (es[k].msg.Single? || (es[k].msg.Pair? && (es[k].msg.cid == -1 || es[k].msg.cid == Active(es[..k]))))
  }

  /** Among the first `n` events the `k`-th is `name`'s last answer to the challenge in hand. */
  ghost predicate Standing(es: seq<Event>, n: nat, k: nat, name: string)
    requires n <= |es|
  {
    k < n && Counts(es, k) && es[k].name == name
    && forall j :: k < j < n ==> es[j].Answer? && !(Counts(es, j) && es[j].name == name)
  }

  ghost predicate Stands(es: seq<Event>, n: nat, name: string)
    requires n <= |es|
  {
    exists k: nat :: Standing(es, n, k, name)
  }

  /** The maps record, for each name, its last answer to the challenge in hand, and nothing else. */
  ghost predicate Recorded(es: seq<Event>, n: nat, lat: map<string, int>, ans: map<string, int>)
    requires n <= |es|
  {
    lat.Keys == ans.Keys && (forall name <- ans :: Stands(es, n, name))
    && (forall name: string, k: nat :: Standing(es, n, k, name) ==>
          name in ans && ans[name] == es[k].msg.ans && lat[name] == es[k].now - OpenedAt(es[..n]))
  }

  class ChallengeState {
    var id: int
    var startTime: int
    var latencies: map<string, int>
    var answers: map<string, int>

    constructor ()
      ensures id == 0 && startTime == 0 && latencies == answers == map[]
    {
      id, startTime, latencies, answers := 0, 0, map[], map[];
    }

    ghost predicate Records(es: seq<Event>, n: nat)
      requires n <= |es|
      reads this
    {
      id == Active(es[..n]) && startTime == OpenedAt(es[..n]) && Recorded(es, n, latencies, answers)
    }

    method OpenChallenge(cid: int, now: int)
      modifies this
      ensures id == cid && startTime == now && latencies == answers == map[]
    {
      id, startTime, latencies, answers := cid, now, map[], map[];
    }

    /** An answer to another challenge is ignored; an accepted one replaces the sender's earlier one. */
    method Receive(name: string, msg: Message, now: int)
      modifies this
      ensures id == old(id) && startTime == old(startTime)
      ensures if msg.Single? || (msg.Pair? && (msg.cid == -1 || msg.cid == id))
              then answers == old(answers)[name := msg.ans] && latencies == old(latencies)[name := now - startTime]
              else answers == old(answers) && latencies == old(latencies)
    {
      if msg.Garbled? { return; }
      var associated := if msg.Pair? then msg.cid else -1;
      if associated == -1 { associated := id; }
      if associated != id { return; }
      latencies := latencies[name := now - startTime];
      answers := answers[name := msg.ans];
    }
  }

  lemma Snoc(es: seq<Event>, n: nat)
    requires n < |es|
    ensures Active(es[..n + 1]) == if es[n].Open? then es[n].cid else Active(es[..n])
    ensures OpenedAt(es[..n + 1]) == if es[n].Open? then es[n].now else OpenedAt(es[..n])
  {
    assert es[..n + 1][..n] == es[..n];
  }

  /** One more event: an opening clears the board, an answer that counts takes its sender's place. */
  lemma StandingNext(es: seq<Event>, n: nat, k: nat, name: string)
    requires n < |es|
    ensures es[n].Open? ==> !Standing(es, n + 1, k, name)
    ensures es[n].Answer? && !(Counts(es, n) && es[n].name == name) ==>
              (Standing(es, n + 1, k, name) <==> Standing(es, n, k, name))
    ensures es[n].Answer? && Counts(es, n) && es[n].name == name ==> (Standing(es, n + 1, k, name) <==> k == n)
  {
  }

  lemma Opened(es: seq<Event>, n: nat)
    requires n < |es| && es[n].Open?
    ensures Recorded(es, n + 1, map[], map[])
  {
  }

  lemma Ignored(es: seq<Event>, n: nat, lat: map<string, int>, ans: map<string, int>)
    requires n < |es| && es[n].Answer? && !Counts(es, n) && Recorded(es, n, lat, ans)
    ensures Recorded(es, n + 1, lat, ans)
  {
    Snoc(es, n);
    forall x <- ans ensures Stands(es, n + 1, x) {
      var k: nat :| Standing(es, n, k, x);
      StandingNext(es, n, k, x);
    }
    forall x: string, k: nat | Standing(es, n + 1, k, x) ensures Standing(es, n, k, x) {
      StandingNext(es, n, k, x);
    }
  }

  lemma Accepted(es: seq<Event>, n: nat, lat: map<string, int>, ans: map<string, int>)
    requires n < |es| && es[n].Answer? && Counts(es, n) && Recorded(es, n, lat, ans)
    ensures Recorded(es, n + 1, lat[es[n].name := es[n].now - OpenedAt(es[..n])], ans[es[n].name := es[n].msg.ans])
  {
    Snoc(es, n);
    var name := es[n].name;
    var ans' := ans[name := es[n].msg.ans];
    forall x <- ans' ensures Stands(es, n + 1, x) {
      if x == name {
        assert Standing(es, n + 1, n, x);
      } else {
        var k: nat :| Standing(es, n, k, x);
        StandingNext(es, n, k, x);
      }
    }
    var lat' := lat[name := es[n].now - OpenedAt(es[..n])];
    forall x: string, k: nat | Standing(es, n + 1, k, x)
      ensures x in ans' && ans'[x] == es[k].msg.ans && lat'[x] == es[k].now - OpenedAt(es[..n + 1])
    {
      StandingNext(es, n, k, x);
    }
  }

  /** Any sequence of openings and answers, from any clients. */
  method Play(es: seq<Event>) returns (s: ChallengeState)
    ensures s.Records(es, |es|)
  {
    s := new ChallengeState();
    assert es[..0] == [];
    for n := 0 to |es|
      invariant fresh(s) && s.Records(es, n)
    {
      Snoc(es, n);
      ghost var lat, ans := s.latencies, s.answers;
      match es[n] {
        case Open(cid, now) =>
          Opened(es, n);
          s.OpenChallenge(cid, now);
        case Answer(name, msg, now) =>
          if Counts(es, n) { Accepted(es, n, lat, ans); } else { Ignored(es, n, lat, ans); }
          s.Receive(name, msg, now);
      }
    }
  }

  // ---------- the winner ----------

  /** A correct answer on record, with a latency the search can see. */
  predicate Qualifies(lat: map<string, int>, ans: map<string, int>, correct: int, x: string) {
    x in lat && x in ans && ans[x] == correct && lat[x] < INT_MAX
  }

  /** No qualified answer is faster. */
  ghost predicate Fastest(lat: map<string, int>, ans: map<string, int>, correct: int, x: string) {
    Qualifies(lat, ans, correct, x) && forall y :: Qualifies(lat, ans, correct, y) ==> lat[x] <= lat[y]
  }

  /** `order` is one of the orders in which a hash map may be traversed. */
  ghost predicate Traversal(lat: map<string, int>, order: seq<string>) {
    (forall x :: x in order <==> x in lat) && forall i, j :: 0 <= i < j < |order| ==> order[i] != order[j]
  }

  /** The search over the first `n` names of a traversal: who leads, and with what latency. The empty name stands for
      nobody. */
  function Search(lat: map<string, int>, ans: map<string, int>, correct: int, order: seq<string>, n: nat): (string, int)
    requires n <= |order|
  {
    if n == 0 then ("", INT_MAX)
    else
      var (winner, best) := Search(lat, ans, correct, order, n - 1);
      var x := order[n - 1];
      if x in lat && x in ans && ans[x] == correct && lat[x] < best then (x, lat[x]) else (winner, best)
  }

  /** Whoever leads is qualified and not beaten by a name seen so far; and a fastest name that was seen first leads. */
  lemma {:induction false} SearchFacts(lat: map<string, int>, ans: map<string, int>, correct: int, order: seq<string>,
                                       n: nat)
    requires n <= |order|
    ensures var (w, best) := Search(lat, ans, correct, order, n);
            best <= INT_MAX && (best == INT_MAX ==> w == "")
            && (best < INT_MAX ==> Qualifies(lat, ans, correct, w) && lat[w] == best)
            && (forall j :: 0 <= j < n && Qualifies(lat, ans, correct, order[j]) ==> best <= lat[order[j]])
            && (n > 0 && Fastest(lat, ans, correct, order[0]) ==> w == order[0] && best == lat[w])
  {
    if n > 0 { SearchFacts(lat, ans, correct, order, n - 1); }
  }

  /** The search finds a fastest correct answer, or nobody when no correct answer took less than 2^31 - 1. */
  lemma SearchFindsFastest(lat: map<string, int>, ans: map<string, int>, correct: int, order: seq<string>)
    requires Traversal(lat, order)
    ensures var w := Search(lat, ans, correct, order, |order|).0;
            Fastest(lat, ans, correct, w) || (w == "" && forall x :: !Qualifies(lat, ans, correct, x))
    ensures var w := Search(lat, ans, correct, order, |order|).0;
            if w in lat && w in ans && ans[w] == correct && lat[w] < 0x7FFF_FFFF
            then forall x :: x in lat && x in ans && ans[x] == correct ==> lat[w] <= lat[x]
            else w == "" && forall x :: x in lat && x in ans && ans[x] == correct ==> lat[x] >= 0x7FFF_FFFF
  {
    SearchFacts(lat, ans, correct, order, |order|);
    var (w, best) := Search(lat, ans, correct, order, |order|);
    forall x | Qualifies(lat, ans, correct, x) ensures best <= lat[x] {
      assert x in order;
      var j :| 0 <= j < |order| && order[j] == x;
    }
    forall x | x in lat && x in ans && ans[x] == correct
      ensures lat[x] >= 0x7FFF_FFFF || Qualifies(lat, ans, correct, x)
    {
    }
  }

  /** Among equally fast answers the one visited first wins: whoever answered correctly and is visited before the
      winner took longer. */
  lemma {:induction false} FirstOfTies(lat: map<string, int>, ans: map<string, int>, correct: int, order: seq<string>,
                                       n: nat, i: nat, j: nat)
    requires Traversal(lat, order) && j < i < n <= |order|
    requires var (w, best) := Search(lat, ans, correct, order, n); w == order[i] && best < INT_MAX
    requires order[j] in lat && order[j] in ans && ans[order[j]] == correct
    ensures order[i] in lat && lat[order[j]] > lat[order[i]]
  {
    SearchFacts(lat, ans, correct, order, n - 1);
    if i < n - 1 {
      FirstOfTies(lat, ans, correct, order, n - 1, i, j);
    } else if Search(lat, ans, correct, order, n) == Search(lat, ans, correct, order, n - 1) {
      var k := WinnerSeen(lat, ans, correct, order, n - 1);
      assert false;
    } else {
      assert Qualifies(lat, ans, correct, order[j]) || lat[order[j]] >= INT_MAX;
    }
  }

  lemma {:induction false} WinnerSeen(lat: map<string, int>, ans: map<string, int>, correct: int, order: seq<string>,
                                      n: nat) returns (k: nat)
    requires n <= |order| && Search(lat, ans, correct, order, n).1 < INT_MAX
    ensures k < n && order[k] == Search(lat, ans, correct, order, n).0
  {
    if Search(lat, ans, correct, order, n) == Search(lat, ans, correct, order, n - 1) {
      k := WinnerSeen(lat, ans, correct, order, n - 1);
    } else {
      k := n - 1;
    }
  }

  method Winner(lat: map<string, int>, ans: map<string, int>, correct: int, order: seq<string>) returns (winner: string)
    requires Traversal(lat, order)
    ensures winner == Search(lat, ans, correct, order, |order|).0
    ensures if winner in lat && winner in ans && ans[winner] == correct && lat[winner] < 0x7FFF_FFFF
            then forall x :: x in lat && x in ans && ans[x] == correct ==> lat[winner] <= lat[x]
            else winner == "" && forall x :: x in lat && x in ans && ans[x] == correct ==> lat[x] >= 0x7FFF_FFFF
  {
    SearchFindsFastest(lat, ans, correct, order);
    winner := "";
    var best := INT_MAX;
    for i := 0 to |order|
      invariant (winner, best) == Search(lat, ans, correct, order, i)
    {
      var x := order[i];
      assert x in lat;
      if x in ans && ans[x] == correct && lat[x] < best {
        best, winner := lat[x], x;
      }
    }
  }

  lemma SomeName(s: set<string>)
    ensures s == {} || exists x :: x in s
  {
    if forall x :: x !in s { assert s == {}; }
  }

  lemma {:induction false} Enumerate(s: set<string>) returns (order: seq<string>)
    ensures forall x :: x in order <==> x in s
    ensures forall i, j :: 0 <= i < j < |order| ==> order[i] != order[j]
    decreases |s|
  {
    order := [];
    if s != {} {
      SomeName(s);
      var x :| x in s;
      var rest := Enumerate(s - {x});
      order := [x] + rest;
      forall i, j | 0 <= i < j < |order| ensures order[i] != order[j] {
        if i == 0 { assert order[j] == rest[j - 1] && order[j] in rest; }
      }
    }
  }

  /** Any recorded name may be visited first. */
  lemma VisitFirst(lat: map<string, int>, x: string) returns (order: seq<string>)
    requires x in lat
    ensures Traversal(lat, order) && order != [] && order[0] == x
  {
    var rest := Enumerate(lat.Keys - {x});
    order := [x] + rest;
    forall i, j | 0 <= i < j < |order| ensures order[i] != order[j] {
      if i == 0 { assert order[j] == rest[j - 1] && order[j] in rest; }
    }
  }

  /** A client that registered without a name and answered first is taken for nobody: somebody answered correctly, and
      still no traversal leads to a winner. */
  lemma NamelessWins(order: seq<string>)
    requires Traversal(map["" := 1, "a" := 2], order)
    ensures Qualifies(map["" := 1, "a" := 2], map["" := 7, "a" := 7], 7, "a")
    ensures Search(map["" := 1, "a" := 2], map["" := 7, "a" := 7], 7, order, |order|).0 == ""
  {
    var lat, ans := map["" := 1, "a" := 2], map["" := 7, "a" := 7];
    SearchFindsFastest(lat, ans, 7, order);
    assert Qualifies(lat, ans, 7, "") && Qualifies(lat, ans, 7, "a");
  }

  /** Every traversal leads to a winner exactly if somebody qualifies and the nameless client is not among the
      fastest. */
  lemma WinnerReported(lat: map<string, int>, ans: map<string, int>, correct: int)
    ensures (forall order :: Traversal(lat, order) ==> Search(lat, ans, correct, order, |order|).0 != "")
            <==> (exists x :: Qualifies(lat, ans, correct, x)) && !Fastest(lat, ans, correct, "")
  {
    if Fastest(lat, ans, correct, "") {
      var order := VisitFirst(lat, "");
      SearchFacts(lat, ans, correct, order, |order|);
      assert Search(lat, ans, correct, order, |order|).0 == "";
    } else if exists x :: Qualifies(lat, ans, correct, x) {
      forall order | Traversal(lat, order) ensures Search(lat, ans, correct, order, |order|).0 != "" {
        SearchFindsFastest(lat, ans, correct, order);
      }
    } else {
      var order := Enumerate(lat.Keys);
      SearchFindsFastest(lat, ans, correct, order);
      assert Search(lat, ans, correct, order, |order|).0 == "";
    }
  }
}
