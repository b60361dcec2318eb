/** Whole runs of the phase 4 system: placing, submitting, cancelling and reaping in any legal order. */
module Exchange {
  import opened Orders
  import opened PriceLevels
  import opened Matching

  datatype State = State(store: Store, next: int, active: set<int>, submitted: set<int>,
                         bids: seq<Level<int>>, asks: seq<Level<int>>, tape: seq<Trade>)
  {
    function Levels(s: Side): seq<Level<int>> {
      if s == Buy then bids else asks
    }

    function WithLevels(s: Side, levels: seq<Level<int>>): State {
      if s == Buy then this.(bids := levels) else this.(asks := levels)
    }
  }

  datatype Command =
    | Place(symbol: string, price: real, quantity: int, side: Side)
    | Submit(id: int, seqno: nat)
    | Cancel(id: int)
    | Reap

  const EMPTY := State(map[], 1, {}, {}, [], [], [])

  // ---------- the invariant of every run ----------

  ghost predicate SideOk(st: State, s: Side) {
    Ladder(s, st.Levels(s)) && Housed(st.store, s, st.Levels(s)) && Queued(st.store, Flat(st.Levels(s)))
    && (forall k :: 0 <= k < |Flat(st.Levels(s))| ==> Flat(st.Levels(s))[k] in st.submitted)
  }

  ghost predicate Ids(st: State) {
    st.next >= 1 && (forall i :: i in st.store <==> 1 <= i < st.next)
    && (forall i <- st.submitted :: i in st.store && st.store[i].quantity > 0)
    && (forall i <- st.active :: i in st.store)
  }

  ghost predicate Histories(st: State) {
    forall i <- st.store :: Coherent(st.store[i]) && (i !in st.submitted ==> st.store[i].filled == 0)
  }

  /** Live orders are known to the order manager, and those submitted are queued. */
  ghost predicate Tracked(st: State) {
    forall i <- st.store :: st.store[i].Live() ==>
                              i in st.active && (i in st.submitted ==> i in Flat(st.Levels(st.store[i].side)))
  }

  ghost predicate Uncrossed(st: State) {
    st.bids != [] && st.asks != [] ==> st.bids[0].price < st.asks[0].price
  }

  ghost predicate Audited(st: State) {
    (forall tr <- st.tape :: FairTrade(st.store, tr))
    && (forall i :: Named(st.tape, i) == if i in st.store then st.store[i].filled else 0)
  }

  ghost predicate Inv(st: State) {
    SideOk(st, Buy) && SideOk(st, Sell) && Ids(st) && Histories(st) && Tracked(st) && Uncrossed(st) && Audited(st)
  }

  /** What the engine asks of its callers: an order is submitted once, while new, for a positive quantity. */
  predicate Legal(st: State, c: Command) {
    c.Submit? ==>
      c.id in st.store && c.id !in st.submitted && st.store[c.id].state == New && st.store[c.id].quantity > 0
  }

  lemma SubmitReady(st: State, id: int, seqno: nat)
    requires Inv(st) && Legal(st, Submit(id, seqno))
    ensures var opp := st.Levels(Opposite(st.store[id].side));
            Matchable(st.store, opp, id) && Takeable(st.store, id) && Sound(st.store, Flat(opp))
            && Housed(st.store, Opposite(st.store[id].side), opp)
  {
    assert SideOk(st, Opposite(st.store[id].side));
  }

  ghost function Submitted(st: State, id: int, seqno: nat): State
    requires Inv(st) && Legal(st, Submit(id, seqno))
  {
    SubmitReady(st, id, seqno);
    var o := st.store[id];
    var r := MatchLoop(st.store, st.Levels(Opposite(o.side)), id, seqno);
    LoopCredits(st.store, st.Levels(Opposite(o.side)), id, seqno, id);
    var traded := st.(store := r.store, submitted := st.submitted + {id}, tape := st.tape + r.trades);
    var swept := traded.WithLevels(Opposite(o.side), r.levels);
    if r.store[id].Remaining() > 0 then swept.WithLevels(o.side, Insert(o.side, st.Levels(o.side), o.price, id))
    else swept
  }

  function Placed(st: State, o: Info): State {
    st.(store := st.store[st.next := o], next := st.next + 1, active := st.active + {st.next})
  }

  /** Only the state of a live order known to the manager flips; the book is left alone. */
  function CancelledOrder(st: State, id: int): State {
    if id in st.active && LiveIn(st.store, id) then st.(store := st.store[id := st.store[id].(state := Cancelled)])
    else st
  }

  function Reaped(st: State): State {
    st.(active := set i | i in st.active && LiveIn(st.store, i))
  }

  ghost function Step(st: State, c: Command): State
    requires Inv(st) && Legal(st, c)
  {
    match c
    case Place(symbol, price, quantity, side) => Placed(st, Info(symbol, price, quantity, side, 0, New))
    case Submit(id, seqno) => Submitted(st, id, seqno)
    case Cancel(id) => CancelledOrder(st, id)
    case Reap => Reaped(st)
  }

  // ---------- preservation ----------

  lemma PlaceKeepsInv(st: State, c: Command)
    requires Inv(st) && c.Place?
    ensures Inv(Step(st, c))
  {
    var st' := Step(st, c);
    Extended(st.store, st'.store, Buy, st.bids);
    Extended(st.store, st'.store, Sell, st.asks);
    forall i ensures Named(st'.tape, i) == if i in st'.store then st'.store[i].filled else 0 {}
  }

  lemma {:induction false} Extended(store: Store, store': Store, s: Side, levels: seq<Level<int>>)
    requires Housed(store, s, levels)
    requires forall i <- store :: i in store' && store'[i].side == store[i].side && store'[i].price == store[i].price
    ensures Housed(store', s, levels)
  {
    if levels != [] { Extended(store, store', s, levels[1..]); }
  }

  lemma CancelKeepsInv(st: State, c: Command)
    requires Inv(st) && c.Cancel?
    ensures Inv(Step(st, c))
  {
    var st' := Step(st, c);
    Extended(st.store, st'.store, Buy, st.bids);
    Extended(st.store, st'.store, Sell, st.asks);
    CancelAudited(st, c.id);
  }

  lemma CancelAudited(st: State, id: int)
    requires Audited(st) && Tracked(st)
    ensures Audited(CancelledOrder(st, id))
  {
    var st' := CancelledOrder(st, id);
    forall tr <- st'.tape ensures FairTrade(st'.store, tr) {
      assert FairTrade(st.store, tr);
    }
  }

  lemma {:induction false} HousedOrders(store: Store, s: Side, levels: seq<Level<int>>)
    requires Housed(store, s, levels) && Ladder(s, levels)
    ensures forall k :: 0 <= k < |Flat(levels)| ==>
                          Flat(levels)[k] in store && store[Flat(levels)[k]].side == s
                          && !Better(s, store[Flat(levels)[k]].price, levels[0].price)
  {
    if levels != [] { HousedOrders(store, s, levels[1..]); }
  }

  lemma {:induction false} HousedInsert(store: Store, s: Side, levels: seq<Level<int>>, id: int)
    requires Housed(store, s, levels) && id in store && store[id].side == s
    ensures Housed(store, s, Insert(s, levels, store[id].price, id))
  {
    if levels != [] { HousedInsert(store, s, levels[1..], id); }
  }

  // ---------- submission preserves the invariant ----------

  /** Matching brings nobody into the opposite queue. */
  lemma LoopMembers(store: Store, levels: seq<Level<int>>, t: int, seqno: nat, known: set<int>)
    requires Matchable(store, levels, t) && Takeable(store, t) && Sound(store, Flat(levels))
    requires forall k :: 0 <= k < |Flat(levels)| ==> Flat(levels)[k] in known
    ensures var left := Flat(MatchLoop(store, levels, t, seqno).levels);
            forall k :: 0 <= k < |left| ==> left[k] in known
  {
    LoopLeaves(store, levels, t, seqno);
    var r := MatchLoop(store, levels, t, seqno);
    forall k | 0 <= k < |Flat(r.levels)| ensures Flat(r.levels)[k] in known {
      LeftAt(r.store, Flat(levels), Flat(r.levels), k);
    }
  }

  lemma SubmittedParts(st: State, id: int, seqno: nat)
    requires Inv(st) && Legal(st, Submit(id, seqno))
    ensures var o := st.store[id];
            var r := MatchLoop(st.store, st.Levels(Opposite(o.side)), id, seqno);
            var st' := Submitted(st, id, seqno);
            id in r.store && st'.store == r.store && st'.tape == st.tape + r.trades
            && st'.next == st.next && st'.active == st.active && st'.submitted == st.submitted + {id}
            && st'.Levels(Opposite(o.side)) == r.levels
            && st'.Levels(o.side) == if r.store[id].Remaining() > 0
                                     then Insert(o.side, st.Levels(o.side), o.price, id) else st.Levels(o.side)
  {
    SubmitReady(st, id, seqno);
    LoopCredits(st.store, st.Levels(Opposite(st.store[id].side)), id, seqno, id);
  }

  lemma SubmitIds(st: State, id: int, seqno: nat)
    requires Inv(st) && Legal(st, Submit(id, seqno))
    ensures Ids(Submitted(st, id, seqno))
  {
    SubmitReady(st, id, seqno);
    LoopFrame(st.store, st.Levels(Opposite(st.store[id].side)), id, seqno);
  }

  lemma SubmitOpposite(st: State, id: int, seqno: nat)
    requires Inv(st) && Legal(st, Submit(id, seqno))
    ensures SideOk(Submitted(st, id, seqno), Opposite(st.store[id].side))
  {
    SubmitReady(st, id, seqno);
    SubmittedParts(st, id, seqno);
    var opp := st.Levels(Opposite(st.store[id].side));
    LoopMatchable(st.store, opp, id, seqno);
    LoopStops(st.store, opp, id, seqno);
    LoopFrame(st.store, opp, id, seqno);
    assert SideOk(st, Opposite(st.store[id].side));
    LoopMembers(st.store, opp, id, seqno, st.submitted);
  }

  /** Splicing an element into a list without repetitions. */
  lemma SplicedMembers(f: seq<int>, k: nat, id: int, g: seq<int>)
    requires k <= |f| && g == f[..k] + [id] + f[k..]
    ensures id in g && (forall i <- f :: i in g) && (forall i <- g :: i == id || i in f)
  {
    assert f == f[..k] + f[k..];
  }

  lemma SplicedAt(f: seq<int>, k: nat, id: int, g: seq<int>, j: nat)
    requires k <= |f| && g == f[..k] + [id] + f[k..] && j < |g|
    ensures g[j] == if j < k then f[j] else if j == k then id else f[j - 1]
  {
  }

  lemma SplicedQueued(store: Store, f: seq<int>, k: nat, id: int, g: seq<int>)
    requires k <= |f| && g == f[..k] + [id] + f[k..] && Queued(store, f) && id in store && id !in f
    ensures Queued(store, g)
  {
    forall j | 0 <= j < |g| ensures g[j] in store {
      SplicedAt(f, k, id, g, j);
    }
    forall i, j | 0 <= i < j < |g| ensures g[i] != g[j] {
      SplicedAt(f, k, id, g, i);
      SplicedAt(f, k, id, g, j);
    }
  }

  /** Posting a new order on its own side. */
  lemma PostKeepsSide(store: Store, s: Side, levels: seq<Level<int>>, id: int)
    requires Ladder(s, levels) && Housed(store, s, levels) && Queued(store, Flat(levels))
    requires id in store && store[id].side == s && id !in Flat(levels)
    ensures var r := Insert(s, levels, store[id].price, id);
            Ladder(s, r) && Housed(store, s, r) && Queued(store, Flat(r))
            && id in Flat(r) && (forall i <- Flat(levels) :: i in Flat(r))
            && (forall i <- Flat(r) :: i == id || i in Flat(levels))
  {
    var p := store[id].price;
    InsertLadder(s, levels, p, id);
    HousedInsert(store, s, levels, id);
    var k := InsertFlat(s, levels, p, id);
    SplicedMembers(Flat(levels), k, id, Flat(Insert(s, levels, p, id)));
    SplicedQueued(store, Flat(levels), k, id, Flat(Insert(s, levels, p, id)));
  }

  /** The taker's own side afterwards: as before, with what remains of the taker behind. */
  lemma OwnSide(st: State, id: int, seqno: nat)
    requires Inv(st) && Legal(st, Submit(id, seqno))
    ensures var s, st' := st.store[id].side, Submitted(st, id, seqno);
            var f, g := Flat(st.Levels(s)), Flat(st'.Levels(s));
            Ladder(s, st'.Levels(s)) && Housed(st'.store, s, st'.Levels(s)) && Queued(st'.store, g)
            && (forall i <- f :: i in g) && (forall i <- g :: i == id || i in f)
            && id in st'.store && (st'.store[id].Remaining() > 0 ==> id in g)
  {
    SubmitReady(st, id, seqno);
    var o := st.store[id];
    var st' := Submitted(st, id, seqno);
    LoopFrame(st.store, st.Levels(Opposite(o.side)), id, seqno);
    assert SideOk(st, o.side);
    Extended(st.store, st'.store, o.side, st.Levels(o.side));
    PostKeepsSide(st'.store, o.side, st.Levels(o.side), id);
  }

  lemma SubmitOwn(st: State, id: int, seqno: nat)
    requires Inv(st) && Legal(st, Submit(id, seqno))
    ensures SideOk(Submitted(st, id, seqno), st.store[id].side)
  {
    OwnSide(st, id, seqno);
    assert SideOk(st, st.store[id].side);
    AllIn(Flat(st.Levels(st.store[id].side)), Flat(Submitted(st, id, seqno).Levels(st.store[id].side)), id,
          st.submitted);
  }

  lemma AllIn(f: seq<int>, g: seq<int>, id: int, known: set<int>)
    requires (forall i <- g :: i == id || i in f) && forall k :: 0 <= k < |f| ==> f[k] in known
    ensures forall k :: 0 <= k < |g| ==> g[k] in known + {id}
  {
    forall k | 0 <= k < |g| ensures g[k] in known + {id} {
      assert g[k] in g;
      if g[k] != id {
        var j :| 0 <= j < |f| && f[j] == g[k];
      }
    }
  }

  /** A live order queued opposite stays queued. */
  lemma {:induction false} StaysQueued(store: Store, before: seq<int>, after: seq<int>, i: int)
    requires OnlyDeadLeft(store, before, after) && i in before && LiveIn(store, i)
    ensures i in after
    decreases before
  {
    if after != before { StaysQueued(store, before[1..], after, i); }
  }

  lemma SubmitTracksTaker(st: State, id: int, seqno: nat)
    requires Inv(st) && Legal(st, Submit(id, seqno))
    ensures var st' := Submitted(st, id, seqno);
            id in st'.store && (st'.store[id].Live() ==> id in st'.active && id in Flat(st'.Levels(st'.store[id].side)))
  {
    SubmitReady(st, id, seqno);
    var opp := st.Levels(Opposite(st.store[id].side));
    LoopFrame(st.store, opp, id, seqno);
    LoopCoherent(st.store, opp, id, seqno, id);
    OwnSide(st, id, seqno);
  }

  lemma StaysQueuedOpposite(st: State, id: int, seqno: nat, i: int)
    requires Inv(st) && Legal(st, Submit(id, seqno)) && i in Flat(st.Levels(Opposite(st.store[id].side)))
    requires LiveIn(Submitted(st, id, seqno).store, i)
    ensures i in Flat(Submitted(st, id, seqno).Levels(Opposite(st.store[id].side)))
  {
    SubmitReady(st, id, seqno);
    var opp := st.Levels(Opposite(st.store[id].side));
    LoopLeaves(st.store, opp, id, seqno);
    StaysQueued(Submitted(st, id, seqno).store, Flat(opp), Flat(MatchLoop(st.store, opp, id, seqno).levels), i);
  }

  lemma SubmitTracksOther(st: State, id: int, seqno: nat, i: int)
    requires Inv(st) && Legal(st, Submit(id, seqno)) && i in st.store && i != id
    ensures var st' := Submitted(st, id, seqno);
            i in st'.store && (st'.store[i].Live() ==>
              i in st'.active && (i in st'.submitted ==> i in Flat(st'.Levels(st'.store[i].side))))
  {
    SubmitReady(st, id, seqno);
    var side := st.store[id].side;
    var st' := Submitted(st, id, seqno);
    LoopFrame(st.store, st.Levels(Opposite(side)), id, seqno);
    if !st.store[i].Live() {
      LoopSparesDead(st.store, st.Levels(Opposite(side)), id, seqno, i);
    } else if i in st.submitted && st'.store[i].Live() {
      if st.store[i].side == side {
        OwnSide(st, id, seqno);
      } else {
        StaysQueuedOpposite(st, id, seqno, i);
      }
    }
  }

  lemma SubmitTracked(st: State, id: int, seqno: nat)
    requires Inv(st) && Legal(st, Submit(id, seqno))
    ensures Tracked(Submitted(st, id, seqno))
  {
    var st' := Submitted(st, id, seqno);
    SubmitIds(st, id, seqno);
    SubmitTracksTaker(st, id, seqno);
    forall i <- st'.store | i != id
      ensures st'.store[i].Live() ==>
                i in st'.active && (i in st'.submitted ==> i in Flat(st'.Levels(st'.store[i].side)))
    {
      SubmitTracksOther(st, id, seqno, i);
    }
  }

  lemma SubmitHistories(st: State, id: int, seqno: nat)
    requires Inv(st) && Legal(st, Submit(id, seqno))
    ensures Histories(Submitted(st, id, seqno))
  {
    SubmitReady(st, id, seqno);
    var opp := st.Levels(Opposite(st.store[id].side));
    var st' := Submitted(st, id, seqno);
    LoopFrame(st.store, opp, id, seqno);
    assert SideOk(st, Opposite(st.store[id].side));
    forall i <- st'.store ensures Coherent(st'.store[i]) && (i !in st'.submitted ==> st'.store[i].filled == 0) {
      LoopCoherent(st.store, opp, id, seqno, i);
    }
  }

  lemma InsertFront<T>(s: Side, levels: seq<Level<T>>, p: real, x: T)
    ensures var r := Insert(s, levels, p, x);
            r != []
            && (r[0].price == p || (levels != [] && r[0].price == levels[0].price && Better(s, levels[0].price, p)))
  {
  }

  /** The best opposite price afterwards is no better than it was. */
  lemma LoopFront(store: Store, s: Side, levels: seq<Level<int>>, t: int, seqno: nat)
    requires Matchable(store, levels, t) && Takeable(store, t) && Sound(store, Flat(levels))
    requires s == Opposite(store[t].side) && Housed(store, s, levels)
    ensures var left := MatchLoop(store, levels, t, seqno).levels;
            left != [] ==> levels != [] && !Better(s, left[0].price, levels[0].price)
  {
    LoopFrame(store, levels, t, seqno);
    LoopMatchable(store, levels, t, seqno);
    LoopStops(store, levels, t, seqno);
    LoopLeaves(store, levels, t, seqno);
    HousedOrders(store, s, levels);
    var r := MatchLoop(store, levels, t, seqno);
    if r.levels != [] {
      LeftAt(r.store, Flat(levels), Flat(r.levels), 0);
      assert r.levels[0].q[0] == Flat(r.levels)[0];
      assert r.levels[0].price == store[Flat(r.levels)[0]].price;
    }
  }

  lemma SubmitUncrossed(st: State, id: int, seqno: nat)
    requires Inv(st) && Legal(st, Submit(id, seqno))
    ensures Uncrossed(Submitted(st, id, seqno))
  {
    SubmitReady(st, id, seqno);
    var o := st.store[id];
    var opp := st.Levels(Opposite(o.side));
    LoopFrame(st.store, opp, id, seqno);
    LoopStops(st.store, opp, id, seqno);
    LoopFront(st.store, Opposite(o.side), opp, id, seqno);
    InsertFront(o.side, st.Levels(o.side), o.price, id);
  }

  lemma {:induction false} NamedAppend(a: seq<Trade>, b: seq<Trade>, i: int)
    ensures Named(a + b, i) == Named(a, i) + Named(b, i)
  {
    if a == [] {
      assert a + b == b;
    } else {
      assert (a + b)[1..] == a[1..] + b;
      NamedAppend(a[1..], b, i);
    }
  }

  lemma SubmitAudited(st: State, id: int, seqno: nat)
    requires Inv(st) && Legal(st, Submit(id, seqno))
    ensures Audited(Submitted(st, id, seqno))
  {
    SubmitReady(st, id, seqno);
    var opp := st.Levels(Opposite(st.store[id].side));
    var r := MatchLoop(st.store, opp, id, seqno);
    var st' := Submitted(st, id, seqno);
    LoopFrame(st.store, opp, id, seqno);
    LoopFair(st.store, opp, id, seqno);
    forall tr <- st'.tape ensures FairTrade(st'.store, tr) {
      assert FairTrade(st.store, tr);
    }
    forall i ensures Named(st'.tape, i) == if i in st'.store then st'.store[i].filled else 0 {
      NamedAppend(st.tape, r.trades, i);
      LoopCredits(st.store, opp, id, seqno, i);
    }
  }

  /** Every legal step keeps the invariant. */
  lemma StepKeepsInv(st: State, c: Command)
    requires Inv(st) && Legal(st, c)
    ensures Inv(Step(st, c))
  {
    match c
    case Place(_, _, _, _) => PlaceKeepsInv(st, c);
    case Cancel(_) => CancelKeepsInv(st, c);
    case Reap =>
    case Submit(id, seqno) =>
      SubmitIds(st, id, seqno);
      SubmitOpposite(st, id, seqno);
      SubmitOwn(st, id, seqno);
      SubmitTracked(st, id, seqno);
      SubmitHistories(st, id, seqno);
      SubmitUncrossed(st, id, seqno);
      SubmitAudited(st, id, seqno);
  }

  // ---------- runs ----------

  ghost predicate LegalRun(st: State, cmds: seq<Command>)
    requires Inv(st)
    decreases cmds
  {
    cmds == [] || (Legal(st, cmds[0]) && (StepKeepsInv(st, cmds[0]); LegalRun(Step(st, cmds[0]), cmds[1..])))
  }

  ghost function Run(st: State, cmds: seq<Command>): (st': State)
    requires Inv(st) && LegalRun(st, cmds)
    ensures Inv(st')
    decreases cmds
  {
    if cmds == [] then st
    else
      StepKeepsInv(st, cmds[0]);
      Run(Step(st, cmds[0]), cmds[1..])
  }

  lemma EmptyInv()
    ensures Inv(EMPTY)
  {
  }

  /** Runs from the empty exchange. */
  ghost predicate Possible(cmds: seq<Command>) {
    EmptyInv();
    LegalRun(EMPTY, cmds)
  }

  ghost function After(cmds: seq<Command>): State
    requires Possible(cmds)
  {
    EmptyInv();
    Run(EMPTY, cmds)
  }

  /** In every reachable state every bid, even a cancelled one still queued, is below every ask, and no level is
      empty. */
  lemma NeverCrossed(cmds: seq<Command>)
    requires Possible(cmds)
    ensures var st := After(cmds);
            (forall b <- st.bids, a <- st.asks :: b.price < a.price)
            && (forall l <- st.bids :: l.q != []) && (forall l <- st.asks :: l.q != [])
  {
    var st := After(cmds);
    assert SideOk(st, Buy) && SideOk(st, Sell);
    forall b <- st.bids, a <- st.asks ensures b.price < a.price {
      var i :| 0 <= i < |st.bids| && st.bids[i] == b;
      var j :| 0 <= j < |st.asks| && st.asks[j] == a;
      if i > 0 { LadderSorted(Buy, st.bids, 0, i); }
      if j > 0 { LadderSorted(Sell, st.asks, 0, j); }
    }
    forall l <- st.bids ensures l.q != [] {
      var i :| 0 <= i < |st.bids| && st.bids[i] == l;
      LadderQueueAt(Buy, st.bids, i);
    }
    forall l <- st.asks ensures l.q != [] {
      var i :| 0 <= i < |st.asks| && st.asks[i] == l;
      LadderQueueAt(Sell, st.asks, i);
    }
  }

  /** Units executed by the orders with ids below `n` on one side. */
  ghost function Executed(store: Store, s: Side, n: nat): int {
    if n == 0 then 0
    else (if n - 1 in store && store[n - 1].side == s then store[n - 1].filled else 0) + Executed(store, s, n - 1)
  }

  /** The share of the orders with ids below `n` on one side in a tape. */
  ghost function Share(store: Store, s: Side, n: nat, tape: seq<Trade>): int {
    if n == 0 then 0
    else (if n - 1 in store && store[n - 1].side == s then Named(tape, n - 1) else 0) + Share(store, s, n - 1, tape)
  }

  function Volume(tape: seq<Trade>): int {
    if tape == [] then 0 else tape[0].quantity + Volume(tape[1..])
  }

  lemma {:induction false} ShareEmpty(store: Store, s: Side, n: nat)
    ensures Share(store, s, n, []) == 0
  {
    if n > 0 { ShareEmpty(store, s, n - 1); }
  }

  lemma {:induction false} ShareStep(store: Store, s: Side, n: nat, tape: seq<Trade>)
    requires tape != [] && FairTrade(store, tape[0])
    ensures var i := if s == Buy then tape[0].buyId else tape[0].sellId;
            Share(store, s, n, tape) == (if 0 <= i < n then tape[0].quantity else 0) + Share(store, s, n, tape[1..])
  {
    if n > 0 { ShareStep(store, s, n - 1, tape); }
  }

  lemma {:induction false} ShareIsVolume(store: Store, s: Side, n: nat, tape: seq<Trade>)
    requires forall tr <- tape :: FairTrade(store, tr) && 0 <= tr.buyId < n && 0 <= tr.sellId < n
    ensures Share(store, s, n, tape) == Volume(tape)
  {
    if tape == [] {
      ShareEmpty(store, s, n);
    } else {
      ShareStep(store, s, n, tape);
      ShareIsVolume(store, s, n, tape[1..]);
    }
  }

  lemma {:induction false} ExecutedIsShare(store: Store, s: Side, n: nat, tape: seq<Trade>)
    requires forall i <- store :: store[i].filled == Named(tape, i)
    ensures Executed(store, s, n) == Share(store, s, n, tape)
  {
    if n > 0 { ExecutedIsShare(store, s, n - 1, tape); }
  }

  /** The tape accounts for every execution: order by order, and buyers against sellers. */
  lemma Conservation(cmds: seq<Command>)
    requires Possible(cmds)
    ensures var st := After(cmds);
            (forall i <- st.store :: 0 <= st.store[i].filled == Named(st.tape, i)
                                     && (st.store[i].filled <= st.store[i].quantity || st.store[i].filled == 0))
            && (forall tr <- st.tape :: FairTrade(st.store, tr))
            && Executed(st.store, Buy, st.next) == Volume(st.tape) == Executed(st.store, Sell, st.next)
  {
    var st := After(cmds);
    forall i <- st.store ensures 0 <= st.store[i].filled == Named(st.tape, i)
                                 && (st.store[i].filled <= st.store[i].quantity || st.store[i].filled == 0)
    {
      assert Coherent(st.store[i]);
    }
    forall tr <- st.tape ensures FairTrade(st.store, tr) && 0 <= tr.buyId < st.next && 0 <= tr.sellId < st.next {
      assert tr.buyId in st.store && tr.sellId in st.store;
    }
    ExecutedIsShare(st.store, Buy, st.next, st.tape);
    ExecutedIsShare(st.store, Sell, st.next, st.tape);
    ShareIsVolume(st.store, Buy, st.next, st.tape);
    ShareIsVolume(st.store, Sell, st.next, st.tape);
  }

  lemma TerminalStep(st: State, c: Command, i: int)
    requires Inv(st) && Legal(st, c) && i in st.store
    requires st.store[i].state == Filled || st.store[i].state == Cancelled
    ensures i in Step(st, c).store && Step(st, c).store[i] == st.store[i]
  {
    if c.Submit? {
      SubmitReady(st, c.id, c.seqno);
      LoopSparesDead(st.store, st.Levels(Opposite(st.store[c.id].side)), c.id, c.seqno, i);
    }
  }

  /** Filled and Cancelled are terminal: no later command changes such an order, and no later trade names it. */
  lemma {:induction false} TerminalForever(st: State, cmds: seq<Command>, i: int)
    requires Inv(st) && LegalRun(st, cmds) && i in st.store
    requires st.store[i].state == Filled || st.store[i].state == Cancelled
    ensures var st' := Run(st, cmds);
            i in st'.store && st'.store[i] == st.store[i] && Named(st'.tape, i) == Named(st.tape, i)
    decreases cmds
  {
    if cmds != [] {
      StepKeepsInv(st, cmds[0]);
      TerminalStep(st, cmds[0], i);
      TerminalForever(Step(st, cmds[0]), cmds[1..], i);
      assert Audited(st) && Audited(Step(st, cmds[0]));
    }
  }

  /** Reaping removes exactly the filled and the cancelled: an order that can still trade, in particular one resting
      in the book, stays known. */
  lemma ReapSparesLive(cmds: seq<Command>)
    requires Possible(cmds)
    ensures var st := After(cmds);
            (forall i <- st.store ::
               i in Step(st, Reap).active <==>
               i in st.active && st.store[i].state != Filled && st.store[i].state != Cancelled)
            && (forall s: Side, i <- Flat(st.Levels(s)) ::
                  i in st.store
                  && (st.store[i].state != Filled && st.store[i].state != Cancelled ==> i in Step(st, Reap).active))
  {
    var st := After(cmds);
    assert SideOk(st, Buy) && SideOk(st, Sell);
  }

  /** What the loop does with an order nothing of which has been executed yet. */
  lemma LoopOfNew(store: Store, levels: seq<Level<int>>, t: int, seqno: nat)
    requires Matchable(store, levels, t) && Takeable(store, t) && Sound(store, Flat(levels))
    requires Housed(store, Opposite(store[t].side), levels) && store[t].filled == 0
    ensures var o, quotes := store[t], Quotes(store, Flat(levels));
            var r := MatchLoop(store, levels, t, seqno);
            r.trades == Tape(o, t, Sweep(o.side, o.price, o.quantity, quotes), seqno)
            && Quotes(r.store, Flat(r.levels)) == Swept(o.side, o.price, o.quantity, quotes)
            && t in r.store && r.store[t].quantity == o.quantity
            && r.store[t].filled == Min(o.quantity, Crossable(o.side, o.price, quotes))
  {
    LoopIsSweep(store, levels, t, seqno);
    LoopTotal(store, levels, t, seqno);
    LoopCredits(store, levels, t, seqno, t);
  }

  /** A submission in a reachable state: the trades are those of the sweep over the live opposite orders, as much is
      executed as is crossable, and any remainder is last in its own queue, all other queues of that side unchanged. */
  lemma SubmissionMeaning(st: State, id: int, seqno: nat, p: real)
    requires Inv(st) && Legal(st, Submit(id, seqno))
    ensures var o := st.store[id];
            var st' := Submitted(st, id, seqno);
            var quotes := Quotes(st.store, Flat(st.Levels(Opposite(o.side))));
            st'.tape == st.tape + Tape(o, id, Sweep(o.side, o.price, o.quantity, quotes), seqno)
            && id in st'.store && st'.store[id].filled == Min(o.quantity, Crossable(o.side, o.price, quotes))
            && Quotes(st'.store, Flat(st'.Levels(Opposite(o.side)))) == Swept(o.side, o.price, o.quantity, quotes)
            && QueueAt(st'.Levels(o.side), p) ==
               QueueAt(st.Levels(o.side), p) + if p == o.price && st'.store[id].filled < o.quantity then [id] else []
  {
    SubmitReady(st, id, seqno);
    SubmittedParts(st, id, seqno);
    var o := st.store[id];
    assert SideOk(st, o.side);
    LoopOfNew(st.store, st.Levels(Opposite(o.side)), id, seqno);
    InsertQueues(o.side, st.Levels(o.side), o.price, id, p);
  }
}
