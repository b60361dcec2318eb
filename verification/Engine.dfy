/** The matching engine over either book, and the trade log it writes. */
module Engine {
  import opened Orders
  import opened PriceLevels
  import opened Matching
  import opened Books

  class TradeLogger {
    var buf: seq<Trade>

    constructor ()
      ensures buf == []
    {
      buf := [];
    }

    method Add(t: Trade)
      modifies this
      ensures buf == old(buf) + [t]
    {
      buf := buf + [t];
    }
  }

  /** The template argument of the engine: which book it runs on. */
  datatype Book = Tree(tree: OrderBook) | Vector(vector: FlatOrderBook) {

    function Obj(): object {
      match this case Tree(b) => b case Vector(b) => b
    }

    ghost function Levels(s: Side): seq<Level<Order>>
      reads Obj()
    {
      match this case Tree(b) => b.Levels(s) case Vector(b) => b.Levels(s)
    }

    ghost predicate Valid()
      reads Obj()
    {
      (Tree? ==> tree.Valid()) && Ladder(Buy, Levels(Buy)) && Ladder(Sell, Levels(Sell))
    }

    method Add(o: Order)
      requires Valid()
      modifies Obj()
      ensures Valid() && Levels(o.side) == Insert(o.side, old(Levels(o.side)), o.price, o)
      ensures Levels(Opposite(o.side)) == old(Levels(Opposite(o.side)))
    {
      InsertLadder(o.side, Levels(o.side), o.price, o);
      match this {
        case Tree(b) => b.Add(o);
        case Vector(b) => b.Add(o);
      }
    }

    method PruneFront(s: Side, ghost reg: Registry)
      requires Valid() && Held(reg, Levels(s))
      modifies Obj()
      ensures Valid() && View(Levels(s)) == Prune(StoreOf(reg), old(View(Levels(s)))) && Held(reg, Levels(s))
      ensures Levels(Opposite(s)) == old(Levels(Opposite(s)))
    {
      ghost var before := View(Levels(s));
      ViewLadder(s, Levels(s));
      PruneLadder(s, StoreOf(reg), before);
      match this {
        case Tree(b) => b.PruneFront(s, reg);
        case Vector(b) => b.PruneFront(s, reg);
      }
      ViewLadder(s, Levels(s));
    }

    method PopBest(s: Side)
      requires Valid()
      modifies Obj()
      ensures Valid() && Levels(s) == WithoutBest(old(Levels(s))) && Levels(Opposite(s)) == old(Levels(Opposite(s)))
    {
      match this {
        case Tree(b) => b.PopBest(s);
        case Vector(b) => b.PopBest(s);
      }
    }

    predicate Empty(s: Side)
      reads Obj()
    {
      match this case Tree(b) => b.Side(s) == map[] case Vector(b) => b.Levels(s) == []
    }

    lemma EmptyLevels(s: Side)
      requires Valid()
      ensures Empty(s) == (Levels(s) == [])
    {
      match this {
        case Tree(b) => BestKey(s, b.Side(s), b.Levels(s));
        case Vector(b) =>
      }
    }

    method Best(s: Side) returns (o: Order)
      requires Valid() && Levels(s) != []
      ensures Levels(s)[0].q != [] && o == Levels(s)[0].q[0]
    {
      match this {
        case Tree(b) =>
          BestKey(s, b.Side(s), b.Levels(s));
          var p := Begin(s, b.Side(s), b.Levels(s));
          o := b.Side(s)[p][0];
        case Vector(b) =>
          o := b.Levels(s)[0].q[0];
      }
    }
  }

  /** What is still to come completes what has been emitted. */
  ghost predicate Underway(goal: Outcome, store: Store, levels: seq<Level<int>>, t: int,
                           seqno: nat, emitted: seq<Trade>) {
    Matchable(store, levels, t)
    && var now := MatchLoop(store, levels, t, seqno); goal == Outcome(now.store, now.levels, emitted + now.trades)
  }

  lemma UnderwayTurn(goal: Outcome, store: Store, levels: seq<Level<int>>, t: int, seqno: nat, emitted: seq<Trade>)
    requires Underway(goal, store, levels, t, seqno, emitted) && store[t].Remaining() > 0 && levels != []
    ensures var o := OneTurn(store, levels, t, seqno);
            Matchable(o.store, o.levels, t) && |o.trades| <= 1
            && (if o.trades == [] then goal == Outcome(o.store, o.levels, emitted)
                else Underway(goal, o.store, o.levels, t, seqno, emitted + o.trades)
                     && (|Flat(o.levels)| < |Flat(levels)|
                         || (|Flat(o.levels)| == |Flat(levels)| && o.store[t].Remaining() < store[t].Remaining())))
  {
    LoopTurn(store, levels, t, seqno);
    assert emitted + [] == emitted;
    var o := OneTurn(store, levels, t, seqno);
    if o.trades != [] {
      var r := MatchLoop(o.store, o.levels, t, seqno);
      assert (emitted + o.trades) + r.trades == emitted + (o.trades + r.trades);
    }
  }

  lemma TapeGrows(a: seq<Trade>, b: seq<Trade>, c: seq<Trade>)
    ensures (a + b) + c == a + (b + c)
  {
  }

  class MatchingEngine {
    const book: Book
    const log: TradeLogger

    constructor (book: Book, log: TradeLogger)
      ensures this.book == book && this.log == log
    {
      this.book, this.log := book, log;
    }

    /** Book and registry speak of the same objects. */
    ghost predicate Ready(reg: Registry)
      reads book.Obj()
    {
      WellKeyed(reg) && book.Valid() && Held(reg, book.Levels(Buy)) && Held(reg, book.Levels(Sell))
    }

    /** Executes one trade between the taker and the best resting order. */
    method Execution(incoming: Order, resting: Order, seqno: nat, ghost reg: Registry)
      requires WellKeyed(reg) && incoming.id in reg && reg[incoming.id] == incoming
      requires resting.id in reg && reg[resting.id] == resting && resting != incoming
      modifies incoming, resting, log
      ensures var store := old(StoreOf(reg));
              StoreOf(reg) == Execute(store, incoming.id, resting.id)
              && log.buf == old(log.buf) + [Report(store[incoming.id], incoming.id, resting.id, resting.price,
                                                   Min(store[incoming.id].Remaining(), store[resting.id].Remaining()),
                                                   seqno)]
    {
      ghost var store := StoreOf(reg);
      var qty := Min(incoming.Remaining(), resting.Remaining());
      var px := resting.price;
      FillBoth(incoming, resting, qty, reg);
      var tr := Trade(if incoming.side == Buy then incoming.id else resting.id,
                      if incoming.side == Sell then incoming.id else resting.id, incoming.symbol, px, qty, seqno);
      label Filled:
      log.Add(tr);
      assert StoreOf(reg) == old@Filled(StoreOf(reg));
    }

    /** Both orders take the executed quantity and their new states. */
    method FillBoth(incoming: Order, resting: Order, qty: int, ghost reg: Registry)
      requires WellKeyed(reg) && incoming.id in reg && reg[incoming.id] == incoming
      requires resting.id in reg && reg[resting.id] == resting && resting != incoming
      modifies incoming, resting
      ensures var store := old(StoreOf(reg)); var i, m := incoming.id, resting.id;
              StoreOf(reg) == store[i := store[i].Fill(qty)][m := store[m].Fill(qty)]
    {
      incoming.filled := incoming.filled + qty;
      resting.filled := resting.filled + qty;
      incoming.state := if incoming.Remaining() == 0 then Filled else PartiallyFilled;
      resting.state := if resting.Remaining() == 0 then Filled else PartiallyFilled;
      ghost var store := old(StoreOf(reg));
      ghost var goal := store[incoming.id := store[incoming.id].Fill(qty)][resting.id := store[resting.id].Fill(qty)];
      forall i | i in reg && i in goal ensures reg[i].Snap() == goal[i] {
        assert reg[i].id == i;
      }
      StoreIs(reg, goal);
    }

    /** Prunes the side and reads its best order; null when nothing is left. */
    method Look(s: Side, ghost reg: Registry) returns (resting: Order?)
      requires Ready(reg)
      modifies book.Obj()
      ensures Ready(reg) && book.Levels(Opposite(s)) == old(book.Levels(Opposite(s)))
      ensures StoreOf(reg) == old(StoreOf(reg))
              && View(book.Levels(s)) == Prune(old(StoreOf(reg)), old(View(book.Levels(s))))
      ensures resting == null <==> book.Levels(s) == []
      ensures resting != null ==> book.Levels(s)[0].q != [] && resting == book.Levels(s)[0].q[0]
    {
      book.PruneFront(s, reg);
      book.EmptyLevels(s);
      if book.Empty(s) { return null; }
      resting := book.Best(s);
    }

    /** Executes against the best order of the side and pops it once it is exhausted. */
    method Strike(incoming: Order, resting: Order, seqno: nat, ghost reg: Registry)
      requires Ready(reg) && incoming.id in reg && reg[incoming.id] == incoming && resting != incoming
      requires var levels := book.Levels(Opposite(incoming.side));
               levels != [] && levels[0].q != [] && resting == levels[0].q[0]
      modifies incoming, resting, log, book.Obj()
      ensures Ready(reg) && book.Levels(incoming.side) == old(book.Levels(incoming.side))
      ensures resting.id in reg && reg[resting.id] == resting
      ensures var store := old(StoreOf(reg));
              StoreOf(reg) == Execute(store, incoming.id, resting.id)
              && log.buf == old(log.buf) + [Report(store[incoming.id], incoming.id, resting.id, resting.price,
                                                   Min(store[incoming.id].Remaining(), store[resting.id].Remaining()),
                                                   seqno)]
      ensures View(book.Levels(Opposite(incoming.side))) ==
              var v := old(View(book.Levels(Opposite(incoming.side))));
              if resting.Remaining() == 0 then WithoutBest(v) else v
    {
      var opp := Opposite(incoming.side);
      Execution(incoming, resting, seqno, reg);
      if resting.Remaining() == 0 {
        label L:
        ViewPop(reg, book.Levels(opp));
        book.PopBest(opp);
        assert StoreOf(reg) == old@L(StoreOf(reg));
      }
    }

    /** The body of the matching loop: prune, inspect the best order, trade with it if it crosses. */
    method Turn(incoming: Order, seqno: nat, ghost reg: Registry, ghost o: Outcome) returns (traded: bool)
      requires Ready(reg) && incoming.id in reg && reg[incoming.id] == incoming
      requires Matchable(StoreOf(reg), View(book.Levels(Opposite(incoming.side))), incoming.id)
      requires o == OneTurn(StoreOf(reg), View(book.Levels(Opposite(incoming.side))), incoming.id, seqno)
      modifies reg.Values, book.Obj(), log
      ensures Ready(reg) && book.Levels(incoming.side) == old(book.Levels(incoming.side))
      ensures StoreOf(reg) == o.store && View(book.Levels(Opposite(incoming.side))) == o.levels
      ensures log.buf == old(log.buf) + o.trades && traded == (o.trades != [])
    {
      var opp := Opposite(incoming.side);
      ghost var store := StoreOf(reg);
      PruneMatchable(store, View(book.Levels(opp)), incoming.id);
      var resting := Look(opp, reg);
      ghost var p := View(book.Levels(opp));
      if resting == null { return false; }
      assert p[0].q[0] == resting.id && store[resting.id] == resting.Snap();
      traded := if incoming.side == Buy then incoming.price >= resting.price else incoming.price <= resting.price;
      if traded {
        StrikeBest(incoming, resting, seqno, reg, o);
      }
    }

    /** The trading half of a turn. */
    method StrikeBest(incoming: Order, resting: Order, seqno: nat, ghost reg: Registry, ghost o: Outcome)
      requires Ready(reg) && incoming.id in reg && reg[incoming.id] == incoming
      requires resting != incoming && resting.id in reg
      requires var levels := book.Levels(Opposite(incoming.side));
               levels != [] && levels[0].q != [] && resting == levels[0].q[0]
      requires var store, p := StoreOf(reg), View(book.Levels(Opposite(incoming.side)));
               var n := Min(store[incoming.id].Remaining(), store[resting.id].Remaining());
               var store' := Execute(store, incoming.id, resting.id);
               p != [] && p[0].q != [] && p[0].q[0] == resting.id
               && o == Outcome(store', AfterTrade(store', p),
                               [Report(store[incoming.id], incoming.id, resting.id, store[resting.id].price, n, seqno)])
      modifies incoming, resting, log, book.Obj()
      ensures Ready(reg) && book.Levels(incoming.side) == old(book.Levels(incoming.side))
      ensures StoreOf(reg) == o.store && View(book.Levels(Opposite(incoming.side))) == o.levels
      ensures log.buf == old(log.buf) + o.trades
    {
      Strike(incoming, resting, seqno, reg);
      assert resting.Remaining() == o.store[resting.id].Remaining();
    }

    /** The matching loop. */
    method Match(incoming: Order, seqno: nat, ghost reg: Registry) returns (trades: nat)
      requires Ready(reg) && incoming.id in reg && reg[incoming.id] == incoming
      requires Matchable(StoreOf(reg), View(book.Levels(Opposite(incoming.side))), incoming.id)
      modifies reg.Values, book.Obj(), log
      ensures Ready(reg) && book.Levels(incoming.side) == old(book.Levels(incoming.side))
      ensures var out := MatchLoop(old(StoreOf(reg)), old(View(book.Levels(Opposite(incoming.side)))),
                                   incoming.id, seqno);
              StoreOf(reg) == out.store && View(book.Levels(Opposite(incoming.side))) == out.levels
              && log.buf == old(log.buf) + out.trades && trades == |out.trades|
    {
      trades := 0;
      var opp := Opposite(incoming.side);
      ghost var t, tape, own := incoming.id, log.buf, book.Levels(incoming.side);
      ghost var store, levels, emitted := StoreOf(reg), View(book.Levels(opp)), [];
      ghost var goal := MatchLoop(store, levels, t, seqno);
      book.EmptyLevels(opp);
      while incoming.Remaining() > 0 && !book.Empty(opp)
        invariant Ready(reg) && book.Levels(incoming.side) == own
        invariant StoreOf(reg) == store && View(book.Levels(opp)) == levels && book.Empty(opp) == (levels == [])
        invariant Underway(goal, store, levels, t, seqno, emitted)
        invariant log.buf == tape + emitted && trades == |emitted|
        decreases |Flat(levels)|, store[t].Remaining()
      {
        assert store[t] == incoming.Snap();
        UnderwayTurn(goal, store, levels, t, seqno, emitted);
        ghost var o := OneTurn(store, levels, t, seqno);
        var traded := Turn(incoming, seqno, reg, o);
        book.EmptyLevels(opp);
        TapeGrows(tape, emitted, o.trades);
        store, levels, emitted := o.store, o.levels, emitted + o.trades;
        if !traded { return; }
        trades := trades + 1;
      }
      assert store[t] == incoming.Snap();
    }

    /** Matches an incoming order and posts what remains of it. */
    method Submit(incoming: Order, seqno: nat, ghost reg: Registry) returns (trades: nat)
      requires Ready(reg) && incoming.id in reg && reg[incoming.id] == incoming
      requires Matchable(StoreOf(reg), View(book.Levels(Opposite(incoming.side))), incoming.id)
      modifies reg.Values, book.Obj(), log
      ensures Ready(reg)
      ensures var out := MatchLoop(old(StoreOf(reg)), old(View(book.Levels(Opposite(incoming.side)))),
                                   incoming.id, seqno);
              StoreOf(reg) == out.store && log.buf == old(log.buf) + out.trades && trades == |out.trades|
              && View(book.Levels(Opposite(incoming.side))) == out.levels
              && View(book.Levels(incoming.side)) ==
                 if incoming.Remaining() > 0
                 then Insert(incoming.side, old(View(book.Levels(incoming.side))), incoming.price, incoming.id)
                 else old(View(book.Levels(incoming.side)))
    {
      trades := Match(incoming, seqno, reg);
      Post(incoming, reg);
    }

    /** Adds the remainder, if any, to its own side. */
    method Post(incoming: Order, ghost reg: Registry)
      requires Ready(reg) && incoming.id in reg && reg[incoming.id] == incoming
      modifies book.Obj()
      ensures Ready(reg) && StoreOf(reg) == old(StoreOf(reg)) && log.buf == old(log.buf)
      ensures book.Levels(Opposite(incoming.side)) == old(book.Levels(Opposite(incoming.side)))
      ensures View(book.Levels(incoming.side)) ==
              if incoming.Remaining() > 0
              then Insert(incoming.side, old(View(book.Levels(incoming.side))), incoming.price, incoming.id)
              else old(View(book.Levels(incoming.side)))
    {
      if incoming.Remaining() <= 0 { return; }
      ViewInsert(incoming.side, book.Levels(incoming.side), incoming);
      HeldInsert(reg, incoming.side, book.Levels(incoming.side), incoming);
      book.Add(incoming);
      assert StoreOf(reg) == old(StoreOf(reg));
    }
  }
}
