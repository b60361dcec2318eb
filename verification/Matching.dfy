/** The matching loop as a function of values, and what it means: a sweep over the live orders of
    the opposite side in price-time priority. */
module Matching {
  import opened Orders
  import opened PriceLevels

  function Min(a: int, b: int): int {
    if a <= b then a else b
  }

  /** A taker on side `s` with limit `limit` accepts a maker's price. */
  predicate Crosses(s: Side, limit: real, maker: real) {
    if s == Buy then limit >= maker else limit <= maker
  }

  datatype Outcome = Outcome(store: Store, levels: seq<Level<int>>, trades: seq<Trade>)

  function Report(taker: Info, t: int, m: int, price: real, n: int, seqno: nat): Trade {
    Trade(if taker.side == Buy then t else m, if taker.side == Sell then t else m, taker.symbol, price, n, seqno)
  }

  /** Every queued order is registered and no order is queued twice. */
  ghost predicate Queued(store: Store, ids: seq<int>) {
    (forall k :: 0 <= k < |ids| ==> ids[k] in store) && (forall j, k :: 0 <= j < k < |ids| ==> ids[j] != ids[k])
  }

  /** Both orders executed for the smaller of their remaining quantities. */
  function Execute(store: Store, t: int, m: int): Store
    requires t in store && m in store
  {
    var n := Min(store[t].Remaining(), store[m].Remaining());
    store[t := store[t].Fill(n)][m := store[m].Fill(n)]
  }

  /** The best order leaves the book once nothing of it remains. */
  function AfterTrade(store: Store, levels: seq<Level<int>>): seq<Level<int>>
    requires levels != [] && levels[0].q != [] && levels[0].q[0] in store
  {
    if store[levels[0].q[0]].Remaining() == 0 then WithoutBest(levels) else levels
  }

  /** The order `t` may be matched against the `levels` of the opposite side. */
  ghost predicate Matchable(store: Store, levels: seq<Level<int>>, t: int) {
    t in store && Ladder(Opposite(store[t].side), levels) && Queued(store, Flat(levels)) && t !in Flat(levels)
  }

  /** One matching run of the order `t`: prune, look at the best order, trade, pop it once exhausted. */
  ghost function MatchLoop(store: Store, levels: seq<Level<int>>, t: int, seqno: nat): Outcome
    requires Matchable(store, levels, t)
    decreases |Flat(levels)|, store[t].Remaining()
  {
    if store[t].Remaining() <= 0 || levels == [] then Outcome(store, levels, [])
    else
      var p := Prune(store, levels);
      PruneMatchable(store, levels, t);
      if p == [] then Outcome(store, p, [])
      else
        var m := p[0].q[0];
        var taker, maker := store[t], store[m];
        if !Crosses(taker.side, taker.price, maker.price) then Outcome(store, p, [])
        else
          PopMatchable(store, p, t);
          var n := Min(taker.Remaining(), maker.Remaining());
          var store' := Execute(store, t, m);
          var r := MatchLoop(store', AfterTrade(store', p), t, seqno);
          r.(trades := [Report(taker, t, m, maker.price, n, seqno)] + r.trades)
  }

  /** The body of the loop: at most one trade. */
  ghost function OneTurn(store: Store, levels: seq<Level<int>>, t: int, seqno: nat): Outcome
    requires Matchable(store, levels, t)
  {
    var p := Prune(store, levels);
    PruneMatchable(store, levels, t);
    if p == [] || !Crosses(store[t].side, store[t].price, store[p[0].q[0]].price) then Outcome(store, p, [])
    else
      var m := p[0].q[0];
      var n := Min(store[t].Remaining(), store[m].Remaining());
      var store' := Execute(store, t, m);
      Outcome(store', AfterTrade(store', p), [Report(store[t], t, m, store[m].price, n, seqno)])
  }

  /** The loop is its body repeated until it trades no more. */
  lemma LoopTurn(store: Store, levels: seq<Level<int>>, t: int, seqno: nat)
    requires Matchable(store, levels, t) && store[t].Remaining() > 0 && levels != []
    ensures var o := OneTurn(store, levels, t, seqno);
            var r := MatchLoop(store, levels, t, seqno);
            Matchable(o.store, o.levels, t)
            && (if o.trades == [] then r == o
                else var r' := MatchLoop(o.store, o.levels, t, seqno); r == r'.(trades := o.trades + r'.trades))
            && (o.trades != [] ==>
                  |Flat(o.levels)| < |Flat(levels)|
                  || (|Flat(o.levels)| == |Flat(levels)| && o.store[t].Remaining() < store[t].Remaining()))
            && o.store[t].(filled := 0, state := New) == store[t].(filled := 0, state := New)
  {
    PruneMatchable(store, levels, t);
    var p := Prune(store, levels);
    if p != [] { PopMatchable(store, p, t); }
  }

  lemma PruneMatchable(store: Store, levels: seq<Level<int>>, t: int)
    requires Matchable(store, levels, t)
    ensures var p := Prune(store, levels);
            Matchable(store, p, t) && |Flat(p)| <= |Flat(levels)|
            && (p != [] ==> p[0].q != [] && p[0].q[0] == Flat(p)[0] && LiveIn(store, p[0].q[0]))
  {
    PruneLadder(Opposite(store[t].side), store, levels);
    FlatPrune(store, levels);
    DropDeadSuffix(store, Flat(levels));
  }

  lemma PopMatchable(store: Store, levels: seq<Level<int>>, t: int)
    requires Matchable(store, levels, t) && levels != []
    ensures Matchable(store, WithoutBest(levels), t)
    ensures levels[0].q[0] == Flat(levels)[0] && Flat(WithoutBest(levels)) == Flat(levels)[1..]
  {
    assert Flat(WithoutBest(levels)) == Flat(levels)[1..];
  }

  lemma {:induction false} FlatPrune(store: Store, levels: seq<Level<int>>)
    ensures Flat(Prune(store, levels)) == DropDead(store, Flat(levels))
  {
    if levels != [] {
      FlatPrune(store, levels[1..]);
      DropDeadAppend(store, levels[0].q, Flat(levels[1..]));
    }
  }

  lemma {:induction false} DropDeadAppend(store: Store, a: seq<int>, b: seq<int>)
    ensures DropDead(store, a + b) == if DropDead(store, a) == [] then DropDead(store, b) else DropDead(store, a) + b
  {
    if a == [] {
      assert a + b == b;
    } else if !LiveIn(store, a[0]) {
      assert (a + b)[1..] == a[1..] + b;
      DropDeadAppend(store, a[1..], b);
    }
  }

  lemma {:induction false} DropDeadSuffix(store: Store, q: seq<int>)
    ensures var d := DropDead(store, q); |d| <= |q| && d == q[|q| - |d|..]
  {
    if q != [] && !LiveIn(store, q[0]) { DropDeadSuffix(store, q[1..]); }
  }

  /** Only filled and cancelled orders are dropped, all of them from the front, up to one that can trade. */
  lemma {:induction false} DropDeadMeans(store: Store, q: seq<int>, k: nat)
    ensures var d := DropDead(store, q);
            |d| <= |q|
            && (k < |q| - |d| && q[k] in store ==> store[q[k]].state == Filled || store[q[k]].state == Cancelled)
            && (|q| - |d| <= k < |q| ==> d[k - (|q| - |d|)] == q[k])
            && (d != [] ==> d[0] in store && (store[d[0]].state == New || store[d[0]].state == PartiallyFilled))
  {
    if q != [] && !LiveIn(store, q[0]) { DropDeadMeans(store, q[1..], if k > 0 then k - 1 else 0); }
  }

  // ---------- what a run of the loop means ----------

  /** A live order as a taker sees it. */
  datatype Quote = Quote(id: int, price: real, left: int)

  /** The live orders among `ids`, in the same order. */
  function Quotes(store: Store, ids: seq<int>): seq<Quote> {
    if ids == [] then []
    else
      (if LiveIn(store, ids[0]) then [Quote(ids[0], store[ids[0]].price, store[ids[0]].Remaining())] else [])
      + Quotes(store, ids[1..])
  }

  datatype Fill = Fill(id: int, price: real, quantity: int)

  /** The executions of a taker for `left` units walking the quotes front to back at the makers' prices. */
  function Sweep(s: Side, limit: real, left: int, quotes: seq<Quote>): seq<Fill>
    decreases quotes
  {
    if left <= 0 || quotes == [] || !Crosses(s, limit, quotes[0].price) then []
    else
      var n := Min(left, quotes[0].left);
      [Fill(quotes[0].id, quotes[0].price, n)] + Sweep(s, limit, left - n, quotes[1..])
  }

  /** The quotes a sweep leaves behind. */
  function Swept(s: Side, limit: real, left: int, quotes: seq<Quote>): seq<Quote>
    decreases quotes
  {
    if left <= 0 || quotes == [] || !Crosses(s, limit, quotes[0].price) then quotes
    else if left < quotes[0].left then [quotes[0].(left := quotes[0].left - left)] + quotes[1..]
    else Swept(s, limit, left - quotes[0].left, quotes[1..])
  }

  function Tape(taker: Info, t: int, fills: seq<Fill>, seqno: nat): seq<Trade> {
    if fills == [] then []
    else [Report(taker, t, fills[0].id, fills[0].price, fills[0].quantity, seqno)] + Tape(taker, t, fills[1..], seqno)
  }

  /** Units traded under the name of order `i`. */
  function Named(trades: seq<Trade>, i: int): int {
    if trades == [] then 0
    else (if trades[0].buyId == i || trades[0].sellId == i then trades[0].quantity else 0) + Named(trades[1..], i)
  }

  function Total(fills: seq<Fill>): int {
    if fills == [] then 0 else fills[0].quantity + Total(fills[1..])
  }

  /** Units on offer at an acceptable price, wherever they stand in the queue. */
  function Crossable(s: Side, limit: real, quotes: seq<Quote>): int {
    if quotes == [] then 0
    else (if Crosses(s, limit, quotes[0].price) then quotes[0].left else 0) + Crossable(s, limit, quotes[1..])
  }

  /** The state an order's history allows. */
  predicate Coherent(o: Info) {
    match o.state
    case New => o.filled == 0
    case PartiallyFilled => 0 < o.filled < o.quantity
    case Filled => 0 < o.filled == o.quantity
    case Cancelled => o.filled == 0 || 0 < o.filled < o.quantity
  }

  /** Orders that may rest: coherent and asked for a positive quantity. */
  ghost predicate Sound(store: Store, ids: seq<int>) {
    forall k :: 0 <= k < |ids| ==> ids[k] in store && Coherent(store[ids[k]]) && store[ids[k]].quantity > 0
  }

  function Credit(o: Info, n: int): Info {
    if n == 0 then o else o.Fill(n)
  }

  /** Quoted are exactly the orders that are neither filled nor cancelled, with their price and what is left of them. */
  lemma {:induction false} QuotesMean(store: Store, ids: seq<int>, x: Quote)
    ensures x in Quotes(store, ids) <==>
            x.id in ids && x.id in store && store[x.id].state != Filled && store[x.id].state != Cancelled
            && x.price == store[x.id].price && x.left == store[x.id].quantity - store[x.id].filled
  {
    if ids != [] {
      QuotesMean(store, ids[1..], x);
      assert x.id in ids <==> x.id == ids[0] || x.id in ids[1..];
    }
  }

  lemma {:induction false} QuotesDropDead(store: Store, ids: seq<int>)
    ensures Quotes(store, DropDead(store, ids)) == Quotes(store, ids)
  {
    if ids != [] && !LiveIn(store, ids[0]) { QuotesDropDead(store, ids[1..]); }
  }

  lemma {:induction false} QuotesFrame(store: Store, store': Store, ids: seq<int>)
    requires forall k :: 0 <= k < |ids| ==> (ids[k] in store <==> ids[k] in store')
                                            && (ids[k] in store ==> store[ids[k]] == store'[ids[k]])
    ensures Quotes(store, ids) == Quotes(store', ids)
  {
    if ids != [] { QuotesFrame(store, store', ids[1..]); }
  }

  ghost predicate Takeable(store: Store, t: int) {
    t in store && Coherent(store[t]) && store[t].quantity > 0 && (store[t].Remaining() > 0 ==> store[t].Live())
  }

  /** One iteration: the front quote is consumed, or the taker is, and nothing else changes. */
  lemma ExecutionStep(store: Store, levels: seq<Level<int>>, t: int)
    requires Matchable(store, levels, t) && levels != [] && Takeable(store, t) && Sound(store, Flat(levels))
    requires LiveIn(store, levels[0].q[0]) && store[t].Remaining() > 0
    ensures var m := levels[0].q[0];
            var store' := Execute(store, t, m);
            var levels' := AfterTrade(store', levels);
            m in store && m != t && Matchable(store', levels', t) && Takeable(store', t) && Sound(store', Flat(levels'))
            && |Flat(levels')| <= |Flat(levels)|
            && (|Flat(levels')| == |Flat(levels)| ==> store'[t].Remaining() == 0)
  {
    PopMatchable(store, levels, t);
  }

  lemma ExecutionQuotes(store: Store, levels: seq<Level<int>>, t: int)
    requires Matchable(store, levels, t) && levels != [] && Takeable(store, t) && Sound(store, Flat(levels))
    requires LiveIn(store, levels[0].q[0]) && store[t].Remaining() > 0
    ensures var m := levels[0].q[0];
            var store' := Execute(store, t, m);
            var levels' := AfterTrade(store', levels);
            var qs := Quotes(store, Flat(levels));
            var left := store[t].Remaining();
            m in store && qs != [] && qs[0] == Quote(m, store[m].price, store[m].Remaining())
            && Quotes(store', Flat(levels')) ==
               if left < qs[0].left then [qs[0].(left := qs[0].left - left)] + qs[1..] else qs[1..]
  {
    PopMatchable(store, levels, t);
    var m := levels[0].q[0];
    var store' := Execute(store, t, m);
    var rest := Flat(levels)[1..];
    assert Queued(store, Flat(levels));
    QuotesFrame(store, store', rest);
    assert Quotes(store, Flat(levels)) == [Quote(m, store[m].price, store[m].Remaining())] + Quotes(store, rest);
    if store[t].Remaining() < store[m].Remaining() {
      assert AfterTrade(store', levels) == levels && LiveIn(store', m);
      assert Quotes(store', Flat(levels)) == [Quote(m, store[m].price, store'[m].Remaining())] + Quotes(store', rest);
    }
  }

  lemma PrunedSound(store: Store, levels: seq<Level<int>>, t: int)
    requires Matchable(store, levels, t) && Sound(store, Flat(levels))
    ensures var p := Prune(store, levels);
            Matchable(store, p, t) && Sound(store, Flat(p)) && |Flat(p)| <= |Flat(levels)|
            && Quotes(store, Flat(p)) == Quotes(store, Flat(levels))
            && (p != [] ==> p[0].q != [] && LiveIn(store, p[0].q[0]))
  {
    PruneMatchable(store, levels, t);
    FlatPrune(store, levels);
    QuotesDropDead(store, Flat(levels));
    DropDeadSuffix(store, Flat(levels));
  }

  /** One execution is one step of the sweep. */
  lemma SweepStep(s: Side, limit: real, left: int, quotes: seq<Quote>, rest: seq<Quote>)
    requires left > 0 && quotes != [] && quotes[0].left > 0 && Crosses(s, limit, quotes[0].price)
    requires rest ==
             if left < quotes[0].left then [quotes[0].(left := quotes[0].left - left)] + quotes[1..] else quotes[1..]
    ensures var n := Min(left, quotes[0].left);
            Sweep(s, limit, left, quotes) == [Fill(quotes[0].id, quotes[0].price, n)] + Sweep(s, limit, left - n, rest)
            && Swept(s, limit, left, quotes) == Swept(s, limit, left - n, rest)
  {
  }

  lemma TapeCons(o: Info, t: int, f: Fill, fills: seq<Fill>, seqno: nat)
    ensures Tape(o, t, [f] + fills, seqno) ==
            [Report(o, t, f.id, f.price, f.quantity, seqno)] + Tape(o, t, fills, seqno)
  {
    assert ([f] + fills)[1..] == fills;
  }

  /** One execution and the sweep of what it leaves are one sweep. */
  lemma SweepCons(o: Info, o': Info, t: int, left: int, quotes: seq<Quote>, rest: seq<Quote>, seqno: nat)
    requires left > 0 && quotes != [] && quotes[0].left > 0 && Crosses(o.side, o.price, quotes[0].price)
    requires o'.side == o.side && o'.symbol == o.symbol
    requires rest ==
             if left < quotes[0].left then [quotes[0].(left := quotes[0].left - left)] + quotes[1..] else quotes[1..]
    ensures var n := Min(left, quotes[0].left);
            [Report(o, t, quotes[0].id, quotes[0].price, n, seqno)]
              + Tape(o', t, Sweep(o.side, o.price, left - n, rest), seqno)
              == Tape(o, t, Sweep(o.side, o.price, left, quotes), seqno)
            && Swept(o.side, o.price, left - n, rest) == Swept(o.side, o.price, left, quotes)
  {
    var n := Min(left, quotes[0].left);
    var fills := Sweep(o.side, o.price, left - n, rest);
    SweepStep(o.side, o.price, left, quotes, rest);
    TapeCons(o, t, Fill(quotes[0].id, quotes[0].price, n), fills, seqno);
    TapeIgnoresFilled(o, o', t, fills, seqno);
  }

  /** What one execution and a sweep of what it leaves amount to. */
  lemma TradeIsSweep(store: Store, p: seq<Level<int>>, t: int, seqno: nat, trades: seq<Trade>, left: seq<Quote>)
    requires Matchable(store, p, t) && p != [] && Takeable(store, t) && Sound(store, Flat(p))
    requires LiveIn(store, p[0].q[0]) && store[t].Remaining() > 0
    requires Crosses(store[t].side, store[t].price, store[p[0].q[0]].price)
    requires var o, m := store[t], p[0].q[0];
             var store' := Execute(store, t, m);
             var rest := Quotes(store', Flat(AfterTrade(store', p)));
             trades == Tape(store'[t], t, Sweep(o.side, o.price, store'[t].Remaining(), rest), seqno)
             && left == Swept(o.side, o.price, store'[t].Remaining(), rest)
    ensures var o, m := store[t], p[0].q[0];
            var n := Min(o.Remaining(), store[m].Remaining());
            var quotes := Quotes(store, Flat(p));
            [Report(o, t, m, store[m].price, n, seqno)] + trades
              == Tape(o, t, Sweep(o.side, o.price, o.Remaining(), quotes), seqno)
            && left == Swept(o.side, o.price, o.Remaining(), quotes)
  {
    var o, m := store[t], p[0].q[0];
    ExecutionQuotes(store, p, t);
    ExecutedTaker(store, t, m);
    var store' := Execute(store, t, m);
    SweepCons(o, store'[t], t, o.Remaining(), Quotes(store, Flat(p)), Quotes(store', Flat(AfterTrade(store', p))),
              seqno);
  }

  lemma ExecutedTaker(store: Store, t: int, m: int)
    requires t in store && m in store && t != m
    ensures var n := Min(store[t].Remaining(), store[m].Remaining());
            var o := Execute(store, t, m)[t];
            o.Remaining() == store[t].Remaining() - n && o.side == store[t].side && o.symbol == store[t].symbol
  {
  }

  /** The best quote is not acceptable: the sweep does nothing. */
  lemma NoSweep(store: Store, p: seq<Level<int>>, t: int)
    requires Matchable(store, p, t) && p != [] && Takeable(store, t) && Sound(store, Flat(p))
    requires LiveIn(store, p[0].q[0]) && store[t].Remaining() > 0
    requires !Crosses(store[t].side, store[t].price, store[p[0].q[0]].price)
    ensures var o, quotes := store[t], Quotes(store, Flat(p));
            Sweep(o.side, o.price, o.Remaining(), quotes) == []
            && Swept(o.side, o.price, o.Remaining(), quotes) == quotes
  {
    ExecutionQuotes(store, p, t);
  }

  /** Price-time priority: the loop emits exactly the trades of the sweep over the live opposite orders. */
  lemma {:induction false} LoopIsSweep(store: Store, levels: seq<Level<int>>, t: int, seqno: nat)
    requires Matchable(store, levels, t) && Takeable(store, t) && Sound(store, Flat(levels))
    ensures var r := MatchLoop(store, levels, t, seqno);
            var o := store[t];
            r.trades == Tape(o, t, Sweep(o.side, o.price, o.Remaining(), Quotes(store, Flat(levels))), seqno)
            && Quotes(r.store, Flat(r.levels)) == Swept(o.side, o.price, o.Remaining(), Quotes(store, Flat(levels)))
    decreases |Flat(levels)|, store[t].Remaining()
  {
    var p, o := Prune(store, levels), store[t];
    if o.Remaining() > 0 && levels != [] {
      PrunedSound(store, levels, t);
      if p != [] {
        ExecutionStep(store, p, t);
        if Crosses(o.side, o.price, store[p[0].q[0]].price) {
          var store' := Execute(store, t, p[0].q[0]);
          LoopIsSweep(store', AfterTrade(store', p), t, seqno);
          var r := MatchLoop(store', AfterTrade(store', p), t, seqno);
          TradeIsSweep(store, p, t, seqno, r.trades, Quotes(r.store, Flat(r.levels)));
        } else {
          NoSweep(store, p, t);
        }
      }
    }
  }

  lemma {:induction false} TapeIgnoresFilled(a: Info, b: Info, t: int, fills: seq<Fill>, seqno: nat)
    requires a.side == b.side && a.symbol == b.symbol
    ensures Tape(a, t, fills, seqno) == Tape(b, t, fills, seqno)
  {
    if fills != [] { TapeIgnoresFilled(a, b, t, fills[1..], seqno); }
  }

  // ---------- how much is traded ----------

  /** Quotes in price priority of side `s`. */
  ghost predicate Ranked(s: Side, quotes: seq<Quote>) {
    forall i, j :: 0 <= i < j < |quotes| ==> !Better(s, quotes[j].price, quotes[i].price)
  }

  lemma {:induction false} NothingCrossable(s: Side, limit: real, quotes: seq<Quote>)
    requires forall k :: 0 <= k < |quotes| ==> !Crosses(s, limit, quotes[k].price)
    ensures Crossable(s, limit, quotes) == 0
  {
    if quotes != [] { NothingCrossable(s, limit, quotes[1..]); }
  }

  lemma {:induction false} CrossableNonNegative(s: Side, limit: real, quotes: seq<Quote>)
    requires forall k :: 0 <= k < |quotes| ==> quotes[k].left >= 0
    ensures Crossable(s, limit, quotes) >= 0
  {
    if quotes != [] { CrossableNonNegative(s, limit, quotes[1..]); }
  }

  /** A sweep executes all it can: the taker's quantity or everything on offer at acceptable prices. */
  lemma {:induction false} SweepTotal(s: Side, limit: real, left: int, quotes: seq<Quote>)
    requires Ranked(Opposite(s), quotes) && left >= 0
    requires forall k :: 0 <= k < |quotes| ==> quotes[k].left > 0
    ensures Total(Sweep(s, limit, left, quotes)) == Min(left, Crossable(s, limit, quotes))
    decreases quotes
  {
    CrossableNonNegative(s, limit, quotes);
    if quotes != [] && left > 0 {
      if Crosses(s, limit, quotes[0].price) {
        SweepTotal(s, limit, left - Min(left, quotes[0].left), quotes[1..]);
        CrossableNonNegative(s, limit, quotes[1..]);
      } else {
        NothingCrossable(s, limit, quotes);
      }
    }
  }

  /** Every queued order rests on side `s` at its own price. */
  ghost predicate Housed(store: Store, s: Side, levels: seq<Level<int>>) {
    levels == [] ||
    ((forall k :: 0 <= k < |levels[0].q| ==> levels[0].q[k] in store && store[levels[0].q[k]].side == s
                                             && store[levels[0].q[k]].price == levels[0].price)
     && Housed(store, s, levels[1..]))
  }

  lemma {:induction false} QuotesAppend(store: Store, a: seq<int>, b: seq<int>)
    ensures Quotes(store, a + b) == Quotes(store, a) + Quotes(store, b)
  {
    if a == [] {
      assert a + b == b;
    } else {
      assert (a + b)[1..] == a[1..] + b;
      QuotesAppend(store, a[1..], b);
    }
  }

  lemma {:induction false} QuotesAtPrice(store: Store, ids: seq<int>, p: real)
    requires forall k :: 0 <= k < |ids| ==> ids[k] in store && store[ids[k]].price == p
    ensures forall k :: 0 <= k < |Quotes(store, ids)| ==> Quotes(store, ids)[k].price == p
  {
    if ids != [] { QuotesAtPrice(store, ids[1..], p); }
  }

  lemma {:induction false} QuotesPositive(store: Store, ids: seq<int>)
    requires Sound(store, ids)
    ensures forall k :: 0 <= k < |Quotes(store, ids)| ==> Quotes(store, ids)[k].left > 0
  {
    if ids != [] { QuotesPositive(store, ids[1..]); }
  }

  /** The live orders of a side stand in price priority. */
  lemma {:induction false} LadderRanked(store: Store, s: Side, levels: seq<Level<int>>)
    requires Ladder(s, levels) && Housed(store, s, levels)
    ensures Ranked(s, Quotes(store, Flat(levels)))
    ensures forall k :: 0 <= k < |Quotes(store, Flat(levels))| ==>
                          !Better(s, Quotes(store, Flat(levels))[k].price, levels[0].price)
  {
    if levels != [] {
      LadderRanked(store, s, levels[1..]);
      QuotesAtPrice(store, levels[0].q, levels[0].price);
      QuotesAppend(store, levels[0].q, Flat(levels[1..]));
    }
  }

  /** The quantity executed by one run of the loop. */
  lemma LoopTotal(store: Store, levels: seq<Level<int>>, t: int, seqno: nat)
    requires Matchable(store, levels, t) && Takeable(store, t) && Sound(store, Flat(levels))
    requires Housed(store, Opposite(store[t].side), levels)
    ensures var o := store[t];
            Named(MatchLoop(store, levels, t, seqno).trades, t)
            == Min(o.Remaining(), Crossable(o.side, o.price, Quotes(store, Flat(levels))))
  {
    var o := store[t];
    var quotes := Quotes(store, Flat(levels));
    LoopIsSweep(store, levels, t, seqno);
    LadderRanked(store, Opposite(o.side), levels);
    QuotesPositive(store, Flat(levels));
    SweepTotal(o.side, o.price, o.Remaining(), quotes);
    TapeNamesTaker(o, t, Sweep(o.side, o.price, o.Remaining(), quotes), seqno);
  }

  lemma {:induction false} TapeNamesTaker(o: Info, t: int, fills: seq<Fill>, seqno: nat)
    ensures Named(Tape(o, t, fills, seqno), t) == Total(fills)
  {
    if fills != [] { TapeNamesTaker(o, t, fills[1..], seqno); }
  }

  // ---------- what one run leaves behind ----------

  /** A trade between two known orders, at a price both accept. */
  ghost predicate FairTrade(store: Store, tr: Trade) {
    tr.buyId in store && tr.sellId in store && tr.quantity > 0 && tr.buyId != tr.sellId
    && store[tr.buyId].side == Buy && store[tr.sellId].side == Sell
    && store[tr.sellId].price <= tr.price <= store[tr.buyId].price
  }

  /** The parts of an order that never change. */
  ghost predicate SameTerms(a: Store, b: Store) {
    (forall i :: i in a <==> i in b)
    && forall i :: i in a && i in b ==> a[i] == b[i].(filled := a[i].filled, state := a[i].state)
  }

  /** What pruning and one execution leave out of the queue was in it. */
  lemma QueueShrinks(store: Store, levels: seq<Level<int>>, t: int, i: int)
    requires Matchable(store, levels, t) && Prune(store, levels) != [] && i !in Flat(levels)
    ensures var p := Prune(store, levels);
            Matchable(store, p, t) && p[0].q != [] && i != p[0].q[0] && i !in Flat(p) && i !in Flat(WithoutBest(p))
  {
    PruneMatchable(store, levels, t);
    FlatPrune(store, levels);
    DropDeadSuffix(store, Flat(levels));
    PopMatchable(store, Prune(store, levels), t);
    assert Flat(Prune(store, levels))[0] in Flat(Prune(store, levels));
  }

  /** The orders the loop may touch are the taker and those queued opposite, and of those only what is filled. */
  lemma {:induction false} LoopTouches(store: Store, levels: seq<Level<int>>, t: int, seqno: nat, i: int)
    requires Matchable(store, levels, t) && Takeable(store, t) && Sound(store, Flat(levels))
    ensures var r := MatchLoop(store, levels, t, seqno);
            (i in store <==> i in r.store)
            && (i in store ==> store[i] == r.store[i].(filled := store[i].filled, state := store[i].state))
            && (i in store && i != t && i !in Flat(levels) ==> r.store[i] == store[i])
    decreases |Flat(levels)|, store[t].Remaining()
  {
    var p := Prune(store, levels);
    if store[t].Remaining() > 0 && levels != [] {
      PrunedSound(store, levels, t);
      if p != [] {
        ExecutionStep(store, p, t);
        if i !in Flat(levels) { QueueShrinks(store, levels, t, i); }
        if Crosses(store[t].side, store[t].price, store[p[0].q[0]].price) {
          var store' := Execute(store, t, p[0].q[0]);
          LoopTouches(store', AfterTrade(store', p), t, seqno, i);
        }
      }
    }
  }

  lemma LoopFrame(store: Store, levels: seq<Level<int>>, t: int, seqno: nat)
    requires Matchable(store, levels, t) && Takeable(store, t) && Sound(store, Flat(levels))
    ensures var r := MatchLoop(store, levels, t, seqno);
            SameTerms(store, r.store)
            && forall i :: i in store && i != t && i !in Flat(levels) ==> r.store[i] == store[i]
  {
    var r := MatchLoop(store, levels, t, seqno);
    forall i | true
      ensures (i in store <==> i in r.store)
      ensures i in store ==> store[i] == r.store[i].(filled := store[i].filled, state := store[i].state)
      ensures i in store && i != t && i !in Flat(levels) ==> r.store[i] == store[i]
    {
      LoopTouches(store, levels, t, seqno, i);
    }
  }

  lemma NamedCons(tr: Trade, trades: seq<Trade>, i: int)
    ensures Named([tr] + trades, i) == (if tr.buyId == i || tr.sellId == i then tr.quantity else 0) + Named(trades, i)
  {
    assert ([tr] + trades)[1..] == trades;
  }

  /** One execution credits its quantity to the two orders it names. */
  lemma CreditOne(store: Store, t: int, m: int, seqno: nat, i: int, k: int)
    requires t in store && m in store && t != m && store[t].Remaining() > 0 && store[m].Remaining() > 0 && k >= 0
    ensures var n := Min(store[t].Remaining(), store[m].Remaining());
            var tr := Report(store[t], t, m, store[m].price, n, seqno);
            var c := if tr.buyId == i || tr.sellId == i then tr.quantity else 0;
            c >= 0 && (i in store ==> Credit(Execute(store, t, m)[i], k) == Credit(store[i], c + k))
            && (i !in store ==> c == 0)
  {
  }

  /** Each order's execution is exactly what the tape says of it. */
  lemma {:induction false} LoopCredits(store: Store, levels: seq<Level<int>>, t: int, seqno: nat, i: int)
    requires Matchable(store, levels, t) && Takeable(store, t) && Sound(store, Flat(levels))
    ensures var r := MatchLoop(store, levels, t, seqno);
            Named(r.trades, i) >= 0
            && (if i in store then i in r.store && r.store[i] == Credit(store[i], Named(r.trades, i))
                else Named(r.trades, i) == 0)
    decreases |Flat(levels)|, store[t].Remaining()
  {
    var p := Prune(store, levels);
    if store[t].Remaining() > 0 && levels != [] {
      PrunedSound(store, levels, t);
      if p != [] && Crosses(store[t].side, store[t].price, store[p[0].q[0]].price) {
        var m := p[0].q[0];
        ExecutionStep(store, p, t);
        var store' := Execute(store, t, m);
        var n := Min(store[t].Remaining(), store[m].Remaining());
        LoopCredits(store', AfterTrade(store', p), t, seqno, i);
        var r := MatchLoop(store', AfterTrade(store', p), t, seqno);
        NamedCons(Report(store[t], t, m, store[m].price, n, seqno), r.trades, i);
        CreditOne(store, t, m, seqno, i, Named(r.trades, i));
      }
    }
  }

  /** A filled or cancelled order is never touched, queued or not. */
  lemma {:induction false} LoopSparesDead(store: Store, levels: seq<Level<int>>, t: int, seqno: nat, i: int)
    requires Matchable(store, levels, t) && Takeable(store, t) && Sound(store, Flat(levels))
    requires i in store && i != t && (store[i].state == Filled || store[i].state == Cancelled)
    ensures var r := MatchLoop(store, levels, t, seqno); i in r.store && r.store[i] == store[i]
    decreases |Flat(levels)|, store[t].Remaining()
  {
    var p := Prune(store, levels);
    if store[t].Remaining() > 0 && levels != [] {
      PrunedSound(store, levels, t);
      if p != [] && Crosses(store[t].side, store[t].price, store[p[0].q[0]].price) {
        ExecutionStep(store, p, t);
        var store' := Execute(store, t, p[0].q[0]);
        LoopSparesDead(store', AfterTrade(store', p), t, seqno, i);
      }
    }
  }

  /** What a trade of the taker `t` says: it stands for `t` on its own side and for a resting order of `ids` on the
      other, still unfilled and not cancelled, at that order's price, under the taker's symbol and the run's number. */
  ghost predicate StruckBy(store: Store, ids: seq<int>, t: int, seqno: nat, tr: Trade)
    requires t in store
  {
    var m := if store[t].side == Buy then tr.sellId else tr.buyId;
    t == (if store[t].side == Buy then tr.buyId else tr.sellId)
    && m in ids && m in store && m != t && (store[m].state == New || store[m].state == PartiallyFilled)
    && tr.price == store[m].price && 0 < tr.quantity <= store[m].quantity - store[m].filled
    && tr.symbol == store[t].symbol && tr.seqno == seqno
  }

  /** The maker of the first trade is the front of the pruned side. */
  lemma StruckOne(store: Store, p: seq<Level<int>>, t: int, seqno: nat)
    requires Matchable(store, p, t) && p != [] && Takeable(store, t) && Sound(store, Flat(p))
    requires p[0].q != [] && LiveIn(store, p[0].q[0]) && store[t].Remaining() > 0
    ensures var m := p[0].q[0];
            var n := Min(store[t].Remaining(), store[m].Remaining());
            StruckBy(store, Flat(p), t, seqno, Report(store[t], t, m, store[m].price, n, seqno))
  {
    assert p[0].q[0] == Flat(p)[0];
  }

  /** Whoever trades after an execution could have traded before it. */
  lemma StruckBefore(store: Store, p: seq<Level<int>>, t: int, seqno: nat, tr: Trade)
    requires Matchable(store, p, t) && p != [] && Takeable(store, t) && Sound(store, Flat(p))
    requires p[0].q != [] && LiveIn(store, p[0].q[0]) && store[t].Remaining() > 0
    requires var store' := Execute(store, t, p[0].q[0]);
             StruckBy(store', Flat(AfterTrade(store', p)), t, seqno, tr)
    ensures StruckBy(store, Flat(p), t, seqno, tr)
  {
    PopMatchable(store, p, t);
  }

  lemma StruckAmong(store: Store, ids: seq<int>, front: nat, t: int, seqno: nat, tr: Trade)
    requires t in store && front <= |ids| && StruckBy(store, ids[front..], t, seqno, tr)
    ensures StruckBy(store, ids, t, seqno, tr)
  {
  }

  /** A loop that trades at all has a live front that the taker accepts; its trades are that one and the loop's
      after it. */
  lemma TradesAt(store: Store, levels: seq<Level<int>>, t: int, seqno: nat)
    requires Matchable(store, levels, t) && MatchLoop(store, levels, t, seqno).trades != []
    ensures var p := Prune(store, levels);
            Matchable(store, p, t) && p != [] && p[0].q != [] && LiveIn(store, p[0].q[0])
            && store[t].Remaining() > 0 && levels != []
            && var m, store' := p[0].q[0], Execute(store, t, p[0].q[0]);
               Matchable(store', AfterTrade(store', p), t)
               && MatchLoop(store, levels, t, seqno).trades
                  == [Report(store[t], t, m, store[m].price, Min(store[t].Remaining(), store[m].Remaining()), seqno)]
                     + MatchLoop(store', AfterTrade(store', p), t, seqno).trades
  {
    PruneMatchable(store, levels, t);
    var p := Prune(store, levels);
    if p != [] { PopMatchable(store, p, t); }
  }

  lemma StruckPruned(store: Store, levels: seq<Level<int>>, t: int, seqno: nat, tr: Trade)
    requires t in store && StruckBy(store, Flat(Prune(store, levels)), t, seqno, tr)
    ensures StruckBy(store, Flat(levels), t, seqno, tr)
  {
    FlatPrune(store, levels);
    DropDeadSuffix(store, Flat(levels));
    StruckAmong(store, Flat(levels), |Flat(levels)| - |Flat(Prune(store, levels))|, t, seqno, tr);
  }

  /** The loop after its first trade starts from a sound state again. */
  lemma NextSound(store: Store, levels: seq<Level<int>>, t: int, seqno: nat)
    requires Matchable(store, levels, t) && Takeable(store, t) && Sound(store, Flat(levels))
    requires MatchLoop(store, levels, t, seqno).trades != []
    ensures var p := Prune(store, levels);
            p != [] && p[0].q != [] && p[0].q[0] in store
            && var store' := Execute(store, t, p[0].q[0]);
               p[0].q[0] in store' && Matchable(store', AfterTrade(store', p), t) && Takeable(store', t)
               && Sound(store', Flat(AfterTrade(store', p)))
  {
    TradesAt(store, levels, t, seqno);
    PrunedSound(store, levels, t);
    ExecutionStep(store, Prune(store, levels), t);
  }

  lemma FirstStrike(store: Store, levels: seq<Level<int>>, t: int, seqno: nat)
    requires Matchable(store, levels, t) && Takeable(store, t) && Sound(store, Flat(levels))
    requires MatchLoop(store, levels, t, seqno).trades != []
    ensures StruckBy(store, Flat(levels), t, seqno, MatchLoop(store, levels, t, seqno).trades[0])
  {
    TradesAt(store, levels, t, seqno);
    PrunedSound(store, levels, t);
    StruckOne(store, Prune(store, levels), t, seqno);
    StruckPruned(store, levels, t, seqno, MatchLoop(store, levels, t, seqno).trades[0]);
  }

  lemma LaterStrike(store: Store, levels: seq<Level<int>>, t: int, seqno: nat, tr: Trade)
    requires Matchable(store, levels, t) && Takeable(store, t) && Sound(store, Flat(levels))
    requires MatchLoop(store, levels, t, seqno).trades != []
    requires var p := Prune(store, levels);
             p != [] && p[0].q != [] && p[0].q[0] in store
             && var store' := Execute(store, t, p[0].q[0]);
                StruckBy(store', Flat(AfterTrade(store', p)), t, seqno, tr)
    ensures StruckBy(store, Flat(levels), t, seqno, tr)
  {
    TradesAt(store, levels, t, seqno);
    PrunedSound(store, levels, t);
    StruckBefore(store, Prune(store, levels), t, seqno, tr);
    StruckPruned(store, levels, t, seqno, tr);
  }

  lemma FirstAndLater(store: Store, ids: seq<int>, t: int, seqno: nat, later: seq<Trade>, trades: seq<Trade>)
    requires t in store && trades != [] && trades[1..] == later && StruckBy(store, ids, t, seqno, trades[0])
    requires forall tr <- later :: StruckBy(store, ids, t, seqno, tr)
    ensures forall tr <- trades :: StruckBy(store, ids, t, seqno, tr)
  {
    assert trades == [trades[0]] + later;
  }

  /** Every trade of a run is struck with an order that was resting, unfilled and not cancelled, before the run. */
  lemma {:induction false} LoopStrikes(store: Store, levels: seq<Level<int>>, t: int, seqno: nat)
    requires Matchable(store, levels, t) && Takeable(store, t) && Sound(store, Flat(levels))
    ensures forall tr <- MatchLoop(store, levels, t, seqno).trades :: StruckBy(store, Flat(levels), t, seqno, tr)
    decreases |MatchLoop(store, levels, t, seqno).trades|
  {
    var trades := MatchLoop(store, levels, t, seqno).trades;
    if trades != [] {
      FirstStrike(store, levels, t, seqno);
      NextSound(store, levels, t, seqno);
      TradesAt(store, levels, t, seqno);
      var p := Prune(store, levels);
      var store' := Execute(store, t, p[0].q[0]);
      LoopStrikes(store', AfterTrade(store', p), t, seqno);
      var later := MatchLoop(store', AfterTrade(store', p), t, seqno).trades;
      forall tr <- later ensures StruckBy(store, Flat(levels), t, seqno, tr) {
        LaterStrike(store, levels, t, seqno, tr);
      }
      FirstAndLater(store, Flat(levels), t, seqno, later, trades);
    }
  }

  /** `i` stands before `j` in the queue. */
  ghost predicate Before(ids: seq<int>, i: int, j: int) {
    ids != [] && (if ids[0] == i then j in ids[1..] else Before(ids[1..], i, j))
  }

  lemma {:induction false} BeforeDropped(store: Store, ids: seq<int>, i: int, j: int)
    requires Before(ids, i, j) && LiveIn(store, i)
    ensures Before(DropDead(store, ids), i, j)
  {
    if !LiveIn(store, ids[0]) { BeforeDropped(store, ids[1..], i, j); }
  }

  lemma {:induction false} BeforeMembers(ids: seq<int>, i: int, j: int)
    requires Before(ids, i, j)
    ensures i in ids && j in ids
  {
    if ids[0] != i { BeforeMembers(ids[1..], i, j); }
  }

  /** Once the taker is exhausted nobody is named any more. */
  lemma LoopIdle(store: Store, levels: seq<Level<int>>, t: int, seqno: nat, j: int)
    requires Matchable(store, levels, t) && store[t].Remaining() <= 0
    ensures Named(MatchLoop(store, levels, t, seqno).trades, j) == 0
  {
  }

  /** The front of the queue trades; `i` is the front, or is as it was and still before `j`. */
  lemma PriorityTurn(store: Store, p: seq<Level<int>>, t: int, i: int, j: int)
    requires Matchable(store, p, t) && p != [] && p[0].q != [] && Takeable(store, t) && Sound(store, Flat(p))
    requires Before(Flat(p), i, j) && LiveIn(store, p[0].q[0]) && store[t].Remaining() > 0
    ensures var m := p[0].q[0];
            var store' := Execute(store, t, m);
            j != t && j != m && i != t
            && (if i == m then store'[i].state == Filled || store'[t].Remaining() <= 0
                else i in store' && store'[i] == store[i] && Before(Flat(AfterTrade(store', p)), i, j))
  {
    PopMatchable(store, p, t);
    BeforeMembers(Flat(p), i, j);
    BeforeMembersTail(Flat(p), i, j);
  }

  lemma BeforeMembersTail(ids: seq<int>, i: int, j: int)
    requires Before(ids, i, j)
    ensures j in ids[1..] && (i != ids[0] ==> i in ids[1..])
  {
    if ids[0] != i { BeforeMembers(ids[1..], i, j); }
  }

  /** Price-time priority, order by order: when `j` trades, an order before it in the queue that could trade is
      executed in full. */
  lemma {:induction false} LoopPriority(store: Store, levels: seq<Level<int>>, t: int, seqno: nat, i: int, j: int)
    requires Matchable(store, levels, t) && Takeable(store, t) && Sound(store, Flat(levels))
    requires Before(Flat(levels), i, j) && i in store
    requires store[i].state == New || store[i].state == PartiallyFilled
    requires Named(MatchLoop(store, levels, t, seqno).trades, j) > 0
    ensures var r := MatchLoop(store, levels, t, seqno);
            i in r.store && r.store[i].state == Filled && r.store[i].filled == r.store[i].quantity
    decreases |Flat(levels)|, store[t].Remaining()
  {
    var p := Prune(store, levels);
    PrunedSound(store, levels, t);
    FlatPrune(store, levels);
    BeforeDropped(store, Flat(levels), i, j);
    PriorityTurn(store, p, t, i, j);
    ExecutionStep(store, p, t);
    var m, store' := p[0].q[0], Execute(store, t, p[0].q[0]);
    var levels', n := AfterTrade(store', p), Min(store[t].Remaining(), store[m].Remaining());
    NamedCons(Report(store[t], t, m, store[m].price, n, seqno), MatchLoop(store', levels', t, seqno).trades, j);
    if i != m {
      LoopPriority(store', levels', t, seqno, i, j);
    } else if store'[i].state == Filled {
      LoopSparesDead(store', levels', t, seqno, i);
    } else {
      LoopIdle(store', levels', t, seqno, j);
    }
  }

  lemma {:induction false} LoopCoherent(store: Store, levels: seq<Level<int>>, t: int, seqno: nat, i: int)
    requires Matchable(store, levels, t) && Takeable(store, t) && Sound(store, Flat(levels))
    requires i in store && Coherent(store[i])
    ensures var r := MatchLoop(store, levels, t, seqno); i in r.store && Coherent(r.store[i])
    decreases |Flat(levels)|, store[t].Remaining()
  {
    var p := Prune(store, levels);
    if store[t].Remaining() > 0 && levels != [] {
      PrunedSound(store, levels, t);
      if p != [] && Crosses(store[t].side, store[t].price, store[p[0].q[0]].price) {
        ExecutionStep(store, p, t);
        var store' := Execute(store, t, p[0].q[0]);
        LoopCoherent(store', AfterTrade(store', p), t, seqno, i);
      }
    }
  }

  lemma FairFrame(store: Store, store': Store, trades: seq<Trade>)
    requires SameTerms(store, store') && forall tr <- trades :: FairTrade(store', tr)
    ensures forall tr <- trades :: FairTrade(store, tr)
  {
    forall tr <- trades ensures FairTrade(store, tr) { assert FairTrade(store', tr); }
  }

  lemma FairOne(store: Store, p: seq<Level<int>>, t: int, seqno: nat)
    requires Matchable(store, p, t) && p != [] && Takeable(store, t) && Sound(store, Flat(p))
    requires Housed(store, Opposite(store[t].side), p) && p[0].q != [] && LiveIn(store, p[0].q[0])
    requires store[t].Remaining() > 0 && Crosses(store[t].side, store[t].price, store[p[0].q[0]].price)
    ensures var m := p[0].q[0];
            var n := Min(store[t].Remaining(), store[m].Remaining());
            FairTrade(store, Report(store[t], t, m, store[m].price, n, seqno))
  {
    PopMatchable(store, p, t);
  }

  /** Every trade is struck between a buyer and a seller at a price inside both limits. */
  lemma {:induction false} LoopFair(store: Store, levels: seq<Level<int>>, t: int, seqno: nat)
    requires Matchable(store, levels, t) && Takeable(store, t) && Sound(store, Flat(levels))
    requires Housed(store, Opposite(store[t].side), levels)
    ensures forall tr <- MatchLoop(store, levels, t, seqno).trades :: FairTrade(store, tr)
    decreases |Flat(levels)|, store[t].Remaining()
  {
    var p := Prune(store, levels);
    if store[t].Remaining() > 0 && levels != [] {
      PrunedSound(store, levels, t);
      PrunedHoused(store, Opposite(store[t].side), levels);
      if p != [] && Crosses(store[t].side, store[t].price, store[p[0].q[0]].price) {
        var m := p[0].q[0];
        ExecutionStep(store, p, t);
        var store' := Execute(store, t, m);
        HousedFrame(store, store', Opposite(store[t].side), p);
        PopHoused(store', Opposite(store[t].side), p);
        LoopFair(store', AfterTrade(store', p), t, seqno);
        FairFrame(store, store', MatchLoop(store', AfterTrade(store', p), t, seqno).trades);
        FairOne(store, p, t, seqno);
      }
    }
  }

  lemma {:induction false} PrunedHoused(store: Store, s: Side, levels: seq<Level<int>>)
    requires Housed(store, s, levels)
    ensures Housed(store, s, Prune(store, levels))
  {
    if levels != [] {
      DropDeadSuffix(store, levels[0].q);
      PrunedHoused(store, s, levels[1..]);
    }
  }

  lemma {:induction false} HousedFrame(store: Store, store': Store, s: Side, levels: seq<Level<int>>)
    requires Housed(store, s, levels) && SameTerms(store, store')
    ensures Housed(store', s, levels)
  {
    if levels != [] {
      HousedFrame(store, store', s, levels[1..]);
      assert forall i :: i in store ==>
                           i in store' && store'[i].side == store[i].side && store'[i].price == store[i].price;
    }
  }

  lemma PopHoused(store: Store, s: Side, levels: seq<Level<int>>)
    requires Housed(store, s, levels)
    ensures Housed(store, s, WithoutBest(levels))
  {
  }

  /** Only dead orders have left, from the front of the queue. */
  ghost predicate OnlyDeadLeft(store: Store, before: seq<int>, after: seq<int>)
    decreases before
  {
    after == before || (before != [] && !LiveIn(store, before[0]) && OnlyDeadLeft(store, before[1..], after))
  }

  /** Whoever is still queued was queued before, at the same place from the back. */
  lemma {:induction false} LeftAt(store: Store, before: seq<int>, after: seq<int>, k: nat)
    requires OnlyDeadLeft(store, before, after) && k < |after|
    ensures |after| <= |before| && after[k] == before[|before| - |after| + k]
    decreases before
  {
    if after != before { LeftAt(store, before[1..], after, k); }
  }

  /** The opposite side afterwards is as well formed as before. */
  lemma {:induction false} LoopMatchable(store: Store, levels: seq<Level<int>>, t: int, seqno: nat)
    requires Matchable(store, levels, t) && Takeable(store, t) && Sound(store, Flat(levels))
    ensures var r := MatchLoop(store, levels, t, seqno);
            Matchable(r.store, r.levels, t) && Takeable(r.store, t) && Sound(r.store, Flat(r.levels))
    decreases |Flat(levels)|, store[t].Remaining()
  {
    var p := Prune(store, levels);
    if store[t].Remaining() > 0 && levels != [] {
      PrunedSound(store, levels, t);
      if p != [] && Crosses(store[t].side, store[t].price, store[p[0].q[0]].price) {
        ExecutionStep(store, p, t);
        var store' := Execute(store, t, p[0].q[0]);
        LoopMatchable(store', AfterTrade(store', p), t, seqno);
      }
    }
  }

  /** One turn of the loop discards only dead orders, and those it discards stay dead to the end. */
  lemma TurnLeaves(store: Store, levels: seq<Level<int>>, t: int, seqno: nat)
    requires Matchable(store, levels, t) && Takeable(store, t) && Sound(store, Flat(levels)) && store[t].Remaining() > 0
    requires Matchable(store, Prune(store, levels), t) && Sound(store, Flat(Prune(store, levels)))
    requires var p := Prune(store, levels); p != [] && p[0].q != [] && LiveIn(store, p[0].q[0])
    requires var p := Prune(store, levels); var store' := Execute(store, t, p[0].q[0]);
             Matchable(store', AfterTrade(store', p), t) && Takeable(store', t)
             && Sound(store', Flat(AfterTrade(store', p)))
    ensures var p := Prune(store, levels); var store' := Execute(store, t, p[0].q[0]);
            OnlyDeadLeft(MatchLoop(store', AfterTrade(store', p), t, seqno).store,
                         Flat(levels), Flat(AfterTrade(store', p)))
  {
    var p := Prune(store, levels);
    FlatPrune(store, levels);
    DropDeadOnlyDead(store, Flat(levels));
    PopMatchable(store, p, t);
    var store' := Execute(store, t, p[0].q[0]);
    var levels' := AfterTrade(store', p);
    LoopFrame(store', levels', t, seqno);
    StillDead(store, store', MatchLoop(store', levels', t, seqno).store, Flat(levels), Flat(p), Flat(levels'), t);
  }

  /** Only dead orders leave the opposite side, and they leave from its front. */
  lemma {:induction false} LoopLeaves(store: Store, levels: seq<Level<int>>, t: int, seqno: nat)
    requires Matchable(store, levels, t) && Takeable(store, t) && Sound(store, Flat(levels))
    ensures var r := MatchLoop(store, levels, t, seqno);
            OnlyDeadLeft(r.store, Flat(levels), Flat(r.levels))
    decreases |Flat(levels)|, store[t].Remaining()
  {
    var p := Prune(store, levels);
    if store[t].Remaining() > 0 && levels != [] {
      PrunedSound(store, levels, t);
      FlatPrune(store, levels);
      DropDeadOnlyDead(store, Flat(levels));
      if p != [] && Crosses(store[t].side, store[t].price, store[p[0].q[0]].price) {
        ExecutionStep(store, p, t);
        TurnLeaves(store, levels, t, seqno);
        var store' := Execute(store, t, p[0].q[0]);
        var levels' := AfterTrade(store', p);
        var r := MatchLoop(store', levels', t, seqno);
        LoopLeaves(store', levels', t, seqno);
        LeftTrans(r.store, Flat(levels), Flat(levels'), Flat(r.levels));
      }
    }
  }

  lemma {:induction false} LeftTrans(store: Store, a: seq<int>, b: seq<int>, c: seq<int>)
    requires OnlyDeadLeft(store, a, b) && OnlyDeadLeft(store, b, c)
    ensures OnlyDeadLeft(store, a, c)
    decreases a
  {
    if a != b { LeftTrans(store, a[1..], b, c); }
  }

  lemma LeftMember(store: Store, a: seq<int>, b: seq<int>, i: int)
    requires OnlyDeadLeft(store, a, b) && i in b
    ensures i in a
  {
    var k :| 0 <= k < |b| && b[k] == i;
    LeftAt(store, a, b, k);
  }

  /** Orders dead or exhausted when they left the queue stay so while the loop goes on without them. */
  lemma {:induction false} StillDead(store: Store, store': Store, last: Store, all: seq<int>, front: seq<int>,
                                     rest: seq<int>, t: int)
    requires Queued(store, all) && t !in all && t in store && front != [] && Sound(store, front)
    requires OnlyDeadLeft(store, all, front) && store' == Execute(store, t, front[0])
    requires rest == if store'[front[0]].Remaining() == 0 then front[1..] else front
    requires forall i :: i in store' && i != t && i !in rest ==> i in last && last[i] == store'[i]
    ensures OnlyDeadLeft(last, all, rest)
    decreases all
  {
    if all != front {
      if all[0] in front { LeftMember(store, all[1..], front, all[0]); }
      StillDead(store, store', last, all[1..], front, rest, t);
    }
  }

  /** The loop stops only when the taker is exhausted or nothing left opposite is acceptable to it. */
  lemma {:induction false} LoopStops(store: Store, levels: seq<Level<int>>, t: int, seqno: nat)
    requires Matchable(store, levels, t) && Takeable(store, t) && Sound(store, Flat(levels))
    requires Housed(store, Opposite(store[t].side), levels)
    ensures var r := MatchLoop(store, levels, t, seqno);
            t in r.store && Housed(r.store, Opposite(store[t].side), r.levels)
            && (r.store[t].Remaining() > 0 && r.levels != [] ==>
               !Crosses(store[t].side, store[t].price, r.levels[0].price))
    decreases |Flat(levels)|, store[t].Remaining()
  {
    var p := Prune(store, levels);
    if store[t].Remaining() > 0 && levels != [] {
      PrunedSound(store, levels, t);
      PrunedHoused(store, Opposite(store[t].side), levels);
      if p != [] && Crosses(store[t].side, store[t].price, store[p[0].q[0]].price) {
        var m := p[0].q[0];
        ExecutionStep(store, p, t);
        var store' := Execute(store, t, m);
        HousedFrame(store, store', Opposite(store[t].side), p);
        PopHoused(store', Opposite(store[t].side), p);
        LoopStops(store', AfterTrade(store', p), t, seqno);
      }
    }
  }

  lemma {:induction false} DropDeadOnlyDead(store: Store, q: seq<int>)
    ensures OnlyDeadLeft(store, q, DropDead(store, q))
  {
    if q != [] && !LiveIn(store, q[0]) { DropDeadOnlyDead(store, q[1..]); }
  }

  /** `b` is what remains of `a` after its front. */
  ghost predicate Rest(a: seq<int>, b: seq<int>) {
    |b| <= |a| && forall k :: 0 <= k < |b| ==> b[k] == a[|a| - |b| + k]
  }

  lemma {:induction false} DropDeadRest(store: Store, q: seq<int>)
    ensures Rest(q, DropDead(store, q))
  {
    if q != [] && !LiveIn(store, q[0]) { DropDeadRest(store, q[1..]); }
  }

  lemma {:induction false} PruneQueueAt(s: Side, store: Store, levels: seq<Level<int>>, r: real)
    requires Ladder(s, levels)
    ensures Rest(QueueAt(levels, r), QueueAt(Prune(store, levels), r))
  {
    if levels != [] {
      DropDeadRest(store, levels[0].q);
      if DropDead(store, levels[0].q) == [] {
        PruneQueueAt(s, store, levels[1..], r);
        PruneLadder(s, store, levels[1..]);
        QueueAtPruned(s, store, levels, r);
      }
    }
  }

  /** The price of a level that pruning has emptied is not found again. */
  lemma QueueAtPruned(s: Side, store: Store, levels: seq<Level<int>>, r: real)
    requires Ladder(s, levels) && levels != [] && Ladder(s, Prune(store, levels[1..]))
    requires Rest(QueueAt(levels[1..], r), QueueAt(Prune(store, levels[1..]), r))
    ensures r == levels[0].price ==> QueueAt(Prune(store, levels[1..]), r) == []
  {
    if r == levels[0].price { QueueAtAbsent(s, levels[1..], r); }
  }

  lemma PopQueueAt(s: Side, levels: seq<Level<int>>, r: real)
    requires Ladder(s, levels)
    ensures Rest(QueueAt(levels, r), QueueAt(WithoutBest(levels), r))
  {
    if levels != [] && r == levels[0].price { QueueAtAbsent(s, levels[1..], r); }
  }

  lemma RestTrans(a: seq<int>, b: seq<int>, c: seq<int>)
    requires Rest(a, b) && Rest(b, c)
    ensures Rest(a, c)
  {
    forall k | 0 <= k < |c| ensures c[k] == a[|a| - |c| + k] {
      assert c[k] == b[|b| - |c| + k];
    }
  }

  /** Time priority within a level: the queue at each price loses orders from its front only. */
  lemma {:induction false} LoopQueues(store: Store, levels: seq<Level<int>>, t: int, seqno: nat, r: real)
    requires Matchable(store, levels, t) && Takeable(store, t) && Sound(store, Flat(levels))
    ensures Rest(QueueAt(levels, r), QueueAt(MatchLoop(store, levels, t, seqno).levels, r))
    decreases |Flat(levels)|, store[t].Remaining()
  {
    var p, s := Prune(store, levels), Opposite(store[t].side);
    if store[t].Remaining() > 0 && levels != [] {
      PruneQueueAt(s, store, levels, r);
      PrunedSound(store, levels, t);
      if p != [] && Crosses(store[t].side, store[t].price, store[p[0].q[0]].price) {
        ExecutionStep(store, p, t);
        PopQueueAt(s, p, r);
        var store' := Execute(store, t, p[0].q[0]);
        var levels' := AfterTrade(store', p);
        LoopQueues(store', levels', t, seqno, r);
        RestTrans(QueueAt(levels, r), QueueAt(p, r), QueueAt(levels', r));
        RestTrans(QueueAt(levels, r), QueueAt(levels', r), QueueAt(MatchLoop(store', levels', t, seqno).levels, r));
      }
    }
  }

  /** Nothing that is filled stands in the queue. */
  ghost predicate NoneFilled(store: Store, ids: seq<int>) {
    forall k :: 0 <= k < |ids| ==> ids[k] in store && store[ids[k]].state != Filled
  }

  lemma PrunedNoneFilled(store: Store, levels: seq<Level<int>>)
    requires NoneFilled(store, Flat(levels))
    ensures NoneFilled(store, Flat(Prune(store, levels)))
  {
    FlatPrune(store, levels);
    DropDeadSuffix(store, Flat(levels));
  }

  lemma ExecutedNoneFilled(store: Store, p: seq<Level<int>>, t: int)
    requires Matchable(store, p, t) && p != [] && p[0].q != [] && Takeable(store, t) && Sound(store, Flat(p))
    requires LiveIn(store, p[0].q[0]) && store[t].Remaining() > 0 && NoneFilled(store, Flat(p))
    ensures var store' := Execute(store, t, p[0].q[0]);
            p[0].q[0] in store' && NoneFilled(store', Flat(AfterTrade(store', p)))
  {
    PopMatchable(store, p, t);
  }

  /** What the loop fills it also takes out of the queue. */
  lemma {:induction false} LoopNoneFilled(store: Store, levels: seq<Level<int>>, t: int, seqno: nat)
    requires Matchable(store, levels, t) && Takeable(store, t) && Sound(store, Flat(levels))
    requires NoneFilled(store, Flat(levels))
    ensures var r := MatchLoop(store, levels, t, seqno); NoneFilled(r.store, Flat(r.levels))
    decreases |Flat(levels)|, store[t].Remaining()
  {
    var p := Prune(store, levels);
    if store[t].Remaining() > 0 && levels != [] {
      PrunedSound(store, levels, t);
      PrunedNoneFilled(store, levels);
      if p != [] && Crosses(store[t].side, store[t].price, store[p[0].q[0]].price) {
        ExecutionStep(store, p, t);
        ExecutedNoneFilled(store, p, t);
        var store' := Execute(store, t, p[0].q[0]);
        LoopNoneFilled(store', AfterTrade(store', p), t, seqno);
      }
    }
  }
}
