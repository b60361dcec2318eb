/** The order manager, and the driver that runs commands through it and the engine on either book. */
module Simulation {
  import opened Orders
  import opened PriceLevels
  import opened Matching
  import opened Books
  import opened Engine
  import opened Exchange

  lemma SomeId(ids: set<int>)
    ensures ids == {} || exists i :: i in ids
  {
    if forall i :: i !in ids { assert ids == {}; }
  }

  class OrderManager {
    var active: map<int, Order>
    var nextId: int

    constructor ()
      ensures active == map[] && nextId == 1
    {
      active, nextId := map[], 1;
    }

    method Place(symbol: string, price: real, quantity: int, side: Side) returns (o: Order)
      modifies this
      ensures fresh(o) && o.id == old(nextId) && o.Snap() == Info(symbol, price, quantity, side, 0, New)
      ensures nextId == old(nextId) + 1 && active == old(active)[o.id := o]
    {
      var id := nextId;
      nextId := nextId + 1;
      o := new Order(id, symbol, price, quantity, side);
      active := active[id := o];
    }

    /** Flips the state of a new or partially filled order; the book is not told. */
    method Cancel(id: int) returns (ok: bool)
      modifies if id in active then {active[id]} else {}
      ensures ok <==> id in active && (old(active[id].state) == New || old(active[id].state) == PartiallyFilled)
      ensures ok ==> active[id].state == Cancelled && active[id].filled == old(active[id].filled)
      ensures !ok && id in active ==> active[id].Snap() == old(active[id].Snap())
    {
      if id !in active { return false; }
      if !active[id].Live() { return false; }
      active[id].state := Cancelled;
      return true;
    }

    /** Cancelling again does nothing and says so. */
    method CancelTwice(id: int) returns (first: bool, second: bool)
      modifies if id in active then {active[id]} else {}
      ensures first <==> id in active && (old(active[id].state) == New || old(active[id].state) == PartiallyFilled)
      ensures !second
      ensures first ==> active[id].state == Cancelled && active[id].filled == old(active[id].filled)
    {
      first := Cancel(id);
      second := Cancel(id);
    }

    /** Removes exactly the filled and the cancelled orders, and says how many. */
    method Reap() returns (n: nat)
      modifies this
      ensures active == map i | i in old(active) && old(active)[i].state != Filled && old(active)[i].state != Cancelled
                             :: old(active)[i]
      ensures n == |old(active)| - |active| && nextId == old(nextId)
    {
      n := 0;
      var todo := active.Keys;
      while todo != {}
        invariant todo <= active.Keys && nextId == old(nextId)
        invariant active == map i | i in old(active) && (i in todo || old(active)[i].Live()) :: old(active)[i]
        invariant n + |active| == |old(active)|
        decreases todo
      {
        SomeId(todo);
        var i :| i in todo;
        if !active[i].Live() {
          assert |active.Keys - {i}| == |active.Keys| - 1;
          assert (active - {i}).Keys == active.Keys - {i};
          active := active - {i};
          n := n + 1;
        }
        todo := todo - {i};
      }
    }
  }

  /** The pieces of one simulation. `reg` are the order handles the driver has obtained so far. */
  class System {
    const book: Book
    const oms: OrderManager
    const log: TradeLogger
    const engine: MatchingEngine
    var reg: Registry

    constructor (vector: bool)
      ensures fresh(book.Obj()) && fresh(oms) && fresh(log) && fresh(engine) && book.Vector? == vector
      ensures Abstract(EMPTY) && reg == map[]
    {
      var b;
      if vector {
        var v := new FlatOrderBook();
        b := Vector(v);
      } else {
        var t := new OrderBook();
        b := Tree(t);
      }
      book := b;
      var l := new TradeLogger();
      log := l;
      oms := new OrderManager();
      reg := map[];
      engine := new MatchingEngine(b, l);
    }

    ghost predicate Wired()
      reads this, book.Obj(), oms, log, engine
    {
      engine.book == book && engine.log == log && engine.Ready(reg)
      && forall i <- oms.active :: i in reg && oms.active[i] == reg[i]
    }

    /** Everything a command may write. */
    ghost function Footprint(): set<object>
      reads this
    {
      {this, book.Obj(), oms, log} + reg.Values
    }

    /** The objects hold the state `st`. */
    ghost predicate Abstract(st: State)
      reads this, book.Obj(), oms, log, engine, reg.Values
    {
      Wired() && StoreOf(reg) == st.store && oms.nextId == st.next && oms.active.Keys == st.active && log.buf == st.tape
      && View(book.Levels(Buy)) == st.bids && View(book.Levels(Sell)) == st.asks
    }

    /** One more registered object does not disturb the rest. */
    lemma Registered(o: Order, st: State)
      requires engine.Ready(reg) && StoreOf(reg) == st.store && o.id !in reg
      ensures engine.Ready(reg[o.id := o]) && StoreOf(reg[o.id := o]) == st.store[o.id := o.Snap()]
    {
      HeldMonotone(reg, reg[o.id := o], engine.book.Levels(Buy));
      HeldMonotone(reg, reg[o.id := o], engine.book.Levels(Sell));
    }

    method DoPlace(symbol: string, price: real, quantity: int, side: Side, ghost st: State)
      requires Abstract(st) && st.next !in st.store
      modifies this`reg, oms
      ensures Abstract(Placed(st, Info(symbol, price, quantity, side, 0, New)))
      ensures fresh(Footprint() - old(Footprint()))
    {
      var o := oms.Place(symbol, price, quantity, side);
      assert StoreOf(reg) == st.store && engine.Ready(reg);
      Registered(o, st);
      reg := reg[o.id := o];
    }

    /** The opposite side as the loop leaves it, the own side with what remains of the order. */
    method DoSubmit(id: int, seqno: nat, ghost st: State, ghost goal: State)
      requires Abstract(st) && id in st.store && Matchable(st.store, st.Levels(Opposite(st.store[id].side)), id)
      requires goal.next == st.next && goal.active == st.active
      requires var o := st.store[id];
               var r := MatchLoop(st.store, st.Levels(Opposite(o.side)), id, seqno);
               id in r.store && goal.store == r.store && goal.tape == st.tape + r.trades
               && goal.Levels(Opposite(o.side)) == r.levels
               && goal.Levels(o.side) == if r.store[id].Remaining() > 0
                                         then Insert(o.side, st.Levels(o.side), o.price, id) else st.Levels(o.side)
      modifies book.Obj(), log, reg.Values
      ensures Abstract(goal)
    {
      var _ := engine.Submit(reg[id], seqno, reg);
    }

    method DoCancel(id: int, ghost st: State)
      requires Abstract(st) && forall i <- st.active :: i in st.store
      modifies reg.Values
      ensures Abstract(CancelledOrder(st, id))
    {
      ghost var goal := CancelledOrder(st, id).store;
      var ok := oms.Cancel(id);
      forall i | i in reg && i in goal ensures reg[i].Snap() == goal[i] {
        assert reg[i].id == i;
      }
      StoreIs(reg, goal);
    }

    method DoReap(ghost st: State)
      requires Abstract(st)
      modifies oms
      ensures Abstract(Reaped(st))
    {
      var _ := oms.Reap();
      assert forall i <- reg :: LiveIn(st.store, i) == reg[i].Live();
    }

    /** Any command. `fp` covers what it may write, `grown` what the next one may. */
    method Execute(c: Command, ghost st: State, ghost fp: set<object>) returns (ghost grown: set<object>)
      requires Inv(st) && Legal(st, c) && Abstract(st) && Footprint() <= fp
      modifies fp
      ensures Abstract(Step(st, c)) && Footprint() <= grown && fresh(grown - fp)
    {
      ghost var was := Footprint();
      match c {
        case Place(symbol, price, quantity, side) => DoPlace(symbol, price, quantity, side, st);
        case Submit(id, seqno) =>
          SubmitReady(st, id, seqno);
          SubmittedParts(st, id, seqno);
          DoSubmit(id, seqno, st, Submitted(st, id, seqno));
        case Cancel(id) => DoCancel(id, st);
        case Reap => DoReap(st);
      }
      grown := fp + (Footprint() - was);
    }
  }

  method Start(vector: bool) returns (sys: System, ghost fp: set<object>)
    ensures sys.Abstract(EMPTY) && sys.book.Vector? == vector && fresh(fp) && sys.Footprint() <= fp
  {
    sys := new System(vector);
    fp := sys.Footprint();
  }

  /** A run, command by command. */
  lemma {:induction false} RunPrefix(st: State, cmds: seq<Command>, n: nat)
    requires Inv(st) && LegalRun(st, cmds) && n < |cmds|
    ensures LegalRun(st, cmds[..n]) && LegalRun(st, cmds[..n + 1])
    ensures Legal(Run(st, cmds[..n]), cmds[n]) && Run(st, cmds[..n + 1]) == Step(Run(st, cmds[..n]), cmds[n])
    decreases n
  {
    assert cmds[..n + 1][1..] == cmds[1..][..n];
    if n > 0 {
      StepKeepsInv(st, cmds[0]);
      assert cmds[..n][1..] == cmds[1..][..n - 1];
      RunPrefix(Step(st, cmds[0]), cmds[1..], n - 1);
    } else {
      OneCommand(st, cmds);
    }
  }

  lemma OneCommand(st: State, cmds: seq<Command>)
    requires Inv(st) && LegalRun(st, cmds) && cmds != []
    ensures LegalRun(st, cmds[..0]) && LegalRun(st, cmds[..1]) && Legal(st, cmds[0])
    ensures Run(st, cmds[..0]) == st && Run(st, cmds[..1]) == Step(st, cmds[0])
  {
    StepKeepsInv(st, cmds[0]);
    assert cmds[..1][1..] == [];
  }

  lemma NextCommand(cmds: seq<Command>, n: nat)
    requires Possible(cmds) && n < |cmds|
    ensures Possible(cmds[..n]) && Inv(After(cmds[..n])) && Legal(After(cmds[..n]), cmds[n])
    ensures Possible(cmds[..n + 1]) && After(cmds[..n + 1]) == Step(After(cmds[..n]), cmds[n])
  {
    EmptyInv();
    RunPrefix(EMPTY, cmds, n);
  }

  /** Takes command `n` of a run. */
  method Take(sys: System, cmds: seq<Command>, n: nat, ghost fp: set<object>) returns (ghost grown: set<object>)
    requires Possible(cmds) && n < |cmds| && Possible(cmds[..n])
    requires sys.Abstract(After(cmds[..n])) && sys.Footprint() <= fp
    modifies fp
    ensures Possible(cmds[..n + 1]) && sys.Abstract(After(cmds[..n + 1]))
    ensures sys.Footprint() <= grown && fresh(grown - fp)
  {
    NextCommand(cmds, n);
    grown := sys.Execute(cmds[n], After(cmds[..n]), fp);
  }

  /** Runs a list of commands on a fresh system over the chosen book. */
  method Drive(vector: bool, cmds: seq<Command>) returns (sys: System)
    requires Possible(cmds)
    ensures sys.Abstract(After(cmds)) && sys.book.Vector? == vector
    ensures StoreOf(sys.reg) == After(cmds).store && sys.log.buf == After(cmds).tape
    ensures sys.oms.active.Keys == After(cmds).active && sys.oms.nextId == After(cmds).next
  {
    ghost var fp := {};
    EmptyInv();
    sys, fp := Start(vector);
    for n := 0 to |cmds|
      invariant Possible(cmds[..n]) && sys.Abstract(After(cmds[..n]))
      invariant fresh(fp) && sys.Footprint() <= fp
    {
      fp := Take(sys, cmds, n, fp);
    }
    assert cmds[..|cmds|] == cmds;
  }

  /** The same run on both books: the same tape, and the same orders at every level, in the same places. */
  method Twins(cmds: seq<Command>) returns (tree: System, vector: System)
    requires Possible(cmds)
    ensures tree.book.Tree? && vector.book.Vector? && tree.log.buf == vector.log.buf == After(cmds).tape
    ensures forall s :: View(tree.book.Levels(s)) == View(vector.book.Levels(s))
    ensures StoreOf(tree.reg) == StoreOf(vector.reg)
  {
    tree := Drive(false, cmds);
    vector := Drive(true, cmds);
  }
}
