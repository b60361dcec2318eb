/** The optimized and the baseline book of phase 5 agree after every run. */
module BookParity {
  import opened BookSpec
  import opened BookLaws
  import opened LevelLists
  import opened OptimizedBook
  import opened BaselineBook

  // ---------- what one operation means ----------

  lemma AddMeans(st: State, n: int, o: Quote)
    requires WellFormed(st) && 0 <= n < |st.mem| && !Owned(st, n) && o.id !in st.lookup
    ensures Abstract(Linking(st, n, o)) == Apply(Abstract(st), Add(o.id, o.price, o.quantity, o.isBuy))
    ensures Abstract(Linking(st, n, o)) == Abstract(st)[o.id := o]
  {
    LinkingAbstract(st, n, o);
  }

  lemma DeleteMeans(st: State, id: string)
    requires WellFormed(st) && id in st.lookup
    ensures Abstract(Unlinking(st, id)) == Apply(Abstract(st), Delete(id)) == Abstract(st) - {id}
  {
    UnlinkingAbstract(st, id);
  }

  lemma RelocateReady(st: State, id: string)
    requires WellFormed(st) && id in st.lookup
    ensures var cut := Unlinking(st, id);
            var n := st.lookup[id].node;
            WellFormed(cut) && 0 <= n < |cut.mem| && !Owned(cut, n) && id !in cut.lookup
  {
    UnlinkingWellFormed(st, id);
    UnlinkingOwned(st, id, st.lookup[id].node);
    UnlinkingFrame(st, id);
    AbstractOrder(st, id);
  }

  lemma RelocateMeans(st: State, id: string, o: Quote)
    requires WellFormed(st) && id in st.lookup && o.id == id
    ensures Abstract(Linking(Unlinking(st, id), st.lookup[id].node, o)) == Abstract(st)[id := o]
  {
    RelocateReady(st, id);
    UnlinkingAbstract(st, id);
    LinkingAbstract(Unlinking(st, id), st.lookup[id].node, o);
    Replaced(Abstract(st), id, o);
  }

  lemma Replaced(m: Orders, id: string, o: Quote)
    ensures (m - {id})[id := o] == m[id := o]
  {
  }

  /** Editing in place at an unchanged price and relocating otherwise both amount to replacing the order. */
  lemma ModifyMeans(st: State, id: string, price: real, quantity: int)
    requires WellFormed(st)
    ensures Abstract(Modified(st, id, price, quantity)) == Apply(Abstract(st), Modify(id, price, quantity))
    ensures id in st.lookup ==>
              id in Abstract(st)
              && Abstract(Modified(st, id, price, quantity))
                 == Abstract(st)[id := Quote(id, price, quantity, Abstract(st)[id].isBuy)]
    ensures id !in st.lookup ==> Abstract(Modified(st, id, price, quantity)) == Abstract(st)
  {
    if id in st.lookup {
      AbstractOrder(st, id);
      var o := Abstract(st)[id];
      if o.price == price {
        RequantifiedAbstract(st, id, quantity);
      } else {
        RelocateMeans(st, id, Quote(id, price, quantity, o.isBuy));
      }
    }
  }

  // ---------- arrival order ----------

  /** Ids by time of arrival: a change of price arrives anew, a change of quantity does not. */
  function Arrive(m: Orders, order: seq<string>, op: Op): seq<string> {
    match op
    case Add(id, _, _, _) => order + [id]
    case Modify(id, price, _) => if id !in m || m[id].price == price then order else Remove(order, id) + [id]
    case Delete(id) => Remove(order, id)
  }

  /** The ids resting at price `p`, earliest arrival first. */
  ghost function Resting(m: Orders, order: seq<string>, p: real): seq<string> {
    if order == [] then []
    else (if order[0] in m && m[order[0]].price == p then [order[0]] else []) + Resting(m, order[1..], p)
  }

  ghost predicate NoDup(order: seq<string>) {
    order == [] || (order[0] !in order[1..] && NoDup(order[1..]))
  }

  /** Each level's list is the arrivals at its price. */
  ghost predicate InOrder(st: State, order: seq<string>) {
    NoDup(order) && (forall id :: id in order <==> id in st.lookup)
    && forall p :: Queue(st, p) == Resting(Abstract(st), order, p)
  }

  lemma {:induction false} RestingAppend(m: Orders, a: seq<string>, b: seq<string>, p: real)
    ensures Resting(m, a + b, p) == Resting(m, a, p) + Resting(m, b, p)
  {
    if a == [] {
      assert a + b == b;
    } else {
      assert (a + b)[1..] == a[1..] + b;
      RestingAppend(m, a[1..], b, p);
    }
  }

  lemma {:induction false} RestingFrame(m: Orders, m': Orders, order: seq<string>, p: real)
    requires forall id <- order :: (id in m && m[id].price == p) <==> (id in m' && m'[id].price == p)
    ensures Resting(m, order, p) == Resting(m', order, p)
  {
    if order != [] { RestingFrame(m, m', order[1..], p); }
  }

  lemma RestingCons(m: Orders, x: string, rest: seq<string>, p: real)
    ensures Resting(m, [x] + rest, p) == (if x in m && m[x].price == p then [x] else []) + Resting(m, rest, p)
  {
    assert ([x] + rest)[1..] == rest;
  }

  lemma RemoveCons(x: string, rest: seq<string>, id: string)
    ensures Remove([x] + rest, id) == if x == id then rest else [x] + Remove(rest, id)
  {
    assert ([x] + rest)[1..] == rest;
  }

  lemma {:induction false} RestingRemove(m: Orders, order: seq<string>, id: string, p: real)
    requires id in order && id in m && NoDup(order)
    ensures Resting(m - {id}, Remove(order, id), p) ==
            if p == m[id].price then Remove(Resting(m, order, p), id) else Resting(m, order, p)
  {
    var x, rest := order[0], order[1..];
    assert order == [x] + rest;
    RestingCons(m, x, rest, p);
    RemoveCons(x, rest, id);
    RemoveCons(x, Resting(m, rest, p), id);
    if x == id {
      RestingFrame(m, m - {id}, rest, p);
    } else {
      RestingRemove(m, rest, id, p);
      RestingCons(m - {id}, x, Remove(rest, id), p);
      assert [] + Resting(m, rest, p) == Resting(m, rest, p);
    }
  }

  lemma {:induction false} RemoveFacts(order: seq<string>, id: string)
    requires NoDup(order) && id in order
    ensures NoDup(Remove(order, id)) && forall x :: x in Remove(order, id) <==> x in order && x != id
  {
    assert forall x :: x in order <==> x == order[0] || x in order[1..];
    if order[0] != id {
      RemoveFacts(order[1..], id);
      var tail := Remove(order[1..], id);
      assert ([order[0]] + tail)[1..] == tail;
    }
  }

  lemma {:induction false} NoDupAppend(order: seq<string>, id: string)
    requires NoDup(order) && id !in order
    ensures NoDup(order + [id])
  {
    if order != [] {
      NoDupAppend(order[1..], id);
      assert (order + [id])[1..] == order[1..] + [id];
    }
  }

  lemma AddQueue(st: State, order: seq<string>, n: int, o: Quote, p: real)
    requires WellFormed(st) && 0 <= n < |st.mem| && !Owned(st, n) && o.id !in st.lookup && InOrder(st, order)
    ensures Queue(Linking(st, n, o), p) == Resting(Abstract(Linking(st, n, o)), order + [o.id], p)
  {
    var m := Abstract(st);
    LinkingAbstract(st, n, o);
    LinkingQueue(st, n, o, p);
    RestingAppend(m[o.id := o], order, [o.id], p);
    RestingFrame(m, m[o.id := o], order, p);
    assert Resting(m[o.id := o], [o.id], p) == if o.price == p then [o.id] else [];
  }

  lemma AddInOrder(st: State, order: seq<string>, n: int, o: Quote)
    requires WellFormed(st) && 0 <= n < |st.mem| && !Owned(st, n) && o.id !in st.lookup && InOrder(st, order)
    ensures InOrder(Linking(st, n, o), order + [o.id])
  {
    NoDupAppend(order, o.id);
    forall p ensures Queue(Linking(st, n, o), p) == Resting(Abstract(Linking(st, n, o)), order + [o.id], p) {
      AddQueue(st, order, n, o, p);
    }
  }

  lemma DeleteInOrder(st: State, order: seq<string>, id: string)
    requires WellFormed(st) && id in st.lookup && InOrder(st, order)
    ensures InOrder(Unlinking(st, id), Remove(order, id))
  {
    var st' := Unlinking(st, id);
    UnlinkingAbstract(st, id);
    AbstractOrder(st, id);
    RemoveFacts(order, id);
    forall p ensures Queue(st', p) == Resting(Abstract(st'), Remove(order, id), p) {
      UnlinkingQueue(st, id, p);
      RestingRemove(Abstract(st), order, id, p);
    }
  }

  lemma RequantifyInOrder(st: State, order: seq<string>, id: string, quantity: int)
    requires WellFormed(st) && id in st.lookup && InOrder(st, order)
    ensures InOrder(Requantified(st, id, quantity), order)
  {
    forall p
      ensures Queue(Requantified(st, id, quantity), p) == Resting(Abstract(Requantified(st, id, quantity)), order, p)
    {
      RequantifyQueue(st, order, id, quantity, p);
    }
  }

  lemma {:induction false} RestingSamePrice(m: Orders, id: string, o: Quote, order: seq<string>, p: real)
    requires id in m && o.price == m[id].price
    ensures Resting(m[id := o], order, p) == Resting(m, order, p)
  {
    if order != [] { RestingSamePrice(m, id, o, order[1..], p); }
  }

  lemma RequantifyQueue(st: State, order: seq<string>, id: string, quantity: int, p: real)
    requires WellFormed(st) && id in st.lookup && InOrder(st, order)
    ensures Queue(Requantified(st, id, quantity), p) == Resting(Abstract(Requantified(st, id, quantity)), order, p)
  {
    RequantifiedAbstract(st, id, quantity);
    RequantifiedQueue(st, id, quantity, p);
    RestingSamePrice(Abstract(st), id, Abstract(st)[id].(quantity := quantity), order, p);
  }

  /** A same-price change keeps its place in the queue; a change of price goes to the back of the new one. */
  lemma ModifyInOrder(st: State, order: seq<string>, id: string, price: real, quantity: int)
    requires WellFormed(st) && InOrder(st, order)
    ensures InOrder(Modified(st, id, price, quantity), Arrive(Abstract(st), order, Modify(id, price, quantity)))
  {
    if id in st.lookup {
      AbstractOrder(st, id);
      var o := Abstract(st)[id];
      if o.price == price {
        RequantifyInOrder(st, order, id, quantity);
      } else {
        RelocateReady(st, id);
        DeleteInOrder(st, order, id);
        AddInOrder(Unlinking(st, id), Remove(order, id), st.lookup[id].node, Quote(id, price, quantity, o.isBuy));
      }
    }
  }

  // ---------- whole runs ----------

  /** Every addition meets a fresh id and a free cell. */
  predicate FitsRun(m: Orders, ops: seq<Op>, capacity: nat)
    decreases ops
  {
    ops == [] || (Legal(m, ops[0]) && (ops[0].Add? ==> |m| < capacity) && FitsRun(Apply(m, ops[0]), ops[1..], capacity))
  }

  /** Arrival order after a run. */
  function Arrivals(m: Orders, order: seq<string>, ops: seq<Op>): seq<string>
    decreases ops
  {
    if ops == [] then order else Arrivals(Apply(m, ops[0]), Arrive(m, order, ops[0]), ops[1..])
  }

  lemma {:induction false} FitsIsLegal(m: Orders, ops: seq<Op>, capacity: nat)
    requires FitsRun(m, ops, capacity)
    ensures LegalRun(m, ops)
    decreases ops
  {
    if ops != [] { FitsIsLegal(Apply(m, ops[0]), ops[1..], capacity); }
  }

  // ---------- arrivals by scanning ----------

  lemma {:induction false} ArrivalsSnoc(m: Orders, order: seq<string>, ops: seq<Op>, op: Op)
    ensures Arrivals(m, order, ops + [op]) == Arrive(Run(m, ops), Arrivals(m, order, ops), op)
    decreases ops
  {
    if ops == [] {
      assert (ops + [op])[1..] == [];
    } else {
      assert (ops + [op])[1..] == ops[1..] + [op];
      ArrivalsSnoc(Apply(m, ops[0]), Arrive(m, order, ops[0]), ops[1..], op);
    }
  }

  /** The arrivals are the orders of the map, each once. */
  ghost predicate Listed(m: Orders, order: seq<string>) {
    NoDup(order) && forall id :: id in order <==> id in m
  }

  lemma ArriveListed(m: Orders, order: seq<string>, op: Op)
    requires Listed(m, order) && Legal(m, op)
    ensures Listed(Apply(m, op), Arrive(m, order, op))
  {
    var cut := Remove(order, op.id);
    if op.id in order { RemoveFacts(order, op.id); } else { RemoveAbsent(order, op.id); }
    if op.Add? { NoDupAppend(order, op.id); }
    if op.Modify? && op.id in m { NoDupAppend(cut, op.id); }
  }

  lemma {:induction false} RemoveInTime(ops: seq<Op>, ids: seq<string>, id: string)
    requires InTime(ops, ids)
    ensures InTime(ops, Remove(ids, id)) && forall y <- Remove(ids, id) :: y in ids
  {
    if ids != [] && ids[0] != id {
      RemoveInTime(ops, ids[1..], id);
      assert Remove(ids, id)[1..] == Remove(ids[1..], id);
    }
  }

  /** Before an id arrives anew, everything else has arrived already. */
  lemma ArriveInTime(ops: seq<Op>, op: Op, m: Orders, order: seq<string>)
    requires Listed(m, order) && Legal(m, op) && Told(ops, m, op.id) && InTime(ops, order)
    ensures InTime(ops + [op], Arrive(m, order, op))
  {
    forall id: string ensures id != op.id ==> ArrivedAt(ops + [op], id) == ArrivedAt(ops, id) {
      ArrivedSnoc(ops, op, id);
    }
    ArrivedSnoc(ops, op, op.id);
    var cut := Remove(order, op.id);
    if op.id in order { RemoveFacts(order, op.id); } else { RemoveAbsent(order, op.id); }
    RemoveInTime(ops, order, op.id);
    InTimeKept(ops, op, cut);
    if op.Add? || (op.Modify? && op.id in m && m[op.id].price != op.price) {
      InTimeLast(ops + [op], cut, op.id);
    } else if op.Modify? {
      InTimeKept(ops, op, order);
    }
  }

  lemma {:induction false} ArrivalsInTime(ops: seq<Op>)
    requires LegalRun(map[], ops)
    ensures Listed(Run(map[], ops), Arrivals(map[], [], ops)) && InTime(ops, Arrivals(map[], [], ops))
    decreases |ops|
  {
    if ops != [] {
      var pre, op := ops[..|ops| - 1], ops[|ops| - 1];
      assert ops == pre + [op];
      RunSnoc(map[], pre, op);
      ArrivalsSnoc(map[], [], pre, op);
      ArrivalsInTime(pre);
      RunTold(pre, op.id);
      ArriveListed(Run(map[], pre), Arrivals(map[], [], pre), op);
      ArriveInTime(pre, op, Run(map[], pre), Arrivals(map[], [], pre));
    }
  }

  lemma {:induction false} RestingInTime(ops: seq<Op>, m: Orders, order: seq<string>, p: real)
    requires InTime(ops, order)
    ensures InTime(ops, Resting(m, order, p)) && forall y <- Resting(m, order, p) :: y in order
  {
    if order != [] {
      RestingInTime(ops, m, order[1..], p);
      var tail := Resting(m, order[1..], p);
      assert Resting(m, order, p) == tail || Resting(m, order, p)[1..] == tail;
    }
  }

  /** Time priority after every run: each level's list is in the order in which its orders arrived there. */
  lemma LevelInTime(ops: seq<Op>, st: State, p: real, a: nat, b: nat)
    requires LegalRun(map[], ops) && Abstract(st) == Run(map[], ops) && InOrder(st, Arrivals(map[], [], ops))
    requires a < b < |Queue(st, p)|
    ensures ArrivedAt(ops, Queue(st, p)[a]) < ArrivedAt(ops, Queue(st, p)[b])
  {
    ArrivalsInTime(ops);
    RestingInTime(ops, Abstract(st), Arrivals(map[], [], ops), p);
    InTimeAt(ops, Queue(st, p), a, b);
  }

  /** Runs operations on a fresh baseline book. */
  method DriveBaseline(ops: seq<Op>) returns (book: OrderBook)
    requires LegalRun(map[], ops)
    ensures book.Valid() && book.orderLookup == Run(map[], ops) && forall id :: Told(ops, book.orderLookup, id)
  {
    EveryTold(ops);
    book := new OrderBook();
    for n := 0 to |ops|
      invariant fresh(book) && book.Valid() && LegalRun(book.orderLookup, ops[n..])
      invariant Run(book.orderLookup, ops[n..]) == Run(map[], ops)
    {
      assert ops[n..][1..] == ops[n + 1..];
      match ops[n] {
        case Add(i, price, quantity, isBuy) => book.AddOrder(i, price, quantity, isBuy);
        case Modify(i, price, quantity) => book.ModifyOrder(i, price, quantity);
        case Delete(i) => book.DeleteOrder(i);
      }
    }
  }

  method OnBaseline(ops: seq<Op>, id: string) returns (contains: bool, size: nat, levels: nat)
    requires LegalRun(map[], ops)
    ensures contains <==> LastAdd(ops, id) > LastDelete(ops, id)
    ensures var m := Run(map[], ops); contains == (id in m) && size == |m| && levels == |Prices(m)|
  {
    var book := DriveBaseline(ops);
    assert Told(ops, book.orderLookup, id);
    PricesAreGroups(book.orderLevels, book.orderLookup);
    contains, size, levels := book.Contains(id), book.Size(), book.Levels();
  }

  /** `contains`, `size` and `levels` of the optimized book speak of the orders it stands for. */
  lemma Counts(st: State)
    requires WellFormed(st)
    ensures Abstract(st).Keys == st.lookup.Keys && |Abstract(st)| == |st.lookup|
            && |st.levels| == |Prices(Abstract(st))|
  {
    assert Abstract(st).Keys == st.lookup.Keys;
    LevelsArePrices(st);
  }

  method DoAdd(book: OptimizedOrderBook, op: Op, ghost order: seq<string>)
    requires book.Valid() && InOrder(book.View(), order) && op.Add?
    requires op.id !in book.lookup && |book.lookup| < book.pool.buffer.Length
    modifies book.Repr()
    ensures book.Valid() && Abstract(book.View()) == Apply(old(Abstract(book.View())), op)
    ensures InOrder(book.View(), order + [op.id])
  {
    ghost var st, o := book.View(), Quote(op.id, op.price, op.quantity, op.isBuy);
    ghost var n := book.pool.freeList[|book.pool.freeList| - 1];
    book.AddOrder(op.id, op.price, op.quantity, op.isBuy);
    AddMeans(st, n, o);
    AddInOrder(st, order, n, o);
  }

  method DoModify(book: OptimizedOrderBook, op: Op, ghost order: seq<string>)
    requires book.Valid() && InOrder(book.View(), order) && op.Modify?
    modifies book.Repr()
    ensures book.Valid() && Abstract(book.View()) == Apply(old(Abstract(book.View())), op)
    ensures InOrder(book.View(), Arrive(old(Abstract(book.View())), order, op))
  {
    ModifyMeans(book.View(), op.id, op.price, op.quantity);
    ModifyInOrder(book.View(), order, op.id, op.price, op.quantity);
    book.ModifyOrder(op.id, op.price, op.quantity);
  }

  method DoDelete(book: OptimizedOrderBook, op: Op, ghost order: seq<string>)
    requires book.Valid() && InOrder(book.View(), order) && op.Delete?
    modifies book.Repr()
    ensures book.Valid() && Abstract(book.View()) == Apply(old(Abstract(book.View())), op)
    ensures InOrder(book.View(), Remove(order, op.id))
  {
    DeleteAnyMeans(book.View(), order, op.id);
    book.DeleteOrder(op.id);
  }

  lemma DeleteAnyMeans(st: State, order: seq<string>, id: string)
    requires WellFormed(st) && InOrder(st, order)
    ensures var st' := if id in st.lookup then Unlinking(st, id) else st;
            Abstract(st') == Apply(Abstract(st), Delete(id)) && InOrder(st', Remove(order, id))
  {
    if id in st.lookup {
      DeleteMeans(st, id);
      DeleteInOrder(st, order, id);
    } else {
      RemoveAbsent(order, id);
      assert Abstract(st) - {id} == Abstract(st);
    }
  }

  /** One operation on the optimized book. */
  method Perform(book: OptimizedOrderBook, op: Op, ghost order: seq<string>)
    requires book.Valid() && InOrder(book.View(), order)
    requires Legal(Abstract(book.View()), op) && (op.Add? ==> |Abstract(book.View())| < book.pool.buffer.Length)
    modifies book.Repr()
    ensures book.Valid() && Abstract(book.View()) == Apply(old(Abstract(book.View())), op)
    ensures InOrder(book.View(), Arrive(old(Abstract(book.View())), order, op))
  {
    Counts(book.View());
    match op {
      case Add(_, _, _, _) => DoAdd(book, op, order);
      case Modify(_, _, _) => DoModify(book, op, order);
      case Delete(_) => DoDelete(book, op, order);
    }
  }

  lemma {:induction false} RemoveAbsent(order: seq<string>, id: string)
    requires id !in order
    ensures Remove(order, id) == order
  {
    if order != [] { RemoveAbsent(order[1..], id); }
  }

  /** The orders of a run, operation by operation. */
  method Replay(ops: seq<Op>, capacity: nat) returns (book: OptimizedOrderBook)
    requires FitsRun(map[], ops, capacity)
    ensures book.Valid() && Abstract(book.View()) == Run(map[], ops) && InOrder(book.View(), Arrivals(map[], [], ops))
  {
    book := new OptimizedOrderBook(capacity);
    ghost var order: seq<string> := [];
    assert Abstract(book.View()) == map[];
    for n := 0 to |ops|
      invariant fresh(book.Repr()) && book.pool.buffer.Length == capacity && book.Valid() && InOrder(book.View(), order)
      invariant FitsRun(Abstract(book.View()), ops[n..], capacity)
      invariant Run(Abstract(book.View()), ops[n..]) == Run(map[], ops)
      invariant Arrivals(Abstract(book.View()), order, ops[n..]) == Arrivals(map[], [], ops)
    {
      assert ops[n..][1..] == ops[n + 1..];
      ghost var m := Abstract(book.View());
      Perform(book, ops[n], order);
      order := Arrive(m, order, ops[n]);
    }
  }

  /** The cells of the slab hold exactly the orders that the operations tell, and every level's list has them in the
      order in which they arrived. */
  ghost predicate Kept(ops: seq<Op>, st: State) {
    (forall id :: id in st.lookup <==> LastAdd(ops, id) > LastDelete(ops, id))
    && (forall id <- st.lookup ::
          0 <= st.lookup[id].node < |st.mem| && LastAdd(ops, id) >= 0 && LastQuote(ops, id) >= 0
          && var o := st.mem[st.lookup[id].node].order;
             o.id == id && o.isBuy == ops[LastAdd(ops, id)].isBuy
             && o.price == ops[LastQuote(ops, id)].price && o.quantity == ops[LastQuote(ops, id)].quantity)
    && (forall p, a: nat, b: nat :: a < b < |Queue(st, p)| ==>
          ArrivedAt(ops, Queue(st, p)[a]) < ArrivedAt(ops, Queue(st, p)[b]))
  }

  lemma RunKept(ops: seq<Op>, st: State)
    requires LegalRun(map[], ops) && WellFormed(st)
    requires Abstract(st) == Run(map[], ops) && InOrder(st, Arrivals(map[], [], ops))
    ensures Kept(ops, st)
  {
    forall id ensures (id in st.lookup <==> id in Abstract(st)) && Told(ops, Abstract(st), id) { RunTold(ops, id); }
    forall id <- st.lookup
      ensures 0 <= st.lookup[id].node < |st.mem| && st.mem[st.lookup[id].node].order == Abstract(st)[id]
    {
      AbstractOrder(st, id);
    }
    forall p, a: nat, b: nat | a < b < |Queue(st, p)|
      ensures ArrivedAt(ops, Queue(st, p)[a]) < ArrivedAt(ops, Queue(st, p)[b])
    {
      LevelInTime(ops, st, p, a, b);
    }
  }

  /** Runs operations on a fresh optimized book; every level's list ends up in arrival order. */
  method Drive(ops: seq<Op>, capacity: nat) returns (book: OptimizedOrderBook)
    requires FitsRun(map[], ops, capacity)
    ensures book.Valid() && Abstract(book.View()) == Run(map[], ops) && InOrder(book.View(), Arrivals(map[], [], ops))
    ensures Kept(ops, book.View())
  {
    book := Replay(ops, capacity);
    FitsIsLegal(map[], ops, capacity);
    RunKept(ops, book.View());
  }

  /** The same three answers as `OnBaseline` gives. */
  method OnOptimized(ops: seq<Op>, capacity: nat, id: string) returns (contains: bool, size: nat, levels: nat)
    requires FitsRun(map[], ops, capacity)
    ensures contains <==> LastAdd(ops, id) > LastDelete(ops, id)
    ensures var m := Run(map[], ops); contains == (id in m) && size == |m| && levels == |Prices(m)|
  {
    var book := Drive(ops, capacity);
    Counts(book.View());
    contains, size, levels := id in book.lookup, |book.lookup|, |book.orderLevels|;
  }

  /** The same run on both books: they hold the same price, quantity and side under each id, namely those that the
      operations tell, the levels of the one list exactly the orders that the levels of the other hold, and the three
      questions have the same answers. */
  method Twins(ops: seq<Op>, capacity: nat) returns (base: OrderBook, opt: OptimizedOrderBook)
    requires FitsRun(map[], ops, capacity)
    ensures base.Valid() && opt.Valid() && base.orderLookup == Abstract(opt.View()) == Run(map[], ops)
    ensures Kept(ops, opt.View()) && forall id :: Told(ops, base.orderLookup, id)
    ensures base.orderLevels.Keys == opt.orderLevels.Keys
    ensures forall p, id :: p in base.orderLevels ==> (id in base.orderLevels[p] <==> id in Queue(opt.View(), p))
    ensures forall id :: base.Contains(id) <==> id in opt.lookup
    ensures base.Size() == |opt.lookup| && base.Levels() == |opt.orderLevels|
  {
    FitsIsLegal(map[], ops, capacity);
    base := DriveBaseline(ops);
    opt := Drive(ops, capacity);
    ghost var st, order := opt.View(), Arrivals(map[], [], ops);
    Counts(st);
    LevelsArePrices(st);
    PricesAreGroups(base.orderLevels, base.orderLookup);
    forall p, id | p in base.orderLevels ensures id in base.orderLevels[p] <==> id in Queue(st, p) {
      RestingMembers(Abstract(st), order, p, id);
    }
  }

  lemma {:induction false} RestingMembers(m: Orders, order: seq<string>, p: real, id: string)
    ensures id in Resting(m, order, p) <==> id in order && id in m && m[id].price == p
  {
    if order != [] {
      RestingMembers(m, order[1..], p, id);
      assert id in order <==> id == order[0] || id in order[1..];
    }
  }
}
