/** The pooled book of phase 5: nodes in a slab, an intrusive list per price, and a slot per id. */
module OptimizedBook {
  import opened BookSpec
  import opened SlabPool
  import opened LevelLists

  /** A cell is alive exactly when a slot owns it. */
  ghost predicate AliveOk(alive: seq<bool>, st: State) {
    |alive| == |st.mem| && forall c :: 0 <= c < |alive| ==> (alive[c] <==> Owned(st, c))
  }

  ghost predicate Consistent(alive: seq<bool>, st: State) {
    WellFormed(st) && AliveOk(alive, st)
  }

  lemma LinkingConsistent(alive: seq<bool>, st: State, n: int, o: Quote)
    requires Consistent(alive, st) && 0 <= n < |st.mem| && !Owned(st, n) && o.id !in st.lookup
    ensures Consistent(alive[n := true], Linking(st, n, o))
  {
    LinkingFrame(st, n, o);
    LinkingWellFormed(st, n, o);
    forall c | 0 <= c < |alive| ensures alive[n := true][c] <==> Owned(Linking(st, n, o), c) {
      LinkingOwned(st, n, o, c);
    }
  }

  lemma UnlinkingAlive(alive: seq<bool>, st: State, id: string)
    requires Consistent(alive, st) && id in st.lookup
    ensures 0 <= st.lookup[id].node < |alive| && alive[st.lookup[id].node]
  {
    assert SlotOk(st, id) && Owned(st, st.lookup[id].node);
  }

  lemma UnlinkingConsistent(alive: seq<bool>, st: State, id: string)
    requires Consistent(alive, st) && id in st.lookup
    ensures 0 <= st.lookup[id].node < |alive| && Consistent(alive[st.lookup[id].node := false], Unlinking(st, id))
    ensures |Unlinking(st, id).lookup| == |st.lookup| - 1
  {
    OneLess(st.lookup, id);
    UnlinkingAlive(alive, st, id);
    UnlinkingWellFormed(st, id);
    UnlinkingAliveOk(alive, st, id);
  }

  lemma OneLess(m: map<string, Slot>, id: string)
    requires id in m
    ensures |m - {id}| == |m| - 1
  {
    assert (m - {id}).Keys == m.Keys - {id};
  }

  lemma OneMore(m: map<string, Slot>, id: string, s: Slot)
    requires id !in m
    ensures |m[id := s]| == |m| + 1
  {
  }

  lemma UnlinkingAliveOk(alive: seq<bool>, st: State, id: string)
    requires Consistent(alive, st) && id in st.lookup && 0 <= st.lookup[id].node < |alive|
    ensures AliveOk(alive[st.lookup[id].node := false], Unlinking(st, id))
  {
    UnlinkingFrame(st, id);
    forall c | 0 <= c < |alive| ensures alive[st.lookup[id].node := false][c] <==> Owned(Unlinking(st, id), c) {
      UnlinkingOwned(st, id, c);
    }
  }

  /** The ends of a level without node `n`, and the levels without those that are empty. */
  ghost function Cut(n: Node, lvl: Level): Level {
    Level(if n.prev == -1 then n.next else lvl.head, if n.next == -1 then n.prev else lvl.tail)
  }

  ghost function Trimmed(levels: map<real, Level>, p: real, lvl: Level): map<real, Level> {
    if lvl.head == -1 then levels - {p} else levels[p := lvl]
  }

  /** What a modification does to the book: nothing for an unknown id, the quantity in place at an unchanged price,
      and otherwise removal and re-insertion, into the very cell just released. */
  ghost function Modified(st: State, id: string, price: real, quantity: int): State {
    if id !in st.lookup then st
    else
      var n := st.lookup[id].node;
      var o := OrderAt(st.mem, n);
      if o.price == price then Requantified(st, id, quantity)
      else Linking(Unlinking(st, id), n, Quote(id, price, quantity, o.isBuy))
  }

  lemma RequantifiedConsistent(alive: seq<bool>, st: State, id: string, quantity: int)
    requires Consistent(alive, st) && id in st.lookup
    ensures Consistent(alive, Requantified(st, id, quantity))
  {
    RequantifiedWellFormed(st, id, quantity);
  }

  /** The ends of a list before and after an element is taken out. */
  lemma EndsAfter(a: seq<int>, n: int, b: seq<int>)
    ensures First(a + b, -1) == if a == [] then First(b, -1) else First(a + ([n] + b), -1)
    ensures Last(a + b, -1) == if b == [] then Last(a, -1) else Last(a + ([n] + b), -1)
  {
    var l := a + ([n] + b);
    assert a != [] ==> (a + b)[0] == a[0] == l[0];
    assert b != [] ==> (a + b)[|a| + |b| - 1] == b[|b| - 1] == ([n] + b)[|b|] == l[|a| + |b|];
    assert a == [] ==> a + b == b;
    assert b == [] ==> a + b == a;
  }

  /** Taking a node out of a list leaves the ends of the others; -1 is where the list began exactly if none are left. */
  lemma CutEnds(mem: seq<Node>, a: seq<int>, n: int, b: seq<int>)
    requires 0 <= n < |mem| && mem[n].prev == Last(a, -1) && mem[n].next == First(b, -1)
    requires forall c <- a + ([n] + b) :: 0 <= c < |mem|
    ensures var l := a + ([n] + b);
            Cut(mem[n], Level(First(l, -1), Last(l, -1))) == Level(First(a + b, -1), Last(a + b, -1))
    ensures First(a + b, -1) == -1 <==> a + b == []
  {
    EndsAfter(a, n, b);
    var l := a + ([n] + b);
    assert a != [] ==> a[0] == l[0] && l[0] in l && a[|a| - 1] == l[|a| - 1] && l[|a| - 1] in l;
    assert b != [] ==> l[|a| + 1] == b[0] && l[|a| + 1] in l;
  }

  lemma UnlinkedLevel(st: State, id: string)
    requires WellFormed(st) && id in st.lookup
    requires var s := st.lookup[id]; s.level in st.levels && 0 <= s.node < |st.mem|
    ensures var s := st.lookup[id];
            Unlinking(st, id).levels == Trimmed(st.levels, s.level, Cut(st.mem[s.node], st.levels[s.level]))
  {
    var s := st.lookup[id];
    var a, b := UnlinkingSplit(st, id);
    assert ListOk(st, s.level);
    ChainBounds(st.mem, st.lists[s.level], -1, -1);
    CutEnds(st.mem, a, s.node, b);
  }

  /** Constructing the node first and linking it then is linking it. */
  lemma SetThenLink(mem: seq<Node>, tail: int, n: int, o: Quote)
    requires 0 <= n < |mem|
    ensures LinkTail(mem[n := Node(o, -1, -1)], tail, n, o) == LinkTail(mem, tail, n, o)
  {
  }

  lemma TailOwned(st: State, p: real)
    requires WellFormed(st)
    ensures p in st.levels ==> Owned(st, st.levels[p].tail)
  {
    if p in st.levels {
      assert ListOk(st, p);
      var l := st.lists[p];
      assert Owned(st, l[|l| - 1]);
    }
  }

  class OptimizedOrderBook {
    const pool: MemoryPool<Node>
    var orderLevels: map<real, Level>
    var lookup: map<string, Slot>
    ghost var lists: map<real, seq<int>>

    ghost function Repr(): set<object> {
      {this, pool, pool.buffer, pool.alive}
    }

    ghost function View(): State
      reads Repr()
    {
      State(pool.buffer[..], orderLevels, lookup, lists)
    }

    /** The pool counts the orders. */
    ghost predicate Valid()
      reads Repr()
    {
      pool.Valid() && pool.InUse() == |lookup| && Consistent(pool.alive[..], View())
    }

    constructor (capacity: nat)
      ensures Valid() && fresh(Repr()) && lookup == map[] && pool.buffer.Length == capacity
      ensures |pool.freeList| == capacity
    {
      pool := new MemoryPool<Node>(capacity);
      orderLevels, lookup, lists := map[], map[], map[];
    }

    /** Links node `n` behind the tail of its level, opening the level when there is none. */
    method PushBack(n: int, price: real)
      requires 0 <= n < pool.buffer.Length && pool.buffer[n].next == -1
      requires price in orderLevels ==>
                 0 <= orderLevels[price].tail < pool.buffer.Length && orderLevels[price].tail != n
      modifies pool.buffer, this`orderLevels
      ensures var lvl := LevelAt(old(orderLevels), price);
              pool.buffer[..] == LinkTail(old(pool.buffer[..]), lvl.tail, n, old(pool.buffer[n]).order)
              && orderLevels == old(orderLevels)[price := Level(if lvl.tail == -1 then n else lvl.head, n)]
    {
      var lvl := if price in orderLevels then orderLevels[price] else Level(-1, -1);
      pool.buffer[n] := pool.buffer[n].(prev := lvl.tail);
      if lvl.tail != -1 {
        pool.buffer[lvl.tail] := pool.buffer[lvl.tail].(next := n);
      } else {
        lvl := lvl.(head := n);
      }
      lvl := lvl.(tail := n);
      orderLevels := orderLevels[price := lvl];
    }

    /** Takes a cell for the order and links it. */
    method NewNode(o: Quote) returns (n: int)
      requires Valid() && o.id !in lookup && pool.freeList != []
      modifies pool`freeList, pool.buffer, pool.alive, this`orderLevels
      ensures pool.Valid() && n == old(pool.freeList[|pool.freeList| - 1])
      ensures pool.freeList == old(pool.freeList[..|pool.freeList| - 1])
      ensures 0 <= n < |old(View()).mem| && !Owned(old(View()), n) && pool.alive[..] == old(pool.alive[..])[n := true]
      ensures pool.buffer[..] == Linking(old(View()), n, o).mem && orderLevels == Linking(old(View()), n, o).levels
    {
      ghost var st := View();
      n := pool.Acquire(Node(o, -1, -1));
      assert !Owned(st, n);
      TailOwned(st, o.price);
      SetThenLink(st.mem, LevelAt(orderLevels, o.price).tail, n, o);
      PushBack(n, o.price);
    }

    method AddOrder(id: string, price: real, quantity: int, isBuy: bool)
      requires Valid() && id !in lookup && pool.freeList != []
      modifies Repr()
      ensures Valid()
      ensures var n := old(pool.freeList[|pool.freeList| - 1]);
              pool.freeList == old(pool.freeList[..|pool.freeList| - 1]) && !Owned(old(View()), n)
              && 0 <= n < |old(View()).mem| && View() == Linking(old(View()), n, Quote(id, price, quantity, isBuy))
    {
      ghost var st, alive := View(), pool.alive[..];
      var o := Quote(id, price, quantity, isBuy);
      var n := NewNode(o);
      LinkingConsistent(alive, st, n, o);
      Enter(id, Slot(n, price), Linking(st, n, o));
    }

    /** Enters the slot of a node that has just been linked. */
    method Enter(id: string, slot: Slot, ghost goal: State)
      requires pool.Valid() && pool.InUse() == |lookup| + 1 && id !in lookup && Consistent(pool.alive[..], goal)
      requires goal.mem == pool.buffer[..] && goal.levels == orderLevels && goal.lookup == lookup[id := slot]
      modifies this`lookup, this`lists
      ensures Valid() && View() == goal
    {
      OneMore(lookup, id, slot);
      lookup := lookup[id := slot];
      lists := goal.lists;
      assert View() == goal;
    }

    /** Splices a node out between its neighbours, or moves the end of the level where it has none. */
    method Splice(node: int, lvl: Level) returns (lvl': Level)
      requires var mem := pool.buffer[..];
               0 <= node < |mem| && -1 <= mem[node].prev < |mem| && -1 <= mem[node].next < |mem|
      modifies pool.buffer
      ensures pool.buffer[..] == Spliced(old(pool.buffer[..]), node)
      ensures lvl' == Cut(old(pool.buffer[node]), lvl)
    {
      var n := pool.buffer[node];
      lvl' := lvl;
      if n.prev != -1 {
        pool.buffer[n.prev] := pool.buffer[n.prev].(next := n.next);
      } else {
        lvl' := lvl'.(head := n.next);
      }
      if n.next != -1 {
        pool.buffer[n.next] := pool.buffer[n.next].(prev := n.prev);
      } else {
        lvl' := lvl'.(tail := n.prev);
      }
    }

    /** Splices a node out of its level and erases the level once it is empty. */
    method Unlink(slot: Slot)
      requires var mem := pool.buffer[..];
               0 <= slot.node < |mem| && -1 <= mem[slot.node].prev < |mem| && -1 <= mem[slot.node].next < |mem|
      requires slot.level in orderLevels
      modifies pool.buffer, this`orderLevels
      ensures pool.buffer[..] == Spliced(old(pool.buffer[..]), slot.node)
      ensures orderLevels == Trimmed(old(orderLevels), slot.level, Cut(old(pool.buffer[slot.node]),
                                                                       old(orderLevels)[slot.level]))
    {
      var lvl := Splice(slot.node, orderLevels[slot.level]);
      orderLevels := if lvl.head == -1 then orderLevels - {slot.level} else orderLevels[slot.level := lvl];
    }

    /** Unlinks an order and forgets its slot. */
    method Detach(id: string, ghost goal: State) returns (node: int)
      requires id in lookup && lookup[id].level in orderLevels
      requires var s, mem := lookup[id], pool.buffer[..];
               0 <= s.node < |mem| && -1 <= mem[s.node].prev < |mem| && -1 <= mem[s.node].next < |mem|
               && goal.mem == Spliced(mem, s.node) && goal.lookup == lookup - {id}
               && goal.levels == Trimmed(orderLevels, s.level, Cut(mem[s.node], orderLevels[s.level]))
      modifies pool.buffer, this`orderLevels, this`lists, this`lookup
      ensures node == old(lookup)[id].node && View() == goal
    {
      var slot := lookup[id];
      Unlink(slot);
      lists := goal.lists;
      lookup := lookup - {id};
      node := slot.node;
    }

    /** Removes an order altogether, and gives its cell back. */
    method Drop(id: string)
      requires Valid() && id in lookup
      modifies Repr()
      ensures Valid() && View() == Unlinking(old(View()), id)
      ensures pool.freeList == old(pool.freeList) + [old(lookup)[id].node]
    {
      ghost var st, alive := View(), pool.alive[..];
      UnlinkingAlive(alive, st, id);
      ghost var st' := Unlinking(st, id);
      UnlinkingConsistent(alive, st, id);
      UnlinkingDefined(st, id);
      UnlinkedLevel(st, id);
      var node := Detach(id, st');
      GiveBack(node, st');
    }

    /** Releases the cell of a node that has just been taken out. */
    method GiveBack(node: int, ghost goal: State)
      requires pool.Valid() && pool.InUse() == |lookup| + 1 && View() == goal
      requires 0 <= node < pool.alive.Length && pool.alive[node] && Consistent(pool.alive[..][node := false], goal)
      modifies pool`freeList, pool.alive
      ensures Valid() && View() == goal && pool.freeList == old(pool.freeList) + [node]
    {
      ghost var alive := pool.alive[..];
      pool.Release(node);
      assert View() == goal && pool.alive[..] == alive[node := false];
    }

    /** Writes a quantity where the order stands. */
    method WriteQuantity(id: string, quantity: int)
      requires id in lookup && 0 <= lookup[id].node < pool.buffer.Length
      modifies pool.buffer
      ensures View() == Requantified(old(View()), id, quantity)
    {
      var n := lookup[id].node;
      pool.buffer[n] := pool.buffer[n].(order := pool.buffer[n].order.(quantity := quantity));
    }

    method Requantify(id: string, quantity: int)
      requires Valid() && id in lookup
      modifies pool.buffer
      ensures Valid() && View() == Requantified(old(View()), id, quantity)
    {
      UnlinkingAlive(pool.alive[..], View(), id);
      RequantifiedConsistent(pool.alive[..], View(), id, quantity);
      WriteQuantity(id, quantity);
    }

    /** Removes an order and adds it again at another price. */
    method Relocate(id: string, newPrice: real, newQuantity: int, isBuy: bool)
      requires Valid() && id in lookup
      requires var o := OrderAt(View().mem, lookup[id].node); o.price != newPrice && o.isBuy == isBuy
      modifies Repr()
      ensures Valid() && View() == Modified(old(View()), id, newPrice, newQuantity)
              && pool.freeList == old(pool.freeList)
    {
      Drop(id);
      AddOrder(id, newPrice, newQuantity, isBuy);
    }

    method ModifyOrder(id: string, newPrice: real, newQuantity: int)
      requires Valid()
      modifies Repr()
      ensures Valid() && View() == Modified(old(View()), id, newPrice, newQuantity)
              && pool.freeList == old(pool.freeList)
    {
      if id !in lookup { return; }
      UnlinkingAlive(pool.alive[..], View(), id);
      var o := pool.buffer[lookup[id].node].order;
      if o.price == newPrice {
        Requantify(id, newQuantity);
      } else {
        Relocate(id, newPrice, newQuantity, o.isBuy);
      }
    }

    method DeleteOrder(id: string)
      requires Valid()
      modifies Repr()
      ensures Valid()
      ensures View() == if id in old(lookup) then Unlinking(old(View()), id) else old(View())
    {
      if id !in lookup { return; }
      Drop(id);
    }
  }
}
