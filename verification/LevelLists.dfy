/** The optimized phase 5 book on values: a slab of doubly linked nodes, one list per price level, and a hash of
    slots that point at a node and at its level. -1 is the null pointer. */
module LevelLists {
  import opened BookSpec

  datatype Node = Node(order: Quote, prev: int, next: int)
  datatype Level = Level(head: int, tail: int)
  datatype Slot = Slot(node: int, level: real)

  // ---------- one list ----------

  function First(l: seq<int>, otherwise: int): int {
    if l == [] then otherwise else l[0]
  }

  function Last(l: seq<int>, otherwise: int): int {
    if l == [] then otherwise else l[|l| - 1]
  }

  /** The distinct nodes of `l` are chained both ways, between `before` and `after`. */
  ghost predicate Chain(mem: seq<Node>, l: seq<int>, before: int, after: int) {
    l == [] ||
    (0 <= l[0] < |mem| && l[0] !in l[1..] && mem[l[0]].prev == before && mem[l[0]].next == First(l[1..], after)
     && Chain(mem, l[1..], l[0], after))
  }

  /** `l` is a complete doubly linked list in `mem`. */
  ghost predicate Linked(mem: seq<Node>, l: seq<int>) {
    Chain(mem, l, -1, -1)
  }

  lemma {:induction false} ChainBounds(mem: seq<Node>, l: seq<int>, x: int, y: int)
    requires Chain(mem, l, x, y)
    ensures forall c <- l :: 0 <= c < |mem|
  {
    if l != [] {
      ChainBounds(mem, l[1..], l[0], y);
      assert forall c <- l :: c == l[0] || c in l[1..];
    }
  }

  lemma {:induction false} ChainFrame(mem: seq<Node>, mem': seq<Node>, l: seq<int>, x: int, y: int)
    requires Chain(mem, l, x, y) && |mem'| == |mem|
    requires forall c <- l :: 0 <= c < |mem| ==> mem'[c].prev == mem[c].prev && mem'[c].next == mem[c].next
    ensures Chain(mem', l, x, y)
  {
    if l != [] { ChainFrame(mem, mem', l[1..], l[0], y); }
  }

  lemma {:induction false} ChainSplit(mem: seq<Node>, a: seq<int>, b: seq<int>, x: int, y: int)
    requires Chain(mem, a + b, x, y)
    ensures Chain(mem, a, x, First(b, y)) && Chain(mem, b, Last(a, x), y) && forall c <- a :: c !in b
  {
    if a == [] {
      assert a + b == b;
    } else {
      assert (a + b)[1..] == a[1..] + b;
      ChainSplit(mem, a[1..], b, a[0], y);
    }
  }

  lemma {:induction false} ChainJoin(mem: seq<Node>, a: seq<int>, b: seq<int>, x: int, y: int)
    requires Chain(mem, a, x, First(b, y)) && Chain(mem, b, Last(a, x), y) && forall c <- a :: c !in b
    ensures Chain(mem, a + b, x, y)
  {
    if a == [] {
      assert a + b == b;
    } else {
      assert (a + b)[1..] == a[1..] + b;
      ChainJoin(mem, a[1..], b, a[0], y);
    }
  }

  lemma {:induction false} ChainNext(mem: seq<Node>, a: seq<int>, x: int, y: int, z: int)
    requires Chain(mem, a, x, y) && a != []
    ensures var t := Last(a, x);
            0 <= t < |mem| && Chain(mem[t := mem[t].(next := z)], a, x, z)
  {
    var t := Last(a, x);
    if |a| > 1 {
      ChainNext(mem, a[1..], a[0], y, z);
      assert Last(a[1..], a[0]) == t && t in a[1..];
    }
  }

  lemma ChainPrev(mem: seq<Node>, b: seq<int>, x: int, y: int, z: int)
    requires Chain(mem, b, x, y) && b != []
    ensures Chain(mem[b[0] := mem[b[0]].(prev := z)], b, z, y)
  {
    ChainFrame(mem, mem[b[0] := mem[b[0]].(prev := z)], b[1..], b[0], y);
  }

  /** Writing one link of a node; writing through null does nothing. */
  function SetNext(mem: seq<Node>, c: int, x: int): seq<Node> {
    if 0 <= c < |mem| then mem[c := mem[c].(next := x)] else mem
  }

  function SetPrev(mem: seq<Node>, c: int, x: int): seq<Node> {
    if 0 <= c < |mem| then mem[c := mem[c].(prev := x)] else mem
  }

  function SetNode(mem: seq<Node>, c: int, n: Node): seq<Node> {
    if 0 <= c < |mem| then mem[c := n] else mem
  }

  /** Appending node `n` behind the tail. */
  function LinkTail(mem: seq<Node>, tail: int, n: int, o: Quote): seq<Node> {
    SetNext(SetNode(mem, n, Node(o, tail, -1)), tail, n)
  }

  lemma LinkTailLinked(mem: seq<Node>, l: seq<int>, n: int, o: Quote)
    requires Linked(mem, l) && 0 <= n < |mem| && n !in l
    ensures -1 <= Last(l, -1) < |mem| && Linked(LinkTail(mem, Last(l, -1), n, o), l + [n])
  {
    ChainBounds(mem, l, -1, -1);
    var m := mem[n := Node(o, Last(l, -1), -1)];
    ChainFrame(mem, m, l, -1, -1);
    if l != [] { ChainNext(m, l, -1, -1, n); }
    ChainJoin(LinkTail(mem, Last(l, -1), n, o), l, [n], -1, -1);
  }

  /** Splicing a node out between its neighbours. */
  function Spliced(mem: seq<Node>, n: int): seq<Node> {
    if 0 <= n < |mem| then SetPrev(SetNext(mem, mem[n].prev, mem[n].next), mem[n].next, mem[n].prev) else mem
  }

  /** Splicing writes only links, and only those of the two neighbours. */
  lemma SplicedFrame(mem: seq<Node>, n: int, c: int)
    requires 0 <= c < |mem|
    ensures |Spliced(mem, n)| == |mem| && Spliced(mem, n)[c].order == mem[c].order
    ensures 0 <= n < |mem| && c != mem[n].prev && c != mem[n].next ==> Spliced(mem, n)[c] == mem[c]
  {
  }

  lemma SplicedLinked(mem: seq<Node>, a: seq<int>, n: int, b: seq<int>)
    requires Linked(mem, a + ([n] + b))
    ensures 0 <= n < |mem| && mem[n].prev == Last(a, -1) && mem[n].next == First(b, -1) && n !in a && n !in b
    ensures -1 <= mem[n].prev < |mem| && -1 <= mem[n].next < |mem|
    ensures Linked(Spliced(mem, n), a + b)
  {
    ChainSplit(mem, a, [n] + b, -1, -1);
    ChainSplit(mem, [n], b, Last(a, -1), -1);
    ChainBounds(mem, a, -1, n);
    ChainBounds(mem, b, n, -1);
    var p, x := Last(a, -1), First(b, -1);
    assert (a != [] ==> p in a) && (b != [] ==> x in b && x in [n] + b);
    assert forall c <- b :: c in [n] + b;
    var m := if p == -1 then mem else mem[p := mem[p].(next := x)];
    if a != [] { ChainNext(mem, a, -1, n, x); }
    ChainFrame(mem, m, b, n, -1);
    if b != [] {
      ChainPrev(m, b, n, -1, p);
      ChainFrame(m, m[x := m[x].(prev := p)], a, -1, x);
    }
    ChainJoin(Spliced(mem, n), a, b, -1, -1);
  }

  ghost function Forward(mem: seq<Node>, n: int, steps: nat): seq<int>
    decreases steps
  {
    if steps == 0 || !(0 <= n < |mem|) then [] else [n] + Forward(mem, mem[n].next, steps - 1)
  }

  ghost function Backward(mem: seq<Node>, n: int, steps: nat): seq<int>
    decreases steps
  {
    if steps == 0 || !(0 <= n < |mem|) then [] else [n] + Backward(mem, mem[n].prev, steps - 1)
  }

  ghost function Reverse<T>(s: seq<T>): seq<T> {
    if s == [] then [] else [s[|s| - 1]] + Reverse(s[..|s| - 1])
  }

  /** Following `next` from the head visits the list and stops at its end, however many steps are allowed. */
  lemma {:induction false} ForwardWalk(mem: seq<Node>, l: seq<int>, before: int, steps: nat)
    requires Chain(mem, l, before, -1) && steps >= |l|
    ensures Forward(mem, First(l, -1), steps) == l
    decreases |l|
  {
    if l != [] { ForwardWalk(mem, l[1..], l[0], steps - 1); }
  }

  /** Following `prev` from the tail visits the list in reverse and stops at its head. */
  lemma {:induction false} BackwardWalk(mem: seq<Node>, l: seq<int>, after: int, steps: nat)
    requires Chain(mem, l, -1, after) && steps >= |l|
    ensures Backward(mem, Last(l, -1), steps) == Reverse(l)
    decreases |l|
  {
    if l != [] {
      var front, n := l[..|l| - 1], l[|l| - 1];
      assert l == front + [n];
      ChainSplit(mem, front, [n], -1, after);
      BackwardWalk(mem, front, n, steps - 1);
    }
  }

  // ---------- the whole book ----------

  datatype State = State(mem: seq<Node>, levels: map<real, Level>, lookup: map<string, Slot>,
                         lists: map<real, seq<int>>)

  /** Each node on the list of price `p` holds an order at that price, and the slot of its id points back at it. */
  ghost predicate Homed(st: State, p: real, l: seq<int>) {
    forall k :: 0 <= k < |l| ==>
                  0 <= l[k] < |st.mem| && st.mem[l[k]].order.price == p && st.mem[l[k]].order.id in st.lookup
                  && st.lookup[st.mem[l[k]].order.id] == Slot(l[k], p)
  }

  ghost predicate ListOk(st: State, p: real) {
    p in st.lists && p in st.levels
    && var l := st.lists[p];
       l != [] && st.levels[p] == Level(First(l, -1), Last(l, -1)) && Linked(st.mem, l) && Homed(st, p, l)
  }

  /** A slot's level exists and its list contains the slot's node, which holds the order of that id. */
  ghost predicate SlotOk(st: State, id: string) {
    id in st.lookup && st.lookup[id].level in st.lists && st.lookup[id].node in st.lists[st.lookup[id].level]
    && 0 <= st.lookup[id].node < |st.mem| && st.mem[st.lookup[id].node].order.id == id
  }

  ghost predicate WellFormed(st: State) {
    (forall p :: p in st.levels <==> p in st.lists) && (forall p <- st.lists :: ListOk(st, p))
    && (forall id <- st.lookup :: SlotOk(st, id))
  }

  /** The cell holds a live node. */
  ghost predicate Owned(st: State, c: int) {
    0 <= c < |st.mem| && st.mem[c].order.id in st.lookup && st.lookup[st.mem[c].order.id].node == c
  }

  ghost function OrderAt(mem: seq<Node>, c: int): Quote {
    if 0 <= c < |mem| then mem[c].order else Quote("", 0.0, 0, false)
  }

  ghost function Resolved(mem: seq<Node>, lookup: map<string, Slot>): Orders {
    map id | id in lookup :: OrderAt(mem, lookup[id].node)
  }

  /** The orders the book stands for. */
  ghost function Abstract(st: State): Orders {
    Resolved(st.mem, st.lookup)
  }

  ghost function Names(mem: seq<Node>, l: seq<int>): seq<string> {
    if l == [] then [] else [OrderAt(mem, l[0]).id] + Names(mem, l[1..])
  }

  /** The ids resting at a price, in list order. */
  ghost function Queue(st: State, p: real): seq<string> {
    if p in st.lists then Names(st.mem, st.lists[p]) else []
  }

  lemma {:induction false} NamesFrame(mem: seq<Node>, mem': seq<Node>, l: seq<int>)
    requires forall c <- l :: OrderAt(mem, c).id == OrderAt(mem', c).id
    ensures Names(mem, l) == Names(mem', l)
  {
    if l != [] { NamesFrame(mem, mem', l[1..]); }
  }

  lemma {:induction false} NamesAppend(mem: seq<Node>, a: seq<int>, b: seq<int>)
    ensures Names(mem, a + b) == Names(mem, a) + Names(mem, b)
  {
    if a == [] {
      assert a + b == b;
    } else {
      assert (a + b)[1..] == a[1..] + b;
      NamesAppend(mem, a[1..], b);
    }
  }

  ghost function ListAt(st: State, p: real): seq<int> {
    if p in st.lists then st.lists[p] else []
  }

  function LevelAt(levels: map<real, Level>, p: real): Level {
    if p in levels then levels[p] else Level(-1, -1)
  }

  /** Node `n` becomes the last at the order's price. */
  ghost function Linking(st: State, n: int, o: Quote): State {
    var lvl := LevelAt(st.levels, o.price);
    State(LinkTail(st.mem, lvl.tail, n, o), st.levels[o.price := Level(if lvl.tail == -1 then n else lvl.head, n)],
          st.lookup[o.id := Slot(n, o.price)], st.lists[o.price := ListAt(st, o.price) + [n]])
  }

  /** What linking touches: the new cell, and the tail of its level. */
  lemma LinkingFrame(st: State, n: int, o: Quote)
    requires WellFormed(st) && 0 <= n < |st.mem| && !Owned(st, n)
    ensures var st' := Linking(st, n, o);
            |st'.mem| == |st.mem| && st'.mem[n].order == o
            && (forall c :: 0 <= c < |st.mem| && c != n ==> st'.mem[c].order == st.mem[c].order)
            && (forall c :: 0 <= c < |st.mem| && c != n && st.mem[c].order.price != o.price ==> st'.mem[c] == st.mem[c])
  {
    assert o.price in st.lists ==> ListOk(st, o.price);
  }

  lemma LinkingOther(st: State, n: int, o: Quote, p: real)
    requires WellFormed(st) && 0 <= n < |st.mem| && !Owned(st, n) && o.id !in st.lookup
    requires p in st.lists && p != o.price
    ensures ListOk(Linking(st, n, o), p)
  {
    LinkingFrame(st, n, o);
    var st' := Linking(st, n, o);
    var l := st.lists[p];
    assert ListOk(st, p);
    forall c <- l ensures Owned(st, c) && st.mem[c].order.price == p {
      var k :| 0 <= k < |l| && l[k] == c;
    }
    ChainFrame(st.mem, st'.mem, l, -1, -1);
  }

  lemma LinkingOwn(st: State, n: int, o: Quote)
    requires WellFormed(st) && 0 <= n < |st.mem| && !Owned(st, n) && o.id !in st.lookup
    ensures ListOk(Linking(st, n, o), o.price)
  {
    LinkingFrame(st, n, o);
    var l := ListAt(st, o.price);
    assert l != [] ==> ListOk(st, o.price);
    HomedLinked(st, Linking(st, n, o), l, n, o);
    LinkTailLinked(st.mem, l, n, o);
  }

  lemma HomedLinked(st: State, st': State, l: seq<int>, n: int, o: Quote)
    requires Homed(st, o.price, l) && 0 <= n < |st.mem| && !Owned(st, n) && o.id !in st.lookup
    requires |st'.mem| == |st.mem| && st'.mem[n].order == o && st'.lookup == st.lookup[o.id := Slot(n, o.price)]
    requires forall c :: 0 <= c < |st.mem| && c != n ==> st'.mem[c].order == st.mem[c].order
    ensures n !in l && Homed(st', o.price, l + [n])
  {
    forall k | 0 <= k < |l| ensures l[k] != n { assert Owned(st, l[k]); }
  }

  /** Adding an order in a free cell. */
  lemma LinkingWellFormed(st: State, n: int, o: Quote)
    requires WellFormed(st) && 0 <= n < |st.mem| && !Owned(st, n) && o.id !in st.lookup
    ensures WellFormed(Linking(st, n, o))
  {
    var st' := Linking(st, n, o);
    LinkingFrame(st, n, o);
    forall p | p in st'.lists ensures ListOk(st', p) {
      if p == o.price { LinkingOwn(st, n, o); } else { LinkingOther(st, n, o, p); }
    }
    forall id | id in st'.lookup ensures SlotOk(st', id) {
      if id != o.id {
        assert SlotOk(st, id) && Owned(st, st.lookup[id].node);
      } else {
        var l := st'.lists[o.price];
        assert l[|l| - 1] == n;
      }
    }
  }

  lemma LinkingAbstract(st: State, n: int, o: Quote)
    requires WellFormed(st) && 0 <= n < |st.mem| && !Owned(st, n) && o.id !in st.lookup
    ensures Abstract(Linking(st, n, o)) == Abstract(st)[o.id := o]
  {
    var st' := Linking(st, n, o);
    LinkingFrame(st, n, o);
    forall id <- st.lookup ensures OrderAt(st'.mem, st.lookup[id].node) == OrderAt(st.mem, st.lookup[id].node) {
      assert SlotOk(st, id) && Owned(st, st.lookup[id].node);
    }
  }

  lemma LinkingOwned(st: State, n: int, o: Quote, c: int)
    requires WellFormed(st) && 0 <= n < |st.mem| && !Owned(st, n) && o.id !in st.lookup
    ensures Owned(Linking(st, n, o), c) <==> Owned(st, c) || c == n
  {
    LinkingFrame(st, n, o);
  }

  /** Time priority: the new order is last at its price, and no other queue changes. */
  lemma LinkingQueue(st: State, n: int, o: Quote, p: real)
    requires WellFormed(st) && 0 <= n < |st.mem| && !Owned(st, n) && o.id !in st.lookup
    ensures Queue(Linking(st, n, o), p) == if p == o.price then Queue(st, p) + [o.id] else Queue(st, p)
  {
    var st' := Linking(st, n, o);
    LinkingFrame(st, n, o);
    var l := ListAt(st, p);
    forall c <- l ensures OrderAt(st.mem, c).id == OrderAt(st'.mem, c).id {
      assert ListOk(st, p);
      var k :| 0 <= k < |l| && l[k] == c;
      assert Owned(st, c);
    }
    NamesFrame(st.mem, st'.mem, l);
    NamesAppend(st'.mem, l, [n]);
  }

  // ---------- removing an order ----------

  function Remove<T(==)>(s: seq<T>, x: T): seq<T> {
    if s == [] then [] else if s[0] == x then s[1..] else [s[0]] + Remove(s[1..], x)
  }

  lemma {:induction false} RemoveSplit<T>(a: seq<T>, x: T, b: seq<T>)
    requires x !in a
    ensures Remove(a + ([x] + b), x) == a + b
  {
    if a == [] {
      assert a + ([x] + b) == [x] + b && a + b == b;
    } else {
      assert (a + ([x] + b))[1..] == a[1..] + ([x] + b);
      RemoveSplit(a[1..], x, b);
    }
  }

  /** Unlinking the node of `id` and forgetting its slot; a level left empty goes too. */
  ghost function Unlinking(st: State, id: string): State
    requires id in st.lookup
  {
    var s := st.lookup[id];
    var l := Remove(ListAt(st, s.level), s.node);
    State(Spliced(st.mem, s.node),
          if l == [] then st.levels - {s.level} else st.levels[s.level := Level(First(l, -1), Last(l, -1))],
          st.lookup - {id},
          if l == [] then st.lists - {s.level} else st.lists[s.level := l])
  }

  lemma UnlinkingSplit(st: State, id: string) returns (a: seq<int>, b: seq<int>)
    requires WellFormed(st) && id in st.lookup
    ensures var s := st.lookup[id];
            s.level in st.lists && st.lists[s.level] == a + ([s.node] + b) && Remove(st.lists[s.level], s.node) == a + b
            && s.node !in a && s.node !in b
            && 0 <= s.node < |st.mem| && st.mem[s.node].prev == Last(a, -1) && st.mem[s.node].next == First(b, -1)
            && -1 <= st.mem[s.node].prev < |st.mem| && -1 <= st.mem[s.node].next < |st.mem|
            && Linked(Spliced(st.mem, s.node), a + b)
  {
    var s := st.lookup[id];
    assert SlotOk(st, id) && ListOk(st, s.level);
    var l := st.lists[s.level];
    var k :| 0 <= k < |l| && l[k] == s.node;
    a, b := l[..k], l[k + 1..];
    assert l == a + ([s.node] + b);
    SplicedLinked(st.mem, a, s.node, b);
    RemoveSplit(a, s.node, b);
  }

  lemma UnlinkingDefined(st: State, id: string)
    requires WellFormed(st) && id in st.lookup
    ensures var s := st.lookup[id];
            s.level in st.lists && s.level in st.levels && 0 <= s.node < |st.mem|
            && -1 <= st.mem[s.node].prev < |st.mem| && -1 <= st.mem[s.node].next < |st.mem|
  {
    var a, b := UnlinkingSplit(st, id);
  }

  /** Splicing writes only links, and only those of neighbours on the same level. */
  lemma UnlinkingFrame(st: State, id: string)
    requires WellFormed(st) && id in st.lookup
    ensures var s := st.lookup[id];
            var st' := Unlinking(st, id);
            s.level in st.lists && |st'.mem| == |st.mem|
            && (forall c :: 0 <= c < |st.mem| ==> st'.mem[c].order == st.mem[c].order)
            && (forall c :: 0 <= c < |st.mem| && c !in st.lists[s.level] ==> st'.mem[c] == st.mem[c])
  {
    var a, b := UnlinkingSplit(st, id);
    var s := st.lookup[id];
    var l := st.lists[s.level];
    assert a != [] ==> l[|a| - 1] == Last(a, -1);
    assert b != [] ==> l[|a| + 1] == First(b, -1);
    forall c | 0 <= c < |st.mem|
      ensures Spliced(st.mem, s.node)[c].order == st.mem[c].order
      ensures c !in l ==> Spliced(st.mem, s.node)[c] == st.mem[c]
    {
      SplicedFrame(st.mem, s.node, c);
    }
    SplicedFrame(st.mem, s.node, s.node);
  }

  lemma HomedMembers(st: State, p: real, l: seq<int>)
    requires Homed(st, p, l)
    ensures forall c <- l :: Owned(st, c) && st.mem[c].order.price == p
  {
  }

  lemma UnlinkingOther(st: State, id: string, p: real)
    requires WellFormed(st) && id in st.lookup && p in st.lists && p != st.lookup[id].level
    ensures ListOk(Unlinking(st, id), p)
  {
    UnlinkingFrame(st, id);
    var st' := Unlinking(st, id);
    var s := st.lookup[id];
    assert ListOk(st, p) && ListOk(st, s.level) && SlotOk(st, id);
    HomedMembers(st, p, st.lists[p]);
    HomedMembers(st, s.level, st.lists[s.level]);
    ChainFrame(st.mem, st'.mem, st.lists[p], -1, -1);
  }

  lemma UnlinkingOwn(st: State, id: string)
    requires WellFormed(st) && id in st.lookup
    ensures var p := st.lookup[id].level;
            var st' := Unlinking(st, id);
            (p in st'.levels <==> p in st'.lists) && (p in st'.lists ==> ListOk(st', p))
  {
    UnlinkingFrame(st, id);
    var st' := Unlinking(st, id);
    var s := st.lookup[id];
    var a, b := UnlinkingSplit(st, id);
    assert ListOk(st, s.level) && SlotOk(st, id);
    HomedUnlinked(st, st', s.level, a, s.node, b, id);
  }

  lemma HomedUnlinked(st: State, st': State, p: real, a: seq<int>, n: int, b: seq<int>, id: string)
    requires Homed(st, p, a + ([n] + b)) && n !in a && n !in b && |st'.mem| == |st.mem|
    requires id in st.lookup && st.lookup[id].node == n && st'.lookup == st.lookup - {id}
    requires forall c :: 0 <= c < |st.mem| ==> st'.mem[c].order == st.mem[c].order
    ensures Homed(st', p, a + b)
  {
    var l := a + ([n] + b);
    forall k | 0 <= k < |a + b|
      ensures var c := (a + b)[k];
              0 <= c < |st.mem| && st.mem[c].order.price == p && st.mem[c].order.id in st'.lookup
              && st'.lookup[st.mem[c].order.id] == Slot(c, p)
    {
      assert l[if k < |a| then k else k + 1] == (a + b)[k];
      assert (a + b)[k] != n;
    }
  }

  lemma StillListed(a: seq<int>, n: int, b: seq<int>, c: int)
    requires c in a + ([n] + b) && c != n
    ensures c in a + b
  {
  }

  lemma UnlinkingSlot(st: State, id: string, i: string)
    requires WellFormed(st) && id in st.lookup && i in st.lookup && i != id
    ensures SlotOk(Unlinking(st, id), i)
  {
    assert SlotOk(st, i) && SlotOk(st, id);
    var s, c := st.lookup[id], st.lookup[i].node;
    SplicedFrame(st.mem, s.node, c);
    if st.lookup[i].level == s.level {
      var a, b := UnlinkingSplit(st, id);
      StillListed(a, s.node, b, c);
    }
  }

  lemma UnlinkingWellFormed(st: State, id: string)
    requires WellFormed(st) && id in st.lookup
    ensures WellFormed(Unlinking(st, id))
  {
    var st' := Unlinking(st, id);
    UnlinkingFrame(st, id);
    UnlinkingOwn(st, id);
    forall p | p in st'.lists ensures ListOk(st', p) {
      if p != st.lookup[id].level { UnlinkingOther(st, id, p); }
    }
    forall i | i in st'.lookup ensures SlotOk(st', i) { UnlinkingSlot(st, id, i); }
  }

  lemma Forget(mem: seq<Node>, mem': seq<Node>, lookup: map<string, Slot>, id: string)
    requires |mem'| == |mem| && forall c :: 0 <= c < |mem| ==> mem'[c].order == mem[c].order
    ensures Resolved(mem', lookup - {id}) == Resolved(mem, lookup) - {id}
  {
  }

  lemma UnlinkingAbstract(st: State, id: string)
    requires WellFormed(st) && id in st.lookup
    ensures Abstract(Unlinking(st, id)) == Abstract(st) - {id}
  {
    UnlinkingFrame(st, id);
    Forget(st.mem, Unlinking(st, id).mem, st.lookup, id);
  }

  lemma UnlinkingOwned(st: State, id: string, c: int)
    requires WellFormed(st) && id in st.lookup
    ensures Owned(Unlinking(st, id), c) <==> Owned(st, c) && c != st.lookup[id].node
  {
    UnlinkingFrame(st, id);
    assert SlotOk(st, id);
    if Owned(st, c) { assert SlotOk(st, st.mem[c].order.id); }
  }

  lemma {:induction false} NamesMembers(st: State, l: seq<int>, id: string)
    requires id in st.lookup && forall c <- l :: Owned(st, c) && c != st.lookup[id].node
    ensures id !in Names(st.mem, l)
  {
    if l != [] {
      assert Owned(st, l[0]);
      NamesMembers(st, l[1..], id);
    }
  }

  lemma UnlinkingOwnQueue(st: State, id: string)
    requires WellFormed(st) && id in st.lookup
    ensures var s := st.lookup[id];
            s.level in st.lists
            && Names(st.mem, Remove(st.lists[s.level], s.node)) == Remove(Names(st.mem, st.lists[s.level]), id)
  {
    var s := st.lookup[id];
    var a, b := UnlinkingSplit(st, id);
    assert SlotOk(st, id) && ListOk(st, s.level);
    NamesAppend(st.mem, a, b);
    NamesAppend(st.mem, a, [s.node] + b);
    NamesAppend(st.mem, [s.node], b);
    HomedMembers(st, s.level, st.lists[s.level]);
    assert forall c <- a :: c in st.lists[s.level];
    NamesMembers(st, a, id);
    assert Names(st.mem, [s.node]) == [id];
    RemoveSplit(Names(st.mem, a), id, Names(st.mem, b));
  }

  lemma UnlinkingSameLevel(st: State, id: string)
    requires WellFormed(st) && id in st.lookup
    ensures var p := st.lookup[id].level; Queue(Unlinking(st, id), p) == Remove(Queue(st, p), id)
  {
    var s := st.lookup[id];
    UnlinkingDefined(st, id);
    UnlinkingOwnQueue(st, id);
    NamesSpliced(st.mem, s.node, Remove(st.lists[s.level], s.node));
  }

  lemma {:induction false} NamesSpliced(mem: seq<Node>, n: int, l: seq<int>)
    ensures Names(Spliced(mem, n), l) == Names(mem, l)
  {
    if l != [] { NamesSpliced(mem, n, l[1..]); }
  }

  lemma UnlinkingOtherLevel(st: State, id: string, p: real)
    requires WellFormed(st) && id in st.lookup && p != st.lookup[id].level
    ensures Queue(Unlinking(st, id), p) == Queue(st, p)
  {
    UnlinkingDefined(st, id);
    if p in st.lists { NamesSpliced(st.mem, st.lookup[id].node, st.lists[p]); }
  }

  /** Only the queue at the order's price changes: it loses that id and keeps its order. */
  lemma UnlinkingQueue(st: State, id: string, p: real)
    requires WellFormed(st) && id in st.lookup
    ensures Queue(Unlinking(st, id), p) == if p == st.lookup[id].level then Remove(Queue(st, p), id) else Queue(st, p)
  {
    if p == st.lookup[id].level { UnlinkingSameLevel(st, id); } else { UnlinkingOtherLevel(st, id, p); }
  }

  // ---------- changing a quantity in place ----------

  ghost function Requantified(st: State, id: string, quantity: int): State
    requires id in st.lookup
  {
    var n := st.lookup[id].node;
    st.(mem := if 0 <= n < |st.mem| then st.mem[n := st.mem[n].(order := st.mem[n].order.(quantity := quantity))]
               else st.mem)
  }

  lemma RequantifiedFrame(st: State, id: string, quantity: int)
    requires WellFormed(st) && id in st.lookup
    ensures var st' := Requantified(st, id, quantity);
            |st'.mem| == |st.mem|
            && forall c :: 0 <= c < |st.mem| ==>
                             st'.mem[c].prev == st.mem[c].prev && st'.mem[c].next == st.mem[c].next
                             && st'.mem[c].order.id == st.mem[c].order.id
                             && st'.mem[c].order.price == st.mem[c].order.price
  {
  }

  lemma RequantifiedWellFormed(st: State, id: string, quantity: int)
    requires WellFormed(st) && id in st.lookup
    ensures WellFormed(Requantified(st, id, quantity))
    ensures forall c :: Owned(Requantified(st, id, quantity), c) <==> Owned(st, c)
  {
    var st' := Requantified(st, id, quantity);
    RequantifiedFrame(st, id, quantity);
    forall p | p in st'.lists ensures ListOk(st', p) {
      assert ListOk(st, p);
      ChainFrame(st.mem, st'.mem, st.lists[p], -1, -1);
    }
    forall i | i in st'.lookup ensures SlotOk(st', i) {
      assert SlotOk(st, i);
    }
  }

  lemma RequantifiedQueue(st: State, id: string, quantity: int, p: real)
    requires WellFormed(st) && id in st.lookup
    ensures Queue(Requantified(st, id, quantity), p) == Queue(st, p)
  {
    RequantifiedFrame(st, id, quantity);
    if p in st.lists { NamesFrame(st.mem, Requantified(st, id, quantity).mem, st.lists[p]); }
  }

  lemma Requoted(mem: seq<Node>, lookup: map<string, Slot>, id: string, o: Quote)
    requires id in lookup && 0 <= lookup[id].node < |mem|
    requires forall i <- lookup :: i != id ==> lookup[i].node != lookup[id].node
    ensures Resolved(mem[lookup[id].node := mem[lookup[id].node].(order := o)], lookup) ==
            Resolved(mem, lookup)[id := o]
  {
  }

  lemma RequantifiedAbstract(st: State, id: string, quantity: int)
    requires WellFormed(st) && id in st.lookup
    ensures id in Abstract(st)
    ensures Abstract(Requantified(st, id, quantity)) == Abstract(st)[id := Abstract(st)[id].(quantity := quantity)]
  {
    assert SlotOk(st, id);
    forall i <- st.lookup | i != id ensures st.lookup[i].node != st.lookup[id].node {
      assert SlotOk(st, i);
    }
    Requoted(st.mem, st.lookup, id, st.mem[st.lookup[id].node].order.(quantity := quantity));
  }

  /** The orders carry their own ids, and each is listed under its price. */
  lemma AbstractOrder(st: State, id: string)
    requires WellFormed(st) && id in st.lookup
    ensures id in Abstract(st) && Abstract(st)[id].id == id && Abstract(st)[id].price == st.lookup[id].level
            && Abstract(st)[id] == OrderAt(st.mem, st.lookup[id].node) && 0 <= st.lookup[id].node < |st.mem|
  {
    assert SlotOk(st, id) && ListOk(st, st.lookup[id].level);
    HomedMembers(st, st.lookup[id].level, st.lists[st.lookup[id].level]);
  }

  /** The levels are the prices in use. */
  lemma LevelsArePrices(st: State)
    requires WellFormed(st)
    ensures st.levels.Keys == Prices(Abstract(st))
  {
    forall p | p in st.levels ensures p in Prices(Abstract(st)) {
      assert ListOk(st, p);
      var c := st.lists[p][0];
      AbstractOrder(st, st.mem[c].order.id);
      assert Abstract(st)[st.mem[c].order.id].price in Prices(Abstract(st));
    }
    forall id | id in Abstract(st) ensures Abstract(st)[id].price in st.levels {
      AbstractOrder(st, id);
      assert SlotOk(st, id);
    }
  }

  /** The lists of the levels partition the live nodes. */
  lemma LevelsPartition(st: State, c: int)
    requires WellFormed(st)
    ensures Owned(st, c) <==> exists p :: p in st.lists && c in st.lists[p]
    ensures forall p, r :: p in st.lists && r in st.lists && c in st.lists[p] && c in st.lists[r] ==> p == r
  {
    if Owned(st, c) { assert SlotOk(st, st.mem[c].order.id); }
    forall p | p in st.lists && c in st.lists[p] ensures Owned(st, c) && st.mem[c].order.price == p {
      assert ListOk(st, p);
    }
  }

  /** No level is empty, and its two walks visit its list and the reverse of it, however many steps are allowed. */
  lemma LevelWalks(st: State, p: real, steps: nat)
    requires WellFormed(st) && p in st.levels && p in st.lists && steps >= |st.lists[p]|
    ensures var l := st.lists[p];
            l != [] && Forward(st.mem, st.levels[p].head, steps) == l
            && Backward(st.mem, st.levels[p].tail, steps) == Reverse(l)
  {
    assert ListOk(st, p);
    ForwardWalk(st.mem, st.lists[p], -1, steps);
    BackwardWalk(st.mem, st.lists[p], -1, steps);
  }
}
