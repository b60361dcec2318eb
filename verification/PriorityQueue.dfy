/** The binary max-heap of orders: best price first, earlier timestamp first among equals. */
module PriorityQueue {

  datatype Order = Order(price: real, timestamp: nat, qty: nat, id: nat)

  /** `a` is served after `b`. */
  predicate Less(a: Order, b: Order) {
    if a.price != b.price then a.price < b.price else a.timestamp > b.timestamp
  }

  predicate ChildOf(c: int, p: int) {
    c == 2 * p + 1 || c == 2 * p + 2
  }

  /** No child is served before its parent, but for the edges into `above` and out of `below`. */
  ghost predicate Ordered(s: seq<Order>, above: int, below: int) {
    forall p, c :: 0 <= p < c < |s| && ChildOf(c, p) && c != above && p != below ==> !Less(s[p], s[c])
  }

  /** The children of `hole` are served no earlier than its parent. */
  ghost predicate Bridged(s: seq<Order>, hole: int) {
    forall g, c :: 0 <= g < hole < c < |s| && ChildOf(hole, g) && ChildOf(c, hole) ==> !Less(s[g], s[c])
  }

  ghost predicate HeapOrder(s: seq<Order>) {
    Ordered(s, -1, -1)
  }

  /** The root is served first. */
  lemma {:induction false} TopIsBest(s: seq<Order>, k: nat)
    requires HeapOrder(s) && k < |s|
    ensures !Less(s[0], s[k])
  {
    if k > 0 {
      TopIsBest(s, (k - 1) / 2);
      assert ChildOf(k, (k - 1) / 2);
    }
  }

  /** Moving a parent down into the hole below it. */
  lemma UpStep(s: seq<Order>, hole: nat, p: nat)
    requires p < hole < |s| && ChildOf(hole, p) && Less(s[p], s[hole])
    requires Ordered(s, hole, -1) && Bridged(s, hole)
    ensures var t := s[hole := s[p]][p := s[hole]];
            Ordered(t, p, -1) && Bridged(t, p) && multiset(t) == multiset(s)
  {
    var t := s[hole := s[p]][p := s[hole]];
    forall a, c | 0 <= a < c < |t| && ChildOf(c, a) && c != p ensures !Less(t[a], t[c]) {
      if a == p && c != hole { assert !Less(s[p], s[c]); }
    }
    forall g, c | 0 <= g < p < c < |t| && ChildOf(p, g) && ChildOf(c, p) ensures !Less(t[g], t[c]) {
      assert !Less(s[g], s[p]);
      if c != hole { assert !Less(s[p], s[c]); }
    }
  }

  ghost predicate BestChild(s: seq<Order>, hole: nat, child: nat) {
    hole < child < |s| && ChildOf(child, hole)
    && forall c :: hole < c < |s| && ChildOf(c, hole) ==> !Less(s[child], s[c])
  }

  lemma PickChild(s: seq<Order>, hole: nat)
    requires 2 * hole + 1 < |s|
    ensures var c := 2 * hole + 1;
            BestChild(s, hole, if c + 1 < |s| && Less(s[c], s[c + 1]) then c + 1 else c)
  {
  }

  lemma DownLeaf(s: seq<Order>, hole: nat)
    requires Ordered(s, -1, hole) && 2 * hole + 1 >= |s|
    ensures HeapOrder(s)
  {
  }

  lemma DownStop(s: seq<Order>, hole: nat, child: nat)
    requires Ordered(s, -1, hole) && BestChild(s, hole, child) && !Less(s[hole], s[child])
    ensures HeapOrder(s)
  {
    forall p, c | 0 <= p < c < |s| && ChildOf(c, p) ensures !Less(s[p], s[c]) {
      if p == hole { assert !Less(s[child], s[c]); }
    }
  }

  /** Moving the better child up into the hole above it. */
  lemma DownStep(s: seq<Order>, hole: nat, child: nat)
    requires BestChild(s, hole, child) && Less(s[hole], s[child])
    requires Ordered(s, -1, hole) && Bridged(s, hole)
    ensures var t := s[hole := s[child]][child := s[hole]];
            Ordered(t, -1, child) && Bridged(t, child) && multiset(t) == multiset(s)
  {
    var t := s[hole := s[child]][child := s[hole]];
    forall a, c | 0 <= a < c < |t| && ChildOf(c, a) && a != child ensures !Less(t[a], t[c]) {
    }
    forall g, c | 0 <= g < child < c < |t| && ChildOf(child, g) && ChildOf(c, child) ensures !Less(t[g], t[c]) {
      assert g == hole && !Less(s[child], s[c]);
    }
  }

  /** One turn of the loops that carry a hole: the element at `next` moves into the hole. */
  lemma HoleUp(d: seq<Order>, hole: nat, p: nat, value: Order)
    requires p < hole < |d| && ChildOf(hole, p) && Less(d[p], value)
    requires Ordered(d[hole := value], hole, -1) && Bridged(d[hole := value], hole)
    ensures var t := d[hole := d[p]][p := value];
            Ordered(t, p, -1) && Bridged(t, p) && multiset(t) == multiset(d[hole := value])
  {
    UpStep(d[hole := value], hole, p);
    assert d[hole := value][hole := d[p]] == d[hole := d[p]];
  }

  lemma HoleDown(d: seq<Order>, hole: nat, child: nat, value: Order)
    requires hole < child < |d| && BestChild(d[hole := value], hole, child) && Less(value, d[child])
    requires Ordered(d[hole := value], -1, hole) && Bridged(d[hole := value], hole)
    ensures var t := d[hole := d[child]][child := value];
            Ordered(t, -1, child) && Bridged(t, child) && multiset(t) == multiset(d[hole := value])
  {
    DownStep(d[hole := value], hole, child);
    assert d[hole := value][hole := d[child]] == d[hole := d[child]];
  }

  /** The last element put in the root's place leaves only the edges out of the root in doubt. */
  lemma PopReady(s: seq<Order>)
    requires HeapOrder(s) && s != []
    ensures |s| == 1 ==> multiset(s[..0]) == multiset(s) - multiset{s[0]}
    ensures |s| > 1 ==> var u := s[..|s| - 1][0 := s[|s| - 1]];
                        Ordered(u, -1, 0) && Bridged(u, 0) && multiset(u) == multiset(s) - multiset{s[0]}
  {
    assert s == s[..|s| - 1] + [s[|s| - 1]];
    if |s| > 1 {
      var u := s[..|s| - 1][0 := s[|s| - 1]];
      forall p, c | 0 <= p < c < |u| && ChildOf(c, p) && p != 0 ensures !Less(u[p], u[c]) {
        assert !Less(s[p], s[c]);
      }
    }
  }

  class BinaryHeap {
    var data: seq<Order>

    ghost predicate Valid() reads this {
      HeapOrder(data)
    }

    constructor ()
      ensures Valid() && data == []
    {
      data := [];
    }

    /** Carries the hole at `hole` towards the root and fills it with `value`. */
    method SiftUpHole(hole0: nat, value: Order)
      requires hole0 < |data| && Ordered(data[hole0 := value], hole0, -1) && Bridged(data[hole0 := value], hole0)
      modifies this
      ensures Valid() && multiset(data) == multiset(old(data)[hole0 := value]) && |data| == |old(data)|
    {
      var hole := hole0;
      while hole > 0
        invariant 0 <= hole < |data| == |old(data)|
        invariant Ordered(data[hole := value], hole, -1) && Bridged(data[hole := value], hole)
        invariant multiset(data[hole := value]) == multiset(old(data)[hole0 := value])
      {
        var p := (hole - 1) / 2;
        assert ChildOf(hole, p);
        if !Less(data[p], value) {
          assert Ordered(data[hole := value], -1, -1);
          break;
        }
        HoleUp(data, hole, p, value);
        data := data[hole := data[p]];
        hole := p;
      }
      data := data[hole := value];
    }

    /** Carries the hole at `hole` towards the leaves and fills it with `value`. */
    method SiftDownHole(hole0: nat, value: Order)
      requires hole0 < |data| && Ordered(data[hole0 := value], -1, hole0) && Bridged(data[hole0 := value], hole0)
      modifies this
      ensures Valid() && multiset(data) == multiset(old(data)[hole0 := value]) && |data| == |old(data)|
    {
      var hole := hole0;
      var n := |data|;
      var child := 2 * hole + 1;
      while child < n
        invariant hole < |data| == n == |old(data)| && child == 2 * hole + 1
        invariant Ordered(data[hole := value], -1, hole) && Bridged(data[hole := value], hole)
        invariant multiset(data[hole := value]) == multiset(old(data)[hole0 := value])
        decreases n - hole
      {
        PickChild(data[hole := value], hole);
        if child + 1 < n && Less(data[child], data[child + 1]) {
          child := child + 1;
        }
        if !Less(value, data[child]) {
          DownStop(data[hole := value], hole, child);
          break;
        }
        HoleDown(data, hole, child, value);
        data := data[hole := data[child]];
        hole := child;
        child := 2 * hole + 1;
      }
      if child >= n { DownLeaf(data[hole := value], hole); }
      data := data[hole := value];
    }

    method Push(v: Order)
      requires Valid()
      modifies this
      ensures Valid() && multiset(data) == multiset(old(data)) + multiset{v}
    {
      ghost var was := data;
      data := data + [Order(0.0, 0, 0, 0)];
      assert data[|was| := v] == was + [v];
      SiftUpHole(|data| - 1, v);
    }

    method Pop()
      requires Valid() && data != []
      modifies this
      ensures Valid() && multiset(data) == multiset(old(data)) - multiset{old(data)[0]} && |data| == |old(data)| - 1
    {
      PopReady(data);
      var tail := data[|data| - 1];
      data := data[..|data| - 1];
      if data != [] {
        SiftDownHole(0, tail);
      }
    }
  }

  // ---------- runs ----------

  datatype Op = PushOp(o: Order) | PopOp

  ghost predicate IsBest(m: multiset<Order>, o: Order) {
    o in m && forall x :: x in m ==> !Less(o, x)
  }

  /** What any correct queue does over a run from `waiting` to `left`: each pop of a non-empty queue takes an order
      that nothing waiting is served before. */
  ghost predicate Serves(waiting: multiset<Order>, ops: seq<Op>, served: seq<Order>, left: multiset<Order>)
    decreases ops
  {
    if ops == [] then served == [] && left == waiting
    else
      match ops[0]
      case PushOp(o) => Serves(waiting + multiset{o}, ops[1..], served, left)
      case PopOp =>
        if waiting == multiset{} then Serves(waiting, ops[1..], served, left)
        else served != [] && IsBest(waiting, served[0])
             && Serves(waiting - multiset{served[0]}, ops[1..], served[1..], left)
  }

  lemma {:induction false} ServesAppend(waiting: multiset<Order>, ops: seq<Op>, served: seq<Order>,
                                        mid: multiset<Order>,
                                        more: seq<Op>, servedNext: seq<Order>, left: multiset<Order>)
    requires Serves(waiting, ops, served, mid) && Serves(mid, more, servedNext, left)
    ensures Serves(waiting, ops + more, served + servedNext, left)
    decreases ops
  {
    if ops == [] {
      assert ops + more == more && served + servedNext == servedNext;
    } else {
      assert (ops + more)[1..] == ops[1..] + more;
      match ops[0]
      case PushOp(o) => ServesAppend(waiting + multiset{o}, ops[1..], served, mid, more, servedNext, left);
      case PopOp =>
        if waiting == multiset{} {
          ServesAppend(waiting, ops[1..], served, mid, more, servedNext, left);
        } else {
          assert (served + servedNext)[1..] == served[1..] + servedNext;
          ServesAppend(waiting - multiset{served[0]}, ops[1..], served[1..], mid, more, servedNext, left);
        }
    }
  }

  ghost function Pushed(ops: seq<Op>): multiset<Order> {
    if ops == [] then multiset{}
    else (if ops[0].PushOp? then multiset{ops[0].o} else multiset{}) + Pushed(ops[1..])
  }

  lemma SameSeq(s: seq<Order>, t: seq<Order>)
    requires s != [] && t != [] && s[0] == t[0] && s[1..] == t[1..]
    ensures s == t
  {
    assert s == [s[0]] + s[1..] && t == [t[0]] + t[1..];
  }

  lemma HeadFirst(s: seq<Order>)
    requires s != []
    ensures multiset(s) == multiset{s[0]} + multiset(s[1..])
  {
    assert s == [s[0]] + s[1..];
  }

  lemma Regroup(w: multiset<Order>, o: Order, p: multiset<Order>)
    ensures w + multiset{o} + p == w + (multiset{o} + p)
  {
  }

  lemma PutBack(w: multiset<Order>, o: Order, p: multiset<Order>, s: multiset<Order>, l: multiset<Order>)
    requires o in w && w - multiset{o} + p == s + l
    ensures w + p == multiset{o} + s + l
  {
    forall x | true ensures (w + p)[x] == (multiset{o} + s + l)[x] {
      assert (w - multiset{o} + p)[x] == (s + l)[x];
    }
  }

  /** Nothing pushed is lost, duplicated or made up. */
  lemma {:induction false} ServesConserves(waiting: multiset<Order>, ops: seq<Op>, served: seq<Order>,
                                           left: multiset<Order>)
    requires Serves(waiting, ops, served, left)
    ensures waiting + Pushed(ops) == multiset(served) + left
    decreases ops
  {
    if ops != [] {
      match ops[0]
      case PushOp(o) => ServesConserves(waiting + multiset{o}, ops[1..], served, left);
      case PopOp =>
        if waiting == multiset{} {
          ServesConserves(waiting, ops[1..], served, left);
        } else {
          ServesConserves(waiting - multiset{served[0]}, ops[1..], served[1..], left);
          PutBack(waiting, served[0], Pushed(ops[1..]), multiset(served[1..]), left);
          HeadFirst(served);
        }
    }
  }

  /** No two orders tie on both price and time. */
  ghost predicate TieFree(m: multiset<Order>) {
    forall x, y :: x in m && y in m && x.price == y.price && x.timestamp == y.timestamp ==> x == y
  }

  lemma BestUnique(w: multiset<Order>, p: multiset<Order>, x: Order, y: Order)
    requires TieFree(w + p) && IsBest(w, x) && IsBest(w, y)
    ensures x == y && TieFree(w - multiset{x} + p)
  {
    assert x in w + p && y in w + p;
    forall a, b |
        a in w - multiset{x} + p && b in w - multiset{x} + p && a.price == b.price && a.timestamp == b.timestamp
      ensures a == b
    {
      assert a in w + p && b in w + p;
    }
  }

  /** Without ties every correct queue serves the same orders in the same sequence. */
  lemma {:induction false} ServesUnique(waiting: multiset<Order>, ops: seq<Op>,
                                        served: seq<Order>, left: multiset<Order>,
                                        served': seq<Order>, left': multiset<Order>)
    requires TieFree(waiting + Pushed(ops)) && Serves(waiting, ops, served, left)
             && Serves(waiting, ops, served', left')
    ensures served == served' && left == left'
    decreases ops
  {
    if ops != [] {
      match ops[0]
      case PushOp(o) =>
        assert waiting + multiset{o} + Pushed(ops[1..]) == waiting + Pushed(ops) by {
          Regroup(waiting, o, Pushed(ops[1..]));
        }
        ServesUnique(waiting + multiset{o}, ops[1..], served, left, served', left');
      case PopOp =>
        if waiting == multiset{} {
          ServesUnique(waiting, ops[1..], served, left, served', left');
        } else {
          BestUnique(waiting, Pushed(ops), served[0], served'[0]);
          ServesUnique(waiting - multiset{served[0]}, ops[1..], served[1..], left, served'[1..], left');
          SameSeq(served, served');
        }
    }
  }

  ghost predicate OnlyPops(ops: seq<Op>) {
    forall k :: 0 <= k < |ops| ==> ops[k].PopOp?
  }

  /** The price falls, or stays while the timestamp does not fall. */
  predicate NoBetter(first: Order, second: Order) {
    first.price > second.price || (first.price == second.price && first.timestamp <= second.timestamp)
  }

  /** Draining serves by falling price and, at one price, by rising timestamp. */
  lemma {:induction false} DrainSorted(waiting: multiset<Order>, ops: seq<Op>,
                                       served: seq<Order>, left: multiset<Order>)
    requires OnlyPops(ops) && Serves(waiting, ops, served, left)
    ensures forall i, j :: 0 <= i < j < |served| ==>
              served[i].price > served[j].price
              || (served[i].price == served[j].price && served[i].timestamp <= served[j].timestamp)
    decreases ops
  {
    if ops != [] && waiting != multiset{} {
      var rest := waiting - multiset{served[0]};
      DrainSorted(rest, ops[1..], served[1..], left);
      ServesConserves(rest, ops[1..], served[1..], left);
      PushedNothing(ops[1..]);
      forall i, j | 0 <= i < j < |served| ensures NoBetter(served[i], served[j]) {
        if i == 0 {
          assert served[j] in multiset(served[1..]) by { assert served[j] == served[1..][j - 1]; }
          assert rest == multiset(served[1..]) + left;
        } else {
          assert served[i] == served[1..][i - 1] && served[j] == served[1..][j - 1];
        }
      }
    } else if ops != [] {
      DrainSorted(waiting, ops[1..], served, left);
    }
  }

  lemma {:induction false} PushedNothing(ops: seq<Op>)
    requires OnlyPops(ops)
    ensures Pushed(ops) == multiset{}
  {
    if ops != [] { PushedNothing(ops[1..]); }
  }

  // ---------- what is served, operation by operation ----------

  /** How many orders wait after `ops`, of `n` before; a pop of an empty queue does nothing. */
  function Size(n: nat, ops: seq<Op>): nat
    decreases ops
  {
    if ops == [] then n
    else Size(if ops[0].PushOp? then n + 1 else if n == 0 then 0 else n - 1, ops[1..])
  }

  /** How many orders are served by `ops`, with `n` waiting before. */
  function Served(n: nat, ops: seq<Op>): nat
    decreases ops
  {
    if ops == [] then 0
    else if ops[0].PushOp? then Served(n + 1, ops[1..])
    else if n == 0 then Served(0, ops[1..])
    else 1 + Served(n - 1, ops[1..])
  }

  lemma {:induction false} ServesCounts(waiting: multiset<Order>, ops: seq<Op>, served: seq<Order>,
                                        left: multiset<Order>)
    requires Serves(waiting, ops, served, left)
    ensures |served| == Served(|waiting|, ops) && |left| == Size(|waiting|, ops)
    decreases ops
  {
    if ops != [] {
      match ops[0]
      case PushOp(o) => ServesCounts(waiting + multiset{o}, ops[1..], served, left);
      case PopOp =>
        if waiting == multiset{} {
          ServesCounts(waiting, ops[1..], served, left);
        } else {
          assert |waiting| == |waiting - multiset{served[0]}| + 1;
          ServesCounts(waiting - multiset{served[0]}, ops[1..], served[1..], left);
        }
    }
  }

  /** A run of `first` and then `second` is a run of either. */
  lemma {:induction false} ServesSplit(waiting: multiset<Order>, first: seq<Op>, second: seq<Op>, served: seq<Order>,
                                       left: multiset<Order>)
    returns (early: seq<Order>, late: seq<Order>, mid: multiset<Order>)
    requires Serves(waiting, first + second, served, left)
    ensures served == early + late && Serves(waiting, first, early, mid) && Serves(mid, second, late, left)
    decreases first
  {
    if first == [] {
      early, late, mid := [], served, waiting;
      assert first + second == second;
    } else {
      assert (first + second)[1..] == first[1..] + second;
      if first[0].PushOp? {
        early, late, mid := ServesSplit(waiting + multiset{first[0].o}, first[1..], second, served, left);
      } else if waiting == multiset{} {
        early, late, mid := ServesSplit(waiting, first[1..], second, served, left);
      } else {
        var o := served[0];
        early, late, mid := ServesSplit(waiting - multiset{o}, first[1..], second, served[1..], left);
        PopFirst(waiting, first, o, early, mid);
        early := [o] + early;
        assert served == [o] + served[1..];
      }
    }
  }

  lemma PopFirst(waiting: multiset<Order>, ops: seq<Op>, o: Order, served: seq<Order>, left: multiset<Order>)
    requires ops != [] && ops[0].PopOp? && IsBest(waiting, o)
    requires Serves(waiting - multiset{o}, ops[1..], served, left)
    ensures Serves(waiting, ops, [o] + served, left)
  {
    assert ([o] + served)[1..] == served;
  }

  /** What a pop takes from a queue that is not empty. */
  lemma PopTakesBest(waiting: multiset<Order>, ops: seq<Op>, served: seq<Order>, left: multiset<Order>)
    requires Serves(waiting, ops, served, left) && ops != [] && ops[0].PopOp? && |waiting| > 0
    ensures served != [] && served[0] in waiting && forall x :: x in waiting ==> NoBetter(served[0], x)
  {
    assert IsBest(waiting, served[0]);
  }

  /** If operation `k` pops a queue that is not empty, what it serves is one of those that waited at the start or were
      pushed before and have not been served yet, with the highest price and, among those, the earliest timestamp. */
  ghost predicate BestServed(waiting: multiset<Order>, ops: seq<Op>, served: seq<Order>, k: nat)
    requires k < |ops|
  {
    ops[k].PopOp? && Size(|waiting|, ops[..k]) > 0 ==>
      var n := Served(|waiting|, ops[..k]);
      n < |served|
      && var there := waiting + Pushed(ops[..k]) - multiset(served[..n]);
         served[n] in there
         && forall x :: x in there ==>
              served[n].price > x.price || (served[n].price == x.price && served[n].timestamp <= x.timestamp)
  }

  /** Every pop of every run. */
  lemma ServesBest(waiting: multiset<Order>, ops: seq<Op>, served: seq<Order>, left: multiset<Order>, k: nat)
    requires Serves(waiting, ops, served, left) && k < |ops|
    ensures BestServed(waiting, ops, served, k)
  {
    assert ops == ops[..k] + ops[k..];
    var early, late, mid := ServesSplit(waiting, ops[..k], ops[k..], served, left);
    ServesCounts(waiting, ops[..k], early, mid);
    ServesConserves(waiting, ops[..k], early, mid);
    Difference(waiting + Pushed(ops[..k]), multiset(early), mid);
    if ops[k].PopOp? && |mid| > 0 {
      PopTakesBest(mid, ops[k..], late, left);
      assert served[..|early|] == early && served[|early|] == late[0];
    }
  }

  lemma Difference(all: multiset<Order>, a: multiset<Order>, b: multiset<Order>)
    requires all == a + b
    ensures all - a == b
  {
  }

  /** One operation; a pop is guarded. */
  method Perform(h: BinaryHeap, op: Op) returns (served: seq<Order>)
    requires h.Valid()
    modifies h
    ensures h.Valid() && Serves(multiset(old(h.data)), [op], served, multiset(h.data))
  {
    served := [];
    match op
    case PushOp(o) => h.Push(o);
    case PopOp =>
      if h.data != [] {
        served := [h.data[0]];
        RootIsBest(h.data);
        h.Pop();
      }
  }

  /** Any interleaving of pushes and guarded pops. */
  method Drive(h: BinaryHeap, ops: seq<Op>) returns (served: seq<Order>)
    requires h.Valid()
    modifies h
    ensures h.Valid() && Serves(multiset(old(h.data)), ops, served, multiset(h.data))
    ensures forall k: nat :: k < |ops| ==> BestServed(multiset(old(h.data)), ops, served, k)
  {
    served := [];
    ghost var start, now := multiset(h.data), multiset(h.data);
    for k := 0 to |ops|
      invariant h.Valid() && now == multiset(h.data) && Serves(start, ops[..k], served, now)
    {
      var more := Perform(h, ops[k]);
      ghost var next := multiset(h.data);
      ServesAppend(start, ops[..k], served, now, [ops[k]], more, next);
      NextOp(ops, k);
      served, now := served + more, next;
    }
    assert ops[..|ops|] == ops;
    forall k: nat | k < |ops| ensures BestServed(start, ops, served, k) { ServesBest(start, ops, served, now, k); }
  }

  lemma NextOp(ops: seq<Op>, k: nat)
    requires k < |ops|
    ensures ops[..k + 1] == ops[..k] + [ops[k]]
  {
  }

  lemma RootIsBest(s: seq<Order>)
    requires HeapOrder(s) && s != []
    ensures IsBest(multiset(s), s[0])
  {
    forall x | x in multiset(s) ensures !Less(s[0], x) {
      var k :| 0 <= k < |s| && s[k] == x;
      TopIsBest(s, k);
    }
  }

  /** What is served so far stands in order, and before all that is left. */
  ghost predicate Drained(served: seq<Order>, left: multiset<Order>) {
    (forall i, j :: 0 <= i < j < |served| ==> NoBetter(served[i], served[j]))
    && forall i, x :: 0 <= i < |served| && x in left ==> NoBetter(served[i], x)
  }

  lemma DrainStep(served: seq<Order>, left: multiset<Order>, o: Order)
    requires Drained(served, left) && IsBest(left, o)
    ensures Drained(served + [o], left - multiset{o})
    ensures multiset(served + [o]) + (left - multiset{o}) == multiset(served) + left
  {
    forall x | x in left ensures NoBetter(o, x) { assert !Less(o, x); }
  }

  /** Draining: every order comes out once, by falling price and, at one price, by rising timestamp. */
  method Drain(h: BinaryHeap) returns (served: seq<Order>)
    requires h.Valid()
    modifies h
    ensures h.data == [] && multiset(served) == multiset(old(h.data))
    ensures forall i, j :: 0 <= i < j < |served| ==>
              served[i].price > served[j].price
              || (served[i].price == served[j].price && served[i].timestamp <= served[j].timestamp)
  {
    served := [];
    while h.data != []
      invariant h.Valid() && multiset(served) + multiset(h.data) == multiset(old(h.data))
      invariant Drained(served, multiset(h.data))
      decreases |h.data|
    {
      RootIsBest(h.data);
      DrainStep(served, multiset(h.data), h.data[0]);
      served := served + [h.data[0]];
      h.Pop();
    }
  }
}
