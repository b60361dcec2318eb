/** The two books of phase 4 over shared order objects, both proved against the same price levels. */
module Books {
  import opened Orders
  import opened PriceLevels

  ghost function Ids(q: seq<Order>): seq<int> {
    seq(|q|, k requires 0 <= k < |q| => q[k].id)
  }

  /** The levels with ids in place of objects. */
  ghost function View(levels: seq<Level<Order>>): seq<Level<int>> {
    if levels == [] then [] else [Level(levels[0].price, Ids(levels[0].q))] + View(levels[1..])
  }

  /** The book holds the very objects that are registered under their ids. */
  ghost predicate HeldQ(reg: Registry, q: seq<Order>) {
    forall k :: 0 <= k < |q| ==> q[k].id in reg && reg[q[k].id] == q[k]
  }

  ghost predicate Held(reg: Registry, levels: seq<Level<Order>>) {
    levels == [] || (HeldQ(reg, levels[0].q) && Held(reg, levels[1..]))
  }

  lemma {:induction false} ViewInsert(s: Side, levels: seq<Level<Order>>, o: Order)
    ensures View(Insert(s, levels, o.price, o)) == Insert(s, View(levels), o.price, o.id)
  {
    if levels != [] {
      assert View(levels)[1..] == View(levels[1..]);
      if Better(s, levels[0].price, o.price) {
        ViewInsert(s, levels[1..], o);
      } else if levels[0].price == o.price {
        assert Ids(levels[0].q + [o]) == Ids(levels[0].q) + [o.id];
        var l := Level(o.price, levels[0].q + [o]);
        assert ([l] + levels[1..])[1..] == levels[1..];
      } else {
        assert ([Level(o.price, [o])] + levels)[1..] == levels;
      }
    }
    assert Ids([o]) == [o.id];
  }

  lemma {:induction false} HeldInsert(reg: Registry, s: Side, levels: seq<Level<Order>>, o: Order)
    requires Held(reg, levels) && o.id in reg && reg[o.id] == o
    ensures Held(reg, Insert(s, levels, o.price, o))
  {
    if levels != [] && Better(s, levels[0].price, o.price) {
      HeldInsert(reg, s, levels[1..], o);
    }
  }

  lemma {:induction false} HeldMonotone(reg: Registry, reg': Registry, levels: seq<Level<Order>>)
    requires Held(reg, levels) && forall i :: i in reg ==> i in reg' && reg'[i] == reg[i]
    ensures Held(reg', levels)
  {
    if levels != [] { HeldMonotone(reg, reg', levels[1..]); }
  }

  lemma ViewPop(reg: Registry, levels: seq<Level<Order>>)
    requires Held(reg, levels) && levels != [] && levels[0].q != []
    ensures View(WithoutBest(levels)) == WithoutBest(View(levels)) && Held(reg, WithoutBest(levels))
  {
    assert Ids(levels[0].q[1..]) == Ids(levels[0].q)[1..];
    assert View(levels)[1..] == View(levels[1..]);
  }

  lemma {:induction false} ViewLadder(s: Side, levels: seq<Level<Order>>)
    ensures Ladder(s, levels) == Ladder(s, View(levels))
  {
    if levels != [] {
      ViewLadder(s, levels[1..]);
      assert View(levels)[1..] == View(levels[1..]);
    }
  }

  /** Dropping dead objects from a queue, one `pop_front` at a time. */
  method PruneQueue(ghost reg: Registry, q: seq<Order>) returns (left: seq<Order>)
    requires HeldQ(reg, q)
    ensures Ids(left) == DropDead(StoreOf(reg), Ids(q)) && HeldQ(reg, left)
  {
    left := q;
    while left != [] && !left[0].Live()
      invariant HeldQ(reg, left)
      invariant DropDead(StoreOf(reg), Ids(left)) == DropDead(StoreOf(reg), Ids(q))
      decreases |left|
    {
      assert Ids(left)[0] == left[0].id && Ids(left)[1..] == Ids(left[1..]);
      left := left[1..];
    }
    if left != [] { assert Ids(left)[0] == left[0].id; }
  }

  /** Pruning the first queue is a step of pruning the side. */
  lemma PrunedFront(reg: Registry, levels: seq<Level<Order>>, q: seq<Order>)
    requires Held(reg, levels) && levels != [] && HeldQ(reg, q)
    requires Ids(q) == DropDead(StoreOf(reg), Ids(levels[0].q))
    ensures var rest := if q == [] then levels[1..] else [Level(levels[0].price, q)] + levels[1..];
            Held(reg, rest)
            && Prune(StoreOf(reg), View(levels)) == if q == [] then Prune(StoreOf(reg), View(rest)) else View(rest)
  {
    assert View(levels)[1..] == View(levels[1..]);
    assert q != [] ==> ([Level(levels[0].price, q)] + levels[1..])[1..] == levels[1..];
  }

  /** Levels lose their leading dead orders, and empty levels go, up to the first live order. */
  method PruneLevels(ghost reg: Registry, levels: seq<Level<Order>>) returns (left: seq<Level<Order>>)
    requires Held(reg, levels)
    ensures View(left) == Prune(StoreOf(reg), View(levels)) && Held(reg, left)
  {
    left := levels;
    while left != []
      invariant Held(reg, left) && Prune(StoreOf(reg), View(left)) == Prune(StoreOf(reg), View(levels))
      decreases |left|
    {
      var q := PruneQueue(reg, left[0].q);
      PrunedFront(reg, left, q);
      if q != [] { return [Level(left[0].price, q)] + left[1..]; }
      left := left[1..];
    }
  }

  /** The linear search passes a level with a better price. */
  lemma InsertFurther<T>(s: Side, levels: seq<Level<T>>, it: nat, p: real, x: T)
    requires it < |levels| && Better(s, levels[it].price, p)
    ensures levels[..it] + Insert(s, levels[it..], p, x) == levels[..it + 1] + Insert(s, levels[it + 1..], p, x)
  {
    assert levels[it..][1..] == levels[it + 1..];
    assert levels[..it] + [levels[it]] == levels[..it + 1];
  }

  /** The linear search stops: append to the level at this price, or insert a new one. */
  lemma InsertHere<T>(s: Side, levels: seq<Level<T>>, it: nat, p: real, x: T)
    requires it <= |levels| && (it < |levels| ==> !Better(s, levels[it].price, p))
    ensures levels[..it] + Insert(s, levels[it..], p, x) ==
            if it < |levels| && levels[it].price == p then levels[it := Level(p, levels[it].q + [x])]
            else levels[..it] + [Level(p, [x])] + levels[it..]
  {
    if it < |levels| && levels[it].price == p {
      assert levels[it..][0] == levels[it] && levels[it..][1..] == levels[it + 1..];
    }
  }

  /** Price levels in a sorted vector. */
  class FlatOrderBook {
    var bids: seq<Level<Order>>
    var asks: seq<Level<Order>>

    constructor ()
      ensures bids == asks == []
    {
      bids, asks := [], [];
    }

    function Levels(s: Side): seq<Level<Order>>
      reads this
    {
      if s == Buy then bids else asks
    }

    /** Linear search for the insertion point, then append to the level or insert a new one. */
    method Add(o: Order)
      modifies this
      ensures Levels(o.side) == Insert(o.side, old(Levels(o.side)), o.price, o)
      ensures Levels(Opposite(o.side)) == old(Levels(Opposite(o.side)))
    {
      var side := Levels(o.side);
      var it := 0;
      while it < |side| && Better(o.side, side[it].price, o.price)
        invariant 0 <= it <= |side| && unchanged(this)
        invariant Insert(o.side, side, o.price, o) == side[..it] + Insert(o.side, side[it..], o.price, o)
      {
        InsertFurther(o.side, side, it, o.price, o);
        it := it + 1;
      }
      InsertHere(o.side, side, it, o.price, o);
      if it < |side| && side[it].price == o.price {
        side := side[it := Level(o.price, side[it].q + [o])];
      } else {
        side := side[..it] + [Level(o.price, [o])] + side[it..];
      }
      if o.side == Buy { bids := side; } else { asks := side; }
    }

    method PruneFront(s: Side, ghost reg: Registry)
      requires Held(reg, Levels(s))
      modifies this
      ensures View(Levels(s)) == Prune(StoreOf(reg), old(View(Levels(s)))) && Held(reg, Levels(s))
      ensures Levels(Opposite(s)) == old(Levels(Opposite(s)))
    {
      var side := PruneLevels(reg, Levels(s));
      if s == Buy { bids := side; } else { asks := side; }
    }

    method PopBest(s: Side)
      requires Levels(s) != [] ==> Levels(s)[0].q != []
      modifies this
      ensures Levels(s) == WithoutBest(old(Levels(s))) && Levels(Opposite(s)) == old(Levels(Opposite(s)))
    {
      var side := Levels(s);
      if side == [] { return; }
      var q := side[0].q[1..];
      side := if q == [] then side[1..] else [Level(side[0].price, q)] + side[1..];
      if s == Buy { bids := side; } else { asks := side; }
    }
  }

  /** The map `m` holds exactly the queues of `levels`. */
  ghost predicate Represents(s: Side, m: map<real, seq<Order>>, levels: seq<Level<Order>>) {
    Ladder(s, levels)
    && forall p :: (p in m <==> QueueAt(levels, p) != []) && (p in m ==> m[p] == QueueAt(levels, p))
  }

  lemma BestKey(s: Side, m: map<real, seq<Order>>, levels: seq<Level<Order>>)
    requires Represents(s, m, levels)
    ensures m == map[] <==> levels == []
    ensures levels != [] ==> levels[0].price in m && m[levels[0].price] == levels[0].q
    ensures levels != [] ==> forall p <- m :: p == levels[0].price || Better(s, levels[0].price, p)
  {
    if levels != [] {
      LadderQueueAt(s, levels, 0);
      forall p <- m ensures p == levels[0].price || Better(s, levels[0].price, p) {
        if Better(s, p, levels[0].price) { QueueAtAbsent(s, levels, p); }
      }
    } else {
      forall p ensures p !in m {
        assert QueueAt(levels, p) == [];
      }
    }
  }

  lemma FrontChanged(s: Side, m: map<real, seq<Order>>, levels: seq<Level<Order>>, q: seq<Order>)
    requires Represents(s, m, levels) && levels != []
    ensures q == [] ==> Represents(s, m - {levels[0].price}, levels[1..])
    ensures q != [] ==> Represents(s, m[levels[0].price := q], [Level(levels[0].price, q)] + levels[1..])
  {
    QueueAtAbsent(s, levels[1..], levels[0].price);
    var front := [Level(levels[0].price, q)] + levels[1..];
    assert forall p :: QueueAt(front, p) == if p == levels[0].price then q else QueueAt(levels, p);
    assert forall p :: QueueAt(levels[1..], p) == if p == levels[0].price then [] else QueueAt(levels, p);
  }

  /** `begin()`: the first key of a non-empty map in comparator order. */
  method Begin(s: Side, m: map<real, seq<Order>>, ghost levels: seq<Level<Order>>) returns (p: real)
    requires Represents(s, m, levels) && m != map[]
    ensures levels != [] && p == levels[0].price && p in m && m[p] == levels[0].q
  {
    BestKey(s, m, levels);
    p :| p in m && forall r <- m :: r == p || Better(s, p, r);
    assert levels[0].price == p || Better(s, p, levels[0].price);
  }

  /** The same on an ordered map. */
  method PruneMap(s: Side, ghost reg: Registry, side: map<real, seq<Order>>, ghost levels: seq<Level<Order>>)
    returns (m: map<real, seq<Order>>, ghost left: seq<Level<Order>>)
    requires Held(reg, levels) && Represents(s, side, levels)
    ensures Held(reg, left) && Represents(s, m, left) && View(left) == Prune(StoreOf(reg), View(levels))
  {
    m, left := side, levels;
    while m != map[]
      invariant Held(reg, left) && Represents(s, m, left)
      invariant Prune(StoreOf(reg), View(left)) == Prune(StoreOf(reg), View(levels))
      decreases |left|
    {
      var p := Begin(s, m, left);
      var q := PruneQueue(reg, m[p]);
      PrunedFront(reg, left, q);
      FrontChanged(s, m, left, q);
      if q != [] { return m[p := q], [Level(p, q)] + left[1..]; }
      m, left := m - {p}, left[1..];
    }
    BestKey(s, m, left);
  }

  /** Price levels in an ordered map from price to queue. `bidLevels` and `askLevels` are the traversal of
      those maps in comparator order. */
  class OrderBook {
    var bids: map<real, seq<Order>>
    var asks: map<real, seq<Order>>
    ghost var bidLevels: seq<Level<Order>>
    ghost var askLevels: seq<Level<Order>>

    ghost predicate Valid()
      reads this
    {
      Represents(Buy, bids, bidLevels) && Represents(Sell, asks, askLevels)
    }

    constructor ()
      ensures Valid() && bidLevels == askLevels == []
    {
      bids, asks, bidLevels, askLevels := map[], map[], [], [];
    }

    ghost function Levels(s: Side): seq<Level<Order>>
      reads this
    {
      if s == Buy then bidLevels else askLevels
    }

    function Side(s: Side): map<real, seq<Order>>
      reads this
    {
      if s == Buy then bids else asks
    }

    method SetSide(s: Side, m: map<real, seq<Order>>, ghost levels: seq<Level<Order>>)
      requires Valid() && Represents(s, m, levels)
      modifies this
      ensures Valid() && Levels(s) == levels && Levels(Opposite(s)) == old(Levels(Opposite(s)))
    {
      if s == Buy { bids, bidLevels := m, levels; } else { asks, askLevels := m, levels; }
    }

    method Add(o: Order)
      requires Valid()
      modifies this
      ensures Valid() && Levels(o.side) == Insert(o.side, old(Levels(o.side)), o.price, o)
      ensures Levels(Opposite(o.side)) == old(Levels(Opposite(o.side)))
    {
      var m := Side(o.side);
      var q := if o.price in m then m[o.price] else [];
      ghost var levels := Levels(o.side);
      InsertLadder(o.side, levels, o.price, o);
      forall p
        ensures QueueAt(Insert(o.side, levels, o.price, o), p) ==
                if p == o.price then QueueAt(levels, p) + [o] else QueueAt(levels, p)
      {
        InsertQueues(o.side, levels, o.price, o, p);
      }
      SetSide(o.side, m[o.price := q + [o]], Insert(o.side, levels, o.price, o));
    }

    method PruneFront(s: Side, ghost reg: Registry)
      requires Valid() && Held(reg, Levels(s))
      modifies this
      ensures Valid() && View(Levels(s)) == Prune(StoreOf(reg), old(View(Levels(s)))) && Held(reg, Levels(s))
      ensures Levels(Opposite(s)) == old(Levels(Opposite(s)))
    {
      var m; ghost var levels;
      m, levels := PruneMap(s, reg, Side(s), Levels(s));
      SetSide(s, m, levels);
    }

    method PopBest(s: Side)
      requires Valid()
      modifies this
      ensures Valid() && Levels(s) == WithoutBest(old(Levels(s))) && Levels(Opposite(s)) == old(Levels(Opposite(s)))
    {
      var m := Side(s);
      ghost var levels := Levels(s);
      BestKey(s, m, levels);
      if m == map[] { return; }
      var p := Begin(s, m, levels);
      var q := m[p][1..];
      FrontChanged(s, m, levels, q);
      if q == [] {
        SetSide(s, m - {p}, levels[1..]);
      } else {
        SetSide(s, m[p := q], [Level(p, q)] + levels[1..]);
      }
    }
  }
}
