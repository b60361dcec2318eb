/** Price levels: the sorted list of FIFO queues that both phase 4 books stand for. */
module PriceLevels {
  import opened Orders

  datatype Level<T> = Level(price: real, q: seq<T>)

  /** `p` is traded before `r` on side `s`: bids descend, asks ascend. */
  predicate Better(s: Side, p: real, r: real) {
    if s == Buy then p > r else p < r
  }

  /** A side of the book: no empty level, and each level strictly better than the next. */
  ghost predicate Ladder<T>(s: Side, levels: seq<Level<T>>) {
    levels == [] ||
    (levels[0].q != [] && (|levels| > 1 ==> Better(s, levels[0].price, levels[1].price)) && Ladder(s, levels[1..]))
  }

  /** The queue found at a price; empty when there is no such level. */
  function QueueAt<T>(levels: seq<Level<T>>, p: real): seq<T> {
    if levels == [] then []
    else if levels[0].price == p then levels[0].q
    else QueueAt(levels[1..], p)
  }

  /** Everything queued, in priority order. */
  function Flat<T>(levels: seq<Level<T>>): seq<T> {
    if levels == [] then [] else levels[0].q + Flat(levels[1..])
  }

  /** Posting `x` at the tail of its price level, opening the level when there is none. */
  function Insert<T>(s: Side, levels: seq<Level<T>>, p: real, x: T): seq<Level<T>> {
    if levels == [] then [Level(p, [x])]
    else if Better(s, levels[0].price, p) then [levels[0]] + Insert(s, levels[1..], p, x)
    else if levels[0].price == p then [Level(p, levels[0].q + [x])] + levels[1..]
    else [Level(p, [x])] + levels
  }

  /** Removing the order with the highest priority, and its level when that leaves it empty. */
  function WithoutBest<T>(levels: seq<Level<T>>): seq<Level<T>> {
    if levels == [] then []
    else if |levels[0].q| <= 1 then levels[1..]
    else [Level(levels[0].price, levels[0].q[1..])] + levels[1..]
  }

  predicate LiveIn(store: Store, i: int) {
    i in store && store[i].Live()
  }

  function DropDead(store: Store, q: seq<int>): seq<int> {
    if q == [] || LiveIn(store, q[0]) then q else DropDead(store, q[1..])
  }

  /** Discarding cancelled orders from the front until a live order leads the book. */
  function Prune(store: Store, levels: seq<Level<int>>): seq<Level<int>> {
    if levels == [] then []
    else
      var q := DropDead(store, levels[0].q);
      if q == [] then Prune(store, levels[1..]) else [Level(levels[0].price, q)] + levels[1..]
  }

  // ---------- order of the levels ----------

  /** Strictly sorted, as the flat vector and the map's comparator promise. */
  lemma {:induction false} LadderSorted<T>(s: Side, levels: seq<Level<T>>, i: nat, j: nat)
    requires Ladder(s, levels) && i < j < |levels|
    ensures Better(s, levels[i].price, levels[j].price)
  {
    if i > 0 {
      LadderSorted(s, levels[1..], i - 1, j - 1);
    } else if j > 1 {
      LadderSorted(s, levels[1..], 0, j - 1);
    }
  }

  lemma {:induction false} LadderQueueAt<T>(s: Side, levels: seq<Level<T>>, i: nat)
    requires Ladder(s, levels) && i < |levels|
    ensures QueueAt(levels, levels[i].price) == levels[i].q != []
  {
    if i > 0 {
      LadderSorted(s, levels, 0, i);
      LadderQueueAt(s, levels[1..], i - 1);
    }
  }

  /** Nothing is queued at a price better than the best level's. */
  lemma {:induction false} QueueAtAbsent<T>(s: Side, levels: seq<Level<T>>, p: real)
    requires Ladder(s, levels) && (levels != [] ==> Better(s, p, levels[0].price))
    ensures QueueAt(levels, p) == []
  {
    if levels != [] { QueueAtAbsent(s, levels[1..], p); }
  }

  lemma NothingQueued<T>(s: Side, levels: seq<Level<T>>)
    requires Ladder(s, levels) && forall p :: QueueAt(levels, p) == []
    ensures levels == []
  {
    if levels != [] {
      LadderQueueAt(s, levels, 0);
      assert false;
    }
  }

  /** A side is determined by its queues. */
  lemma {:induction false} QueuesDetermineLevels<T>(s: Side, a: seq<Level<T>>, b: seq<Level<T>>)
    requires Ladder(s, a) && Ladder(s, b)
    requires forall p :: QueueAt(a, p) == QueueAt(b, p)
    ensures a == b
  {
    if a == [] {
      NothingQueued(s, b);
    } else if b == [] {
      NothingQueued(s, a);
    } else {
      var p, r := a[0].price, b[0].price;
      assert QueueAt(a, p) == QueueAt(b, p) && QueueAt(a, r) == QueueAt(b, r);
      if Better(s, p, r) { QueueAtAbsent(s, b, p); } else if p != r { QueueAtAbsent(s, a, r); }
      forall x ensures QueueAt(a[1..], x) == QueueAt(b[1..], x) {
        if x == p {
          QueueAtAbsent(s, a[1..], x);
          QueueAtAbsent(s, b[1..], x);
        } else {
          assert QueueAt(a, x) == QueueAt(b, x);
        }
      }
      QueuesDetermineLevels(s, a[1..], b[1..]);
      assert a == [a[0]] + a[1..] && b == [b[0]] + b[1..];
    }
  }

  // ---------- posting ----------

  lemma {:induction false} InsertLadder<T>(s: Side, levels: seq<Level<T>>, p: real, x: T)
    requires Ladder(s, levels)
    ensures Ladder(s, Insert(s, levels, p, x))
  {
    if levels != [] && Better(s, levels[0].price, p) {
      InsertLadder(s, levels[1..], p, x);
    }
  }

  /** Time priority of a new order: last in its own queue, and no other queue changes. */
  lemma {:induction false} InsertQueues<T>(s: Side, levels: seq<Level<T>>, p: real, x: T, r: real)
    requires Ladder(s, levels)
    ensures QueueAt(Insert(s, levels, p, x), r) == if r == p then QueueAt(levels, r) + [x] else QueueAt(levels, r)
  {
    if levels != [] {
      if Better(s, levels[0].price, p) {
        InsertQueues(s, levels[1..], p, x, r);
      } else if levels[0].price != p && r == p {
        QueueAtAbsent(s, levels, p);
      }
    }
  }

  lemma SpliceBehind<T>(q: seq<T>, rest: seq<T>, j: nat, x: T)
    requires j <= |rest|
    ensures var k := |q| + j; q + (rest[..j] + [x] + rest[j..]) == (q + rest)[..k] + [x] + (q + rest)[k..]
  {
    assert (q + rest)[..|q| + j] == q + rest[..j] && (q + rest)[|q| + j..] == rest[j..];
  }

  lemma SpliceBetween<T>(q: seq<T>, rest: seq<T>, x: T)
    ensures (q + [x]) + rest == (q + rest)[..|q|] + [x] + (q + rest)[|q|..]
  {
    assert (q + rest)[..|q|] == q && (q + rest)[|q|..] == rest;
  }

  /** Posting splices the order into the priority list without moving anyone else. */
  lemma {:induction false} InsertFlat<T>(s: Side, levels: seq<Level<T>>, p: real, x: T) returns (k: nat)
    ensures k <= |Flat(levels)| && Flat(Insert(s, levels, p, x)) == Flat(levels)[..k] + [x] + Flat(levels)[k..]
  {
    k := 0;
    if levels != [] {
      var q, rest := levels[0].q, Flat(levels[1..]);
      if Better(s, levels[0].price, p) {
        var j := InsertFlat(s, levels[1..], p, x);
        k := |q| + j;
        SpliceBehind(q, rest, j, x);
      } else if levels[0].price == p {
        k := |q|;
        SpliceBetween(q, rest, x);
      }
    }
  }

  // ---------- pruning and popping ----------

  lemma {:induction false} PruneLadder(s: Side, store: Store, levels: seq<Level<int>>)
    requires Ladder(s, levels)
    ensures var p := Prune(store, levels);
            Ladder(s, p)
            && (p != [] ==> LiveIn(store, p[0].q[0]))
            && (p != [] && p[0].price != levels[0].price ==> Better(s, levels[0].price, p[0].price))
  {
    if levels != [] {
      DropDeadFront(store, levels[0].q);
      if DropDead(store, levels[0].q) == [] {
        PruneLadder(s, store, levels[1..]);
      }
    }
  }

  lemma {:induction false} DropDeadFront(store: Store, q: seq<int>)
    ensures var d := DropDead(store, q);
            d != [] ==> LiveIn(store, d[0])
  {
    if q != [] && !LiveIn(store, q[0]) {
      DropDeadFront(store, q[1..]);
    }
  }
}
