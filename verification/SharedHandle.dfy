/** Reference-counted handles to trades: any number of handles, copied, moved, assigned and destroyed. */
module SharedHandle {

  /** `destroyed` counts the runs of the destructor. */
  class Trade {
    var destroyed: nat

    constructor ()
      ensures destroyed == 0
    {
      destroyed := 0;
    }
  }

  /** Touching a block after it has been freed is ruled out by the preconditions. */
  class ControlBlock {
    const ptr: Trade?
    var count: int
    var freed: bool

    constructor (p: Trade?)
      ensures ptr == p && count == 1 && !freed
    {
      ptr, count, freed := p, 1, false;
    }

    method Retain()
      requires !freed
      modifies this
      ensures count == old(count) + 1 && freed == old(freed)
    {
      count := count + 1;
    }

    /** Gives up one reference; the last one destroys the trade and frees the block. */
    method Drop()
      requires !freed
      modifies this, if ptr == null then {} else {ptr}
      ensures count == old(count) - 1 && freed == (count == 0)
      ensures ptr != null ==> ptr.destroyed == old(ptr.destroyed) + (if count == 0 then 1 else 0)
    {
      count := count - 1;
      if count == 0 {
        if ptr != null { ptr.destroyed := ptr.destroyed + 1; }
        freed := true;
      }
    }
  }

  class SharedTradeHandle {
    var cb: ControlBlock?

    constructor (c: ControlBlock?)
      ensures cb == c
    {
      cb := c;
    }
  }

  /** All live handles and all blocks ever made. */
  class Handles {
    ghost var live: set<SharedTradeHandle>
    ghost var blocks: set<ControlBlock>

    ghost function Owners(b: ControlBlock): set<SharedTradeHandle>
      reads this, live
    {
      set h | h in live && h.cb == b
    }

    ghost function Trades(): set<Trade>
      reads this
    {
      set b | b in blocks && b.ptr != null :: b.ptr
    }

    /** Handles refer to known blocks, and no trade has two blocks. */
    ghost predicate Rooted()
      reads this, live
    {
      (forall h :: h in live && h.cb != null ==> h.cb in blocks)
      && forall b, c :: b in blocks && c in blocks && b.ptr != null && b.ptr == c.ptr ==> b == c
    }

    /** A block's count is the number of its handles; it is freed, and its trade has been destroyed once, when and only
        when there are none left. */
    ghost predicate Settled(b: ControlBlock)
      reads this, live, b, b.ptr
    {
      b.count == |Owners(b)| && b.freed == (b.count == 0)
      && (b.ptr != null ==> b.ptr.destroyed == if b.freed then 1 else 0)
    }

    ghost predicate Valid()
      reads this, live, blocks, Trades()
    {
      Rooted() && forall b :: b in blocks ==> Settled(b)
    }

    constructor ()
      ensures Valid() && live == {} && blocks == {}
    {
      live, blocks := {}, {};
    }

    /** No live handle refers to a freed block. */
    lemma NoDangling(h: SharedTradeHandle)
      requires Valid() && h in live && h.cb != null
      ensures !h.cb.freed && h.cb.count > 0 && (h.cb.ptr != null ==> h.cb.ptr.destroyed == 0)
    {
      assert h in Owners(h.cb);
    }

    /** The trade is gone exactly when its last handle is. */
    lemma DestroyedOnce(b: ControlBlock)
      requires Valid() && b in blocks && b.ptr != null
      ensures b.ptr.destroyed <= 1
      ensures b.ptr.destroyed == 1 <==> forall h :: h in live ==> h.cb != b
    {
      assert Settled(b);
      if b.freed {
        assert Owners(b) == {};
        forall h | h in live ensures h.cb != b { assert h !in Owners(b); }
      } else {
        assert Owners(b) != {};
        var h :| h in Owners(b);
        assert h in live && h.cb == b;
      }
    }

    function UseCount(h: SharedTradeHandle): int
      reads h, h.cb
    {
      if h.cb == null then 0 else h.cb.count
    }

    /** A handle made from a raw pointer takes it over: nobody else may own it. */
    method Construct(p: Trade?) returns (h: SharedTradeHandle)
      requires Valid() && (p != null ==> p.destroyed == 0 && p !in Trades())
      modifies this
      ensures Valid() && fresh(h) && live == old(live) + {h}
      ensures h.cb != null && fresh(h.cb) && blocks == old(blocks) + {h.cb} && h.cb.ptr == p && UseCount(h) == 1
    {
      var c := new ControlBlock(p);
      h := new SharedTradeHandle(c);
      live, blocks := live + {h}, blocks + {c};
      assert Owners(c) == {h};
      forall b | b in blocks && b != c ensures Settled(b) {
        assert Owners(b) == old(Owners(b)) && old(Settled(b));
      }
    }

    /** A handle that refers to nothing yet. */
    method Register() returns (h: SharedTradeHandle)
      requires Valid()
      modifies this
      ensures Valid() && fresh(h) && live == old(live) + {h} && blocks == old(blocks) && h.cb == null
    {
      h := new SharedTradeHandle(null);
      live := live + {h};
      forall b | b in blocks ensures Settled(b) {
        assert old(Settled(b)) && Owners(b) == old(Owners(b));
      }
    }

    /** `h`, which refers to nothing, starts to share the block of `other`. */
    method Share(h: SharedTradeHandle, other: SharedTradeHandle)
      requires Valid() && h in live && other in live && h != other && h.cb == null
      modifies h, if other.cb == null then {} else {other.cb}
      ensures Valid() && h.cb == other.cb
      ensures other.cb != null ==> other.cb.count == old(other.cb.count) + 1
    {
      if other.cb == null { return; }
      NoDangling(other);
      var c := other.cb;
      c.Retain();
      h.cb := c;
      assert Owners(c) == old(Owners(c)) + {h};
      forall b | b in blocks && b != c ensures Settled(b) {
        assert old(Settled(b)) && Owners(b) == old(Owners(b));
      }
    }

    /** `h`, which refers to nothing, takes the block of `other`. */
    method Steal(h: SharedTradeHandle, other: SharedTradeHandle)
      requires Valid() && h in live && other in live && h != other && h.cb == null
      modifies h, other
      ensures Valid() && h.cb == old(other.cb) && other.cb == null
    {
      var c := other.cb;
      h.cb := c;
      other.cb := null;
      forall b | b in blocks ensures Settled(b) {
        assert old(Settled(b));
        if b == c {
          Swapped(old(Owners(b)), other, h, Owners(b));
        } else {
          assert Owners(b) == old(Owners(b));
        }
      }
    }

    method CopyConstruct(other: SharedTradeHandle) returns (h: SharedTradeHandle)
      requires Valid() && other in live
      modifies this, if other.cb == null then {} else {other.cb}
      ensures Valid() && fresh(h) && live == old(live) + {h} && blocks == old(blocks) && h.cb == other.cb
      ensures UseCount(h) == if h.cb == null then 0 else old(UseCount(other)) + 1
    {
      h := Register();
      Share(h, other);
    }

    method MoveConstruct(other: SharedTradeHandle) returns (h: SharedTradeHandle)
      requires Valid() && other in live
      modifies this, other
      ensures Valid() && fresh(h) && live == old(live) + {h} && blocks == old(blocks)
      ensures h.cb == old(other.cb) && other.cb == null
    {
      h := Register();
      Steal(h, other);
    }

    /** Gives up the handle's reference. */
    method Release(h: SharedTradeHandle)
      requires Valid() && h in live
      modifies h, blocks, Trades()
      ensures Valid() && h.cb == null
      ensures forall g :: g in live && g != h ==> g.cb == old(g.cb)
      ensures forall b :: b in blocks && b != old(h.cb) ==> b.count == old(b.count)
      ensures old(h.cb) != null ==> old(h.cb).count == old(h.cb.count) - 1
    {
      if h.cb == null { return; }
      NoDangling(h);
      var c := h.cb;
      c.Drop();
      h.cb := null;
      assert h in old(Owners(c)) && Owners(c) == old(Owners(c)) - {h} && old(Settled(c));
      forall b | b in blocks && b != c ensures Settled(b) {
        assert old(Settled(b)) && Owners(b) == old(Owners(b)) && (b.ptr != null ==> b.ptr != c.ptr);
      }
    }

    method Destroy(h: SharedTradeHandle)
      requires Valid() && h in live
      modifies this, h, blocks, Trades()
      ensures Valid() && live == old(live) - {h} && blocks == old(blocks)
      ensures forall g :: g in live ==> g.cb == old(g.cb)
    {
      Release(h);
      label Released:
      live := live - {h};
      forall b | b in blocks ensures Settled(b) {
        assert old@Released(Settled(b)) && Owners(b) == old@Released(Owners(b));
      }
    }

    /** Assigning a handle to itself does nothing; distinct handles may share a block. */
    method CopyAssign(h: SharedTradeHandle, other: SharedTradeHandle)
      requires Valid() && h in live && other in live
      modifies h, blocks, Trades()
      ensures Valid() && h.cb == old(other.cb)
      ensures forall g :: g in live && g != h ==> g.cb == old(g.cb)
      ensures h == other || old(h.cb == other.cb) ==> forall b :: b in blocks ==> b.count == old(b.count)
    {
      if h != other {
        Release(h);
        Share(h, other);
      }
    }

    method MoveAssign(h: SharedTradeHandle, other: SharedTradeHandle)
      requires Valid() && h in live && other in live
      modifies h, other, blocks, Trades()
      ensures Valid() && h.cb == old(other.cb) && (h != other ==> other.cb == null)
      ensures forall g :: g in live && g != h && g != other ==> g.cb == old(g.cb)
    {
      if h != other {
        Release(h);
        Steal(h, other);
      }
    }

    static lemma Swapped(s: set<SharedTradeHandle>, x: SharedTradeHandle, y: SharedTradeHandle,
                         t: set<SharedTradeHandle>)
      requires x in s && y !in s && forall h :: h in t <==> (h in s && h != x) || h == y
      ensures |t| == |s|
    {
      assert t == s - {x} + {y};
    }
  }

  // ---------- runs ----------

  /** Operations on the handles in use, by position; `Make` constructs one over a new trade. */
  datatype Op = Make | Copy(i: nat) | Move(i: nat) | Assign(i: nat, j: nat) | Take(i: nat, j: nat) | Close(i: nat)

  /** What an operation does to the blocks the handles in use refer to, whatever stands for a block: `none` is no block,
      `next` the one that is made. An operation that names a handle not in use does nothing. */
  function Do<T>(at: seq<T>, none: T, next: T, op: Op): seq<T> {
    match op
    case Make => at + [next]
    case Copy(i) => if i < |at| then at + [at[i]] else at
    case Move(i) => if i < |at| then at[i := none] + [at[i]] else at
    case Assign(i, j) => if i < |at| && j < |at| then at[i := at[j]] else at
    case Take(i, j) => if i < |at| && j < |at| && i != j then at[i := at[j]][j := none] else at
    case Close(i) => if i < |at| then at[..i] + at[i + 1..] else at
  }

  /** Blocks by number, in order of construction; `at` has -1 for none. */
  datatype Refs = Refs(at: seq<int>, made: nat)

  function Step(r: Refs, op: Op): Refs {
    Refs(Do(r.at, -1, r.made, op), if op.Make? then r.made + 1 else r.made)
  }

  /** The first `k` operations of a run, on numbers. */
  function Run(ops: seq<Op>, k: nat): Refs
    requires k <= |ops|
  {
    if k == 0 then Refs([], 0) else Step(Run(ops, k - 1), ops[k - 1])
  }

  /** Each operation of a run, handle by handle: what is made gets the next number; a copy and an assignment share the
      source's block, a move and a move assignment leave their source without one; a closed handle is gone and the
      others close up. */
  lemma RunNext(ops: seq<Op>, k: nat, x: nat)
    requires k < |ops|
    ensures var r, r' := Run(ops, k), Run(ops, k + 1);
            r'.made == r.made + (if ops[k].Make? then 1 else 0)
            && match ops[k] {
                 case Make => |r'.at| == |r.at| + 1 && r'.at[|r.at|] == r.made && (x < |r.at| ==> r'.at[x] == r.at[x])
                 case Copy(i) => i < |r.at| ==>
                   |r'.at| == |r.at| + 1 && r'.at[|r.at|] == r.at[i] && (x < |r.at| ==> r'.at[x] == r.at[x])
                 case Move(i) => i < |r.at| ==>
                   |r'.at| == |r.at| + 1 && r'.at[|r.at|] == r.at[i] && r'.at[i] == -1
                   && (x < |r.at| && x != i ==> r'.at[x] == r.at[x])
                 case Assign(i, j) => i < |r.at| && j < |r.at| ==>
                   |r'.at| == |r.at| && r'.at[i] == r.at[j] && (x < |r.at| && x != i ==> r'.at[x] == r.at[x])
                 case Take(i, j) => i < |r.at| && j < |r.at| ==>
                   |r'.at| == |r.at| && r'.at[i] == r.at[j] && (i != j ==> r'.at[j] == -1)
                   && (x < |r.at| && x != i && x != j ==> r'.at[x] == r.at[x])
                 case Close(i) => i < |r.at| ==>
                   |r'.at| == |r.at| - 1 && (x < |r'.at| ==> r'.at[x] == r.at[if x < i then x else x + 1])
               }
  {
  }

  ghost function Footprint(s: Handles): set<object>
    reads s
  {
    {s} + s.live + s.blocks + s.Trades()
  }

  /** `hs` lists the handles of `live`, each once. */
  ghost predicate Lists(live: set<SharedTradeHandle>, hs: seq<SharedTradeHandle>) {
    (forall i :: 0 <= i < |hs| ==> hs[i] in live) && |hs| == |live|
    && forall i, j :: 0 <= i < j < |hs| ==> hs[i] != hs[j]
  }

  /** `made` lists the blocks ever made, each once. */
  ghost predicate Numbered(blocks: set<ControlBlock>, made: seq<ControlBlock>) {
    blocks == (set b | b in made) && forall i, j :: 0 <= i < j < |made| ==> made[i] != made[j]
  }

  /** Block number `k`, or none. */
  ghost predicate Names(c: ControlBlock?, k: int, made: seq<ControlBlock>) {
    if c == null then k == -1 else 0 <= k < |made| && made[k] == c
  }

  ghost predicate Refer(cbs: seq<ControlBlock?>, r: Refs, made: seq<ControlBlock>) {
    |cbs| == |r.at| && |made| == r.made && forall i :: 0 <= i < |cbs| ==> Names(cbs[i], r.at[i], made)
  }

  /** The blocks the handles refer to. */
  ghost function Cbs(hs: seq<SharedTradeHandle>): (r: seq<ControlBlock?>)
    reads hs
    ensures |r| == |hs|
  {
    seq(|hs|, k requires 0 <= k < |hs| reads hs => hs[k].cb)
  }

  /** The handles refer to the blocks that `r` says. */
  ghost predicate Tracks(s: Handles, hs: seq<SharedTradeHandle>, r: Refs, made: seq<ControlBlock>)
    reads s, hs
  {
    Lists(s.live, hs) && Numbered(s.blocks, made) && Refer(Cbs(hs), r, made)
  }

  lemma CbsAt(hs: seq<SharedTradeHandle>)
    ensures forall k :: 0 <= k < |hs| ==> Cbs(hs)[k] == hs[k].cb
  {
  }

  lemma CbsAre(hs: seq<SharedTradeHandle>, cbs: seq<ControlBlock?>)
    requires |cbs| == |hs| && forall k :: 0 <= k < |hs| ==> hs[k].cb == cbs[k]
    ensures Cbs(hs) == cbs
  {
    CbsAt(hs);
  }

  lemma CbsAppend(hs: seq<SharedTradeHandle>, h: SharedTradeHandle, cbs: seq<ControlBlock?>)
    requires |cbs| == |hs| && forall k :: 0 <= k < |hs| ==> hs[k].cb == cbs[k]
    ensures Cbs(hs + [h]) == cbs + [h.cb]
  {
    CbsAre(hs + [h], cbs + [h.cb]);
  }

  lemma CbsWithout(hs: seq<SharedTradeHandle>, i: nat, cbs: seq<ControlBlock?>)
    requires i < |hs| == |cbs| && forall k :: 0 <= k < |hs| && k != i ==> hs[k].cb == cbs[k]
    ensures Cbs(hs[..i] + hs[i + 1..]) == Do(cbs, null, null, Close(i))
  {
    var hs', cbs' := hs[..i] + hs[i + 1..], cbs[..i] + cbs[i + 1..];
    forall k | 0 <= k < |hs'| ensures hs'[k].cb == cbs'[k] {
      assert hs'[k] == hs[if k < i then k else k + 1] && cbs'[k] == cbs[if k < i then k else k + 1];
    }
    CbsAre(hs', cbs');
  }

  lemma CbsMoved(hs: seq<SharedTradeHandle>, h: SharedTradeHandle, i: nat, cbs: seq<ControlBlock?>)
    requires i < |hs| == |cbs| && hs[i].cb == null && h.cb == cbs[i]
    requires forall k :: 0 <= k < |hs| && k != i ==> hs[k].cb == cbs[k]
    ensures Cbs(hs + [h]) == Do(cbs, null, null, Move(i))
  {
    CbsAppend(hs, h, cbs[i := null]);
  }

  lemma CbsCopied(hs: seq<SharedTradeHandle>, h: SharedTradeHandle, i: nat, cbs: seq<ControlBlock?>)
    requires i < |hs| == |cbs| && h.cb == cbs[i] && forall k :: 0 <= k < |hs| ==> hs[k].cb == cbs[k]
    ensures Cbs(hs + [h]) == Do(cbs, null, null, Copy(i))
  {
    CbsAppend(hs, h, cbs);
  }

  lemma CbsMade(hs: seq<SharedTradeHandle>, h: SharedTradeHandle, b: ControlBlock, cbs: seq<ControlBlock?>)
    requires |hs| == |cbs| && h.cb == b && forall k :: 0 <= k < |hs| ==> hs[k].cb == cbs[k]
    ensures Cbs(hs + [h]) == Do(cbs, null, b, Make)
  {
    CbsAppend(hs, h, cbs);
  }

  lemma RefersWithout(cbs: seq<ControlBlock?>, r: Refs, made: seq<ControlBlock>, i: nat)
    requires Refer(cbs, r, made) && i < |cbs|
    ensures Refer(cbs[..i] + cbs[i + 1..], Refs(r.at[..i] + r.at[i + 1..], r.made), made)
  {
    var cbs', at := cbs[..i] + cbs[i + 1..], r.at[..i] + r.at[i + 1..];
    forall k | 0 <= k < |cbs'| ensures Names(cbs'[k], at[k], made) {
      var j := if k < i then k else k + 1;
      assert cbs'[k] == cbs[j] && at[k] == r.at[j];
    }
  }

  lemma MakeRefers(cbs: seq<ControlBlock?>, r: Refs, made: seq<ControlBlock>, b: ControlBlock)
    requires Refer(cbs, r, made)
    ensures Refer(cbs + [b], Refs(r.at + [r.made], r.made + 1), made + [b])
  {
  }

  /** Handles and numbers move alike. */
  lemma StepRefers(cbs: seq<ControlBlock?>, r: Refs, made: seq<ControlBlock>, op: Op, b: ControlBlock?)
    requires Refer(cbs, r, made) && (op.Make? ==> b != null)
    ensures Refer(Do(cbs, null, b, op), Step(r, op), if b != null && op.Make? then made + [b] else made)
  {
    match op
    case Make => MakeRefers(cbs, r, made, b);
    case Close(i) => if i < |cbs| { RefersWithout(cbs, r, made, i); }
    case _ =>
  }

  lemma ListsAppend(live: set<SharedTradeHandle>, hs: seq<SharedTradeHandle>, h: SharedTradeHandle)
    requires Lists(live, hs) && h !in live
    ensures Lists(live + {h}, hs + [h])
  {
  }

  lemma ListsRemove(live: set<SharedTradeHandle>, hs: seq<SharedTradeHandle>, i: nat)
    requires Lists(live, hs) && i < |hs|
    ensures Lists(live - {hs[i]}, hs[..i] + hs[i + 1..])
  {
  }

  lemma NumberedAppend(blocks: set<ControlBlock>, made: seq<ControlBlock>, b: ControlBlock)
    requires Numbered(blocks, made) && b !in blocks
    ensures Numbered(blocks + {b}, made + [b])
  {
  }

  method Open(s: Handles, hs: seq<SharedTradeHandle>)
    returns (hs': seq<SharedTradeHandle>, ghost b: ControlBlock)
    requires s.Valid() && Lists(s.live, hs)
    modifies Footprint(s)
    ensures s.Valid() && Lists(s.live, hs') && Cbs(hs') == Do(old(Cbs(hs)), null, b, Make)
    ensures fresh(b) && s.blocks == old(s.blocks) + {b} && fresh(Footprint(s) - old(Footprint(s)))
  {
    ghost var cbs := Cbs(hs);
    CbsAt(hs);
    var t := new Trade();
    var h := s.Construct(t);
    ListsAppend(old(s.live), hs, h);
    hs', b := hs + [h], h.cb;
    CbsMade(hs, h, b, cbs);
  }

  method Copied(s: Handles, hs: seq<SharedTradeHandle>, i: nat)
    returns (hs': seq<SharedTradeHandle>, h: SharedTradeHandle)
    requires s.Valid() && Lists(s.live, hs) && i < |hs|
    modifies Footprint(s)
    ensures s.Valid() && Lists(s.live, hs') && Cbs(hs') == Do(old(Cbs(hs)), null, null, Copy(i))
    ensures s.blocks == old(s.blocks) && s.live == old(s.live) + {h} && fresh(h)
  {
    ghost var cbs := Cbs(hs);
    CbsAt(hs);
    h := s.CopyConstruct(hs[i]);
    ListsAppend(old(s.live), hs, h);
    hs' := hs + [h];
    CbsCopied(hs, h, i, cbs);
  }

  method Moved(s: Handles, hs: seq<SharedTradeHandle>, i: nat)
    returns (hs': seq<SharedTradeHandle>, h: SharedTradeHandle)
    requires s.Valid() && Lists(s.live, hs) && i < |hs|
    modifies Footprint(s)
    ensures s.Valid() && Lists(s.live, hs') && Cbs(hs') == Do(old(Cbs(hs)), null, null, Move(i))
    ensures s.blocks == old(s.blocks) && s.live == old(s.live) + {h} && fresh(h)
  {
    ghost var cbs := Cbs(hs);
    CbsAt(hs);
    h := s.MoveConstruct(hs[i]);
    ListsAppend(old(s.live), hs, h);
    hs' := hs + [h];
    CbsMoved(hs, h, i, cbs);
  }

  method Assigned(s: Handles, hs: seq<SharedTradeHandle>, i: nat, j: nat)
    requires s.Valid() && Lists(s.live, hs) && i < |hs| && j < |hs|
    modifies hs[i], s.blocks, s.Trades()
    ensures s.Valid() && Cbs(hs) == Do(old(Cbs(hs)), null, null, Assign(i, j))
  {
    ghost var cbs := Cbs(hs);
    CbsAt(hs);
    s.CopyAssign(hs[i], hs[j]);
    CbsAre(hs, cbs[i := cbs[j]]);
  }

  method Taken(s: Handles, hs: seq<SharedTradeHandle>, i: nat, j: nat)
    requires s.Valid() && Lists(s.live, hs) && i < |hs| && j < |hs|
    modifies hs[i], hs[j], s.blocks, s.Trades()
    ensures s.Valid() && Cbs(hs) == Do(old(Cbs(hs)), null, null, Take(i, j))
  {
    ghost var cbs := Cbs(hs);
    CbsAt(hs);
    s.MoveAssign(hs[i], hs[j]);
    CbsAre(hs, Do(cbs, null, null, Take(i, j)));
  }

  method Closed(s: Handles, hs: seq<SharedTradeHandle>, i: nat) returns (hs': seq<SharedTradeHandle>)
    requires s.Valid() && Lists(s.live, hs) && i < |hs|
    modifies Footprint(s)
    ensures s.Valid() && Lists(s.live, hs') && Cbs(hs') == Do(old(Cbs(hs)), null, null, Close(i))
    ensures s.blocks == old(s.blocks) && s.live <= old(s.live) && |hs'| == |hs| - 1
  {
    ghost var cbs := Cbs(hs);
    CbsAt(hs);
    s.Destroy(hs[i]);
    ListsRemove(old(s.live), hs, i);
    CbsWithout(hs, i, cbs);
    hs' := hs[..i] + hs[i + 1..];
  }

  /** One operation on the handles. */
  method Perform(s: Handles, hs: seq<SharedTradeHandle>, op: Op)
    returns (hs': seq<SharedTradeHandle>, ghost b: ControlBlock?, ghost more: set<object>)
    requires s.Valid() && Lists(s.live, hs)
    modifies Footprint(s)
    ensures s.Valid() && Lists(s.live, hs') && Cbs(hs') == Do(old(Cbs(hs)), null, b, op)
    ensures if op.Make? then b != null && fresh(b) && s.blocks == old(s.blocks) + {b} else s.blocks == old(s.blocks)
    ensures Footprint(s) <= old(Footprint(s)) + more && fresh(more)
  {
    hs', b := hs, null;
    ghost var was := Footprint(s);
    match op {
      case Make => hs', b := Open(s, hs);
      case Copy(i) =>
        if i < |hs| {
          var h;
          hs', h := Copied(s, hs, i);
        }
      case Move(i) =>
        if i < |hs| {
          var h;
          hs', h := Moved(s, hs, i);
        }
      case Assign(i, j) => if i < |hs| && j < |hs| { Assigned(s, hs, i, j); }
      case Take(i, j) => if i < |hs| && j < |hs| { Taken(s, hs, i, j); }
      case Close(i) => if i < |hs| { hs' := Closed(s, hs, i); }
    }
    more := Footprint(s) - was;
  }

  /** One operation, with the numbers kept along. */
  method Tracked(s: Handles, hs: seq<SharedTradeHandle>, op: Op, ghost r: Refs, ghost made: seq<ControlBlock>)
    returns (hs': seq<SharedTradeHandle>, ghost made': seq<ControlBlock>, ghost more: set<object>)
    requires s.Valid() && Tracks(s, hs, r, made)
    modifies Footprint(s)
    ensures s.Valid() && Tracks(s, hs', Step(r, op), made')
    ensures Footprint(s) <= old(Footprint(s)) + more && fresh(more)
  {
    ghost var cbs, b := Cbs(hs), null;
    hs', b, more := Perform(s, hs, op);
    StepRefers(cbs, r, made, op, b);
    made' := if op.Make? then made + [b] else made;
    if op.Make? { NumberedAppend(old(s.blocks), made, b); }
  }

  /** Operation `k` of a run. */
  method Next(s: Handles, hs: seq<SharedTradeHandle>, ops: seq<Op>, k: nat, ghost r: Refs,
              ghost made: seq<ControlBlock>, ghost fp: set<object>)
    returns (hs': seq<SharedTradeHandle>, ghost r': Refs, ghost made': seq<ControlBlock>, ghost fp': set<object>)
    requires s.Valid() && Tracks(s, hs, r, made) && k < |ops| && r == Run(ops, k) && Footprint(s) <= fp
    modifies fp
    ensures s.Valid() && Tracks(s, hs', r', made') && r' == Run(ops, k + 1) && Footprint(s) <= fp' && fresh(fp' - fp)
  {
    ghost var more;
    hs', made', more := Tracked(s, hs, ops[k], r, made);
    r', fp' := Step(r, ops[k]), fp + more;
  }

  method Begin() returns (s: Handles, ghost fp: set<object>)
    ensures s.Valid() && Tracks(s, [], Refs([], 0), []) && Footprint(s) <= fp && fresh(fp)
  {
    s := new Handles();
    fp := Footprint(s);
  }

  /** After any run every handle refers to the block that the run on numbers says. */
  method Drive(ops: seq<Op>)
    returns (s: Handles, hs: seq<SharedTradeHandle>, ghost r: Refs, ghost made: seq<ControlBlock>,
             ghost fp: set<object>)
    ensures s.Valid() && Tracks(s, hs, r, made) && r == Run(ops, |ops|) && Footprint(s) <= fp && fresh(fp)
  {
    s, fp := Begin();
    hs, r, made := [], Refs([], 0), [];
    for k := 0 to |ops|
      invariant fresh(fp) && Footprint(s) <= fp
      invariant s.Valid() && Tracks(s, hs, r, made) && r == Run(ops, k)
    {
      hs, r, made, fp := Next(s, hs, ops, k, r, made, fp);
    }
  }

  /** So the run on numbers tells which trades are gone: those that no handle refers to any more. */
  lemma Fate(s: Handles, hs: seq<SharedTradeHandle>, r: Refs, made: seq<ControlBlock>, k: nat)
    requires s.Valid() && Tracks(s, hs, r, made) && k < |made|
    ensures made[k].freed <==> k !in r.at
    ensures made[k].ptr != null ==> made[k].ptr.destroyed == if k in r.at then 0 else 1
  {
    var b := made[k];
    CbsAt(hs);
    assert s.Settled(b);
    if k in r.at {
      var i :| 0 <= i < |r.at| && r.at[i] == k;
      assert Names(Cbs(hs)[i], r.at[i], made);
      assert hs[i].cb == b && hs[i] in s.Owners(b);
    } else {
      AllListed(s.live, hs);
      forall h | h in s.live ensures h.cb != b {
        var i :| 0 <= i < |hs| && hs[i] == h;
        assert Names(Cbs(hs)[i], r.at[i], made);
      }
      assert s.Owners(b) == {};
    }
  }

  /** As many handles as there are, each once, are all of them. */
  lemma {:induction false} AllListed(live: set<SharedTradeHandle>, hs: seq<SharedTradeHandle>)
    requires Lists(live, hs)
    ensures forall h :: h in live ==> h in hs
    decreases |hs|
  {
    if hs != [] {
      var front := hs[..|hs| - 1];
      ListsRemove(live, hs, |hs| - 1);
      assert front + hs[|hs|..] == front;
      AllListed(live - {hs[|hs| - 1]}, front);
      forall h | h in live ensures h in hs {
        if h != hs[|hs| - 1] { assert h in front; }
      }
    }
  }

  /** When the remaining handles go too, every trade ever handed over has been destroyed exactly once. */
  method Finish(s: Handles, hs0: seq<SharedTradeHandle>)
    requires s.Valid() && Lists(s.live, hs0)
    modifies Footprint(s)
    ensures s.Valid() && s.live == {} && s.blocks == old(s.blocks)
    ensures forall b :: b in s.blocks ==> b.freed && (b.ptr != null ==> b.ptr.destroyed == 1)
  {
    var hs := hs0;
    while hs != []
      invariant s.Valid() && Lists(s.live, hs) && s.live <= old(s.live) && s.blocks == old(s.blocks)
      decreases |hs|
    {
      hs := Closed(s, hs, |hs| - 1);
    }
    AllGone(s);
  }

  lemma AllGone(s: Handles)
    requires s.Valid() && s.live == {}
    ensures forall b :: b in s.blocks ==> b.freed && (b.ptr != null ==> b.ptr.destroyed == 1)
  {
    forall b | b in s.blocks ensures b.freed && (b.ptr != null ==> b.ptr.destroyed == 1) {
      assert s.Settled(b) && s.Owners(b) == {};
    }
  }
}
