/** What each command does to a run of the phase 4 system, told on the fields of the orders, on the tape and on the
    list of commands alone. */
module RunLaws {
  import opened Orders
  import opened PriceLevels
  import opened Matching
  import opened Exchange

  // ---------- one more command ----------

  lemma {:induction false} RunSnoc(st: State, cmds: seq<Command>, c: Command)
    requires Inv(st) && LegalRun(st, cmds)
    ensures LegalRun(st, cmds + [c]) <==> Legal(Run(st, cmds), c)
    ensures LegalRun(st, cmds + [c]) ==> Run(st, cmds + [c]) == Step(Run(st, cmds), c)
    decreases cmds
  {
    if cmds == [] {
      assert (cmds + [c])[1..] == [];
      if Legal(st, c) { StepKeepsInv(st, c); }
    } else {
      assert (cmds + [c])[1..] == cmds[1..] + [c];
      StepKeepsInv(st, cmds[0]);
      RunSnoc(Step(st, cmds[0]), cmds[1..], c);
    }
  }

  lemma AfterSnoc(cmds: seq<Command>, c: Command)
    requires Possible(cmds)
    ensures Inv(After(cmds)) && (Possible(cmds + [c]) <==> Legal(After(cmds), c))
    ensures Possible(cmds + [c]) ==> After(cmds + [c]) == Step(After(cmds), c)
  {
    EmptyInv();
    RunSnoc(EMPTY, cmds, c);
  }

  lemma {:induction false} LegalPrefix(st: State, cmds: seq<Command>, c: Command)
    requires Inv(st) && LegalRun(st, cmds + [c])
    ensures LegalRun(st, cmds)
    decreases cmds
  {
    if cmds != [] {
      assert (cmds + [c])[1..] == cmds[1..] + [c];
      StepKeepsInv(st, cmds[0]);
      LegalPrefix(Step(st, cmds[0]), cmds[1..], c);
    }
  }

  /** A run is the run of all its commands but the last, and that command. */
  lemma LastCommand(cmds: seq<Command>) returns (pre: seq<Command>, c: Command)
    requires Possible(cmds) && cmds != []
    ensures cmds == pre + [c] && Possible(pre) && Inv(After(pre)) && Legal(After(pre), c)
    ensures After(cmds) == Step(After(pre), c)
  {
    pre, c := cmds[..|cmds| - 1], cmds[|cmds| - 1];
    assert cmds == pre + [c];
    EmptyInv();
    LegalPrefix(EMPTY, pre, c);
    AfterSnoc(pre, c);
  }

  // ---------- placing, cancelling, reaping ----------

  /** The order as it was except for its state. */
  predicate OnlyStateDiffers(a: Info, b: Info) {
    a.symbol == b.symbol && a.price == b.price && a.quantity == b.quantity && a.side == b.side && a.filled == b.filled
  }

  /** The books and the tape are left alone. */
  predicate SameMarket(a: State, b: State) {
    a.bids == b.bids && a.asks == b.asks && a.tape == b.tape && a.submitted == b.submitted
  }

  /** Placing is always possible; it creates the next id with exactly the terms of the command, and nothing else. */
  lemma PlaceInRun(cmds: seq<Command>, symbol: string, price: real, quantity: int, side: Side)
    requires Possible(cmds)
    ensures var longer := cmds + [Place(symbol, price, quantity, side)];
            Possible(longer)
            && var st, st' := After(cmds), After(longer);
               st.next !in st.store && st'.next == st.next + 1 && st'.store.Keys == st.store.Keys + {st.next}
               && st'.store[st.next] == Info(symbol, price, quantity, side, 0, New)
               && (forall i <- st.store :: st'.store[i] == st.store[i])
               && st'.active == st.active + {st.next} && SameMarket(st, st')
  {
    AfterSnoc(cmds, Place(symbol, price, quantity, side));
  }

  /** Cancelling is always possible. An order that is new or partially filled becomes cancelled, with all else as it
      was; for any other id, known or not, nothing happens. */
  lemma CancelInRun(cmds: seq<Command>, id: int)
    requires Possible(cmds)
    ensures var longer := cmds + [Cancel(id)];
            Possible(longer)
            && var st, st' := After(cmds), After(longer);
               (if id in st.store && (st.store[id].state == New || st.store[id].state == PartiallyFilled) then
                  st'.store.Keys == st.store.Keys && st'.store[id].state == Cancelled
                  && OnlyStateDiffers(st'.store[id], st.store[id])
                  && (forall i <- st.store :: i != id ==> st'.store[i] == st.store[i])
                else st'.store == st.store)
               && st'.next == st.next && st'.active == st.active && SameMarket(st, st')
  {
    AfterSnoc(cmds, Cancel(id));
  }

  /** Reaping is always possible; it forgets the filled and the cancelled, and changes nothing else. */
  lemma ReapInRun(cmds: seq<Command>)
    requires Possible(cmds)
    ensures Possible(cmds + [Reap])
            && var st, st' := After(cmds), After(cmds + [Reap]);
               (forall i :: i in st'.active <==>
                  i in st.active && i in st.store && st.store[i].state != Filled && st.store[i].state != Cancelled)
               && st'.store == st.store && st'.next == st.next && SameMarket(st, st')
  {
    AfterSnoc(cmds, Reap);
  }

  // ---------- what the list of commands says of each order ----------

  /** The Place commands of a run, in order. */
  function Asked(cmds: seq<Command>): seq<Command> {
    if cmds == [] then []
    else
      var c := cmds[|cmds| - 1];
      Asked(cmds[..|cmds| - 1]) + if c.Place? then [c] else []
  }

  lemma AskedSnoc(cmds: seq<Command>, c: Command)
    ensures Asked(cmds + [c]) == Asked(cmds) + if c.Place? then [c] else []
  {
    assert (cmds + [c])[..|cmds|] == cmds;
  }

  lemma StepKeepsTerms(st: State, c: Command, i: int)
    requires Inv(st) && Legal(st, c) && i in st.store
    ensures var o, st' := st.store[i], Step(st, c);
            i in st'.store && st'.store[i].symbol == o.symbol && st'.store[i].price == o.price
            && st'.store[i].quantity == o.quantity && st'.store[i].side == o.side
            && (!c.Place? ==> st'.next == st.next)
  {
    if c.Submit? {
      SubmitReady(st, c.id, c.seqno);
      LoopTouches(st.store, st.Levels(Opposite(st.store[c.id].side)), c.id, c.seqno, i);
    }
  }

  /** The ids handed out number the Place commands, and each order has the terms of its command to the end. */
  lemma {:induction false} TermsAreAsked(cmds: seq<Command>, i: int)
    requires Possible(cmds)
    ensures var st, asked := After(cmds), Asked(cmds);
            st.next == |asked| + 1 && (i in st.store <==> 1 <= i <= |asked|)
            && (i in st.store ==>
                  var o, c := st.store[i], asked[i - 1];
                  c.Place? && o.symbol == c.symbol && o.price == c.price && o.quantity == c.quantity
                  && o.side == c.side)
    decreases |cmds|
  {
    EmptyInv();
    if cmds != [] {
      var pre, c := LastCommand(cmds);
      TermsAreAsked(pre, i);
      AskedSnoc(pre, c);
      StepKeepsInv(After(pre), c);
      if i in After(pre).store { StepKeepsTerms(After(pre), c, i); }
      StepKeepsNext(After(pre), c);
    }
  }

  lemma StepKeepsNext(st: State, c: Command)
    requires Inv(st) && Legal(st, c)
    ensures Step(st, c).next == st.next + if c.Place? then 1 else 0
  {
    if c.Submit? { SubmittedParts(st, c.id, c.seqno); }
  }

  /** Where a run submits the order `i`; -1 if nowhere. */
  function SubmittedAt(cmds: seq<Command>, i: int): (k: int)
    ensures -1 <= k < |cmds| && (k >= 0 ==> cmds[k].Submit? && cmds[k].id == i)
    ensures forall j :: k < j < |cmds| && cmds[j].Submit? ==> cmds[j].id != i
  {
    if cmds == [] then -1
    else
      var last := |cmds| - 1;
      if cmds[last].Submit? && cmds[last].id == i then last else SubmittedAt(cmds[..last], i)
  }

  lemma SubmittedAtSnoc(cmds: seq<Command>, c: Command, i: int)
    ensures SubmittedAt(cmds + [c], i) == if c.Submit? && c.id == i then |cmds| else SubmittedAt(cmds, i)
  {
    assert (cmds + [c])[..|cmds|] == cmds;
  }

  lemma {:induction false} SubmittedAre(cmds: seq<Command>, i: int)
    requires Possible(cmds)
    ensures i in After(cmds).submitted <==> SubmittedAt(cmds, i) >= 0
    decreases |cmds|
  {
    EmptyInv();
    if cmds != [] {
      var pre, c := LastCommand(cmds);
      SubmittedAre(pre, i);
      SubmittedAtSnoc(pre, c, i);
      if c.Submit? { SubmittedParts(After(pre), c.id, c.seqno); }
    }
  }

  // ---------- every reachable state ----------

  /** Bids fall and asks rise, strictly, from level to level. */
  lemma PricesInOrder(cmds: seq<Command>, i: nat, j: nat)
    requires Possible(cmds) && i < j
    ensures j < |After(cmds).bids| ==> After(cmds).bids[i].price > After(cmds).bids[j].price
    ensures j < |After(cmds).asks| ==> After(cmds).asks[i].price < After(cmds).asks[j].price
  {
    var st := After(cmds);
    assert SideOk(st, Buy) && SideOk(st, Sell);
    if j < |st.bids| { LadderSorted(Buy, st.bids, i, j); }
    if j < |st.asks| { LadderSorted(Sell, st.asks, i, j); }
  }

  /** The state of an order tells how much of it has been executed. */
  lemma StatesTellFills(cmds: seq<Command>, i: int)
    requires Possible(cmds) && i in After(cmds).store
    ensures var o := After(cmds).store[i];
            (o.state == New ==> o.filled == 0) && (o.state == PartiallyFilled ==> 0 < o.filled < o.quantity)
            && (o.state == Filled <==> 0 < o.filled == o.quantity)
            && (o.state == Cancelled ==> o.filled == 0 || 0 < o.filled < o.quantity)
  {
    assert Coherent(After(cmds).store[i]);
  }

  /** What is queued under a price is on that side and asked for that price, and was submitted. */
  lemma {:induction false} QueuedAt(store: Store, s: Side, levels: seq<Level<int>>, p: real, k: nat)
    requires Housed(store, s, levels) && k < |QueueAt(levels, p)|
    ensures var i := QueueAt(levels, p)[k];
            i in Flat(levels) && i in store && store[i].side == s && store[i].price == p
  {
    if levels[0].price != p { QueuedAt(store, s, levels[1..], p, k); }
  }

  lemma {:induction false} FoundAt(store: Store, s: Side, levels: seq<Level<int>>, i: int)
    requires Ladder(s, levels) && Housed(store, s, levels) && i in Flat(levels)
    ensures i in store && store[i].side == s && i in QueueAt(levels, store[i].price)
  {
    if i !in levels[0].q {
      FoundAt(store, s, levels[1..], i);
      if store[i].price == levels[0].price {
        QueueAtAbsent(s, levels[1..], store[i].price);
        assert false;
      }
    }
  }

  /** An order that can still trade and was submitted is queued on its side. */
  lemma RestingQueued(st: State, i: int)
    requires Inv(st) && i in st.store && i in st.submitted
    requires st.store[i].state == New || st.store[i].state == PartiallyFilled
    ensures i in Flat(st.Levels(st.store[i].side))
  {
    assert Tracked(st);
  }

  /** In every reachable state an order that was submitted and is neither filled nor cancelled rests in the queue of its
      own price, on its own side. */
  lemma OpenOrdersRest(cmds: seq<Command>, i: int)
    requires Possible(cmds) && i in After(cmds).store && SubmittedAt(cmds, i) >= 0
    requires After(cmds).store[i].state != Filled && After(cmds).store[i].state != Cancelled
    ensures var st := After(cmds);
            i in QueueAt(if st.store[i].side == Buy then st.bids else st.asks, st.store[i].price)
  {
    var st := After(cmds);
    SubmittedAre(cmds, i);
    RestingQueued(st, i);
    assert SideOk(st, st.store[i].side);
    FoundAt(st.store, st.store[i].side, st.Levels(st.store[i].side), i);
  }

  // ---------- what is filled leaves the book ----------

  /** A submission queues only what is left of the order, and takes out whatever it fills. */
  lemma SubmitNoneFilled(st: State, id: int, seqno: nat)
    requires Inv(st) && Legal(st, Submit(id, seqno))
    requires NoneFilled(st.store, Flat(st.bids)) && NoneFilled(st.store, Flat(st.asks))
    ensures var st' := Submitted(st, id, seqno);
            NoneFilled(st'.store, Flat(st'.bids)) && NoneFilled(st'.store, Flat(st'.asks))
  {
    var st', s := Submitted(st, id, seqno), st.store[id].side;
    SubmitReady(st, id, seqno);
    SubmittedParts(st, id, seqno);
    LoopNoneFilled(st.store, st.Levels(Opposite(s)), id, seqno);
    OwnNoneFilled(st, id, seqno);
  }

  lemma OwnNoneFilled(st: State, id: int, seqno: nat)
    requires Inv(st) && Legal(st, Submit(id, seqno)) && NoneFilled(st.store, Flat(st.Levels(st.store[id].side)))
    ensures var st' := Submitted(st, id, seqno); NoneFilled(st'.store, Flat(st'.Levels(st.store[id].side)))
  {
    var st', s := Submitted(st, id, seqno), st.store[id].side;
    var g := Flat(st'.Levels(s));
    OwnSide(st, id, seqno);
    forall k | 0 <= k < |g| ensures g[k] in st'.store && st'.store[g[k]].state != Filled {
      assert g[k] in g;
      OwnNotFilled(st, id, seqno, g[k]);
    }
  }

  lemma OwnNotFilled(st: State, id: int, seqno: nat, i: int)
    requires Inv(st) && Legal(st, Submit(id, seqno)) && NoneFilled(st.store, Flat(st.Levels(st.store[id].side)))
    requires i in Flat(Submitted(st, id, seqno).Levels(st.store[id].side))
    requires i == id || i in Flat(st.Levels(st.store[id].side))
    ensures var store' := Submitted(st, id, seqno).store; i in store' && store'[i].state != Filled
  {
    var s := st.store[id].side;
    SubmitReady(st, id, seqno);
    SubmittedParts(st, id, seqno);
    assert SideOk(st, s) && SideOk(st, Opposite(s));
    if i == id {
      NotQueuedBefore(st, id);
      LoopCoherent(st.store, st.Levels(Opposite(s)), id, seqno, id);
    } else {
      FoundAt(st.store, s, st.Levels(s), i);
      if i in Flat(st.Levels(Opposite(s))) { FoundAt(st.store, Opposite(s), st.Levels(Opposite(s)), i); }
      LoopTouches(st.store, st.Levels(Opposite(s)), id, seqno, i);
    }
  }

  lemma NotQueuedBefore(st: State, id: int)
    requires Inv(st) && id in st.store && id !in st.submitted
    ensures id !in Flat(st.bids) && id !in Flat(st.asks)
  {
    assert SideOk(st, Buy) && SideOk(st, Sell);
  }

  /** In every reachable state no filled order stands in a queue. */
  lemma {:induction false} FilledLeave(cmds: seq<Command>)
    requires Possible(cmds)
    ensures var st := After(cmds);
            (forall i <- Flat(st.bids) :: i in st.store && st.store[i].state != Filled)
            && (forall i <- Flat(st.asks) :: i in st.store && st.store[i].state != Filled)
            && NoneFilled(st.store, Flat(st.bids)) && NoneFilled(st.store, Flat(st.asks))
    decreases |cmds|
  {
    EmptyInv();
    if cmds != [] {
      var pre, c := LastCommand(cmds);
      FilledLeave(pre);
      StepNoneFilled(After(pre), c);
    }
  }

  lemma StepNoneFilled(st: State, c: Command)
    requires Inv(st) && Legal(st, c) && NoneFilled(st.store, Flat(st.bids)) && NoneFilled(st.store, Flat(st.asks))
    ensures var st' := Step(st, c); NoneFilled(st'.store, Flat(st'.bids)) && NoneFilled(st'.store, Flat(st'.asks))
  {
    if c.Submit? { SubmitNoneFilled(st, c.id, c.seqno); }
  }

  // ---------- time priority ----------

  /** The ids in a queue stand in the order in which the run submits them. */
  ghost predicate InTime(cmds: seq<Command>, q: seq<int>) {
    forall x: nat, y: nat :: x < y < |q| ==> SubmittedAt(cmds, q[x]) < SubmittedAt(cmds, q[y])
  }

  lemma LaterInTime(pre: seq<Command>, c: Command, q: seq<int>)
    requires InTime(pre, q) && (c.Submit? ==> c.id !in q)
    ensures InTime(pre + [c], q)
  {
    forall x: nat | x < |q| ensures SubmittedAt(pre + [c], q[x]) == SubmittedAt(pre, q[x]) {
      SubmittedAtSnoc(pre, c, q[x]);
    }
  }

  lemma RestInTime(cmds: seq<Command>, q: seq<int>, q': seq<int>)
    requires InTime(cmds, q) && Rest(q, q')
    ensures InTime(cmds, q')
  {
    var d := |q| - |q'|;
    forall x: nat, y: nat | x < y < |q'| ensures SubmittedAt(cmds, q'[x]) < SubmittedAt(cmds, q'[y]) {
      assert q'[x] == q[d + x] && q'[y] == q[d + y];
    }
  }

  lemma LastInTime(pre: seq<Command>, c: Command, q: seq<int>)
    requires InTime(pre, q) && c.Submit? && c.id !in q
    ensures InTime(pre + [c], q + [c.id])
  {
    LaterInTime(pre, c, q);
    SubmittedAtSnoc(pre, c, c.id);
    forall x: nat | x < |q| ensures SubmittedAt(pre + [c], q[x]) < |pre| { SubmittedAtSnoc(pre, c, q[x]); }
  }

  /** One command keeps a queue in the order of the submissions. */
  lemma StepInTime(pre: seq<Command>, c: Command, s: Side, p: real)
    requires Possible(pre) && Inv(After(pre)) && Legal(After(pre), c)
    requires InTime(pre, QueueAt(After(pre).Levels(s), p))
    ensures InTime(pre + [c], QueueAt(Step(After(pre), c).Levels(s), p))
  {
    var st, q := After(pre), QueueAt(After(pre).Levels(s), p);
    if c.Submit? {
      SubmitQueues(st, c.id, c.seqno, s, p);
      QueueKnown(st, s, p, c.id);
      LastInTime(pre, c, q);
    }
    LaterInTime(pre, c, q);
    if c.Submit? && s != st.store[c.id].side {
      RestInTime(pre + [c], q, QueueAt(Step(st, c).Levels(s), p));
    }
  }

  /** What a submission does to the queue at a price: behind, on the own side; from the front, on the other. */
  lemma SubmitQueues(st: State, id: int, seqno: nat, s: Side, p: real)
    requires Inv(st) && Legal(st, Submit(id, seqno))
    ensures var q, q' := QueueAt(st.Levels(s), p), QueueAt(Submitted(st, id, seqno).Levels(s), p);
            if s == st.store[id].side then q' == q || q' == q + [id] else Rest(q, q')
  {
    SubmitReady(st, id, seqno);
    SubmittedParts(st, id, seqno);
    var o := st.store[id];
    assert SideOk(st, o.side);
    if s == o.side {
      InsertQueues(o.side, st.Levels(o.side), o.price, id, p);
    } else {
      LoopQueues(st.store, st.Levels(s), id, seqno, p);
    }
  }

  /** An order not yet submitted is in no queue. */
  lemma QueueKnown(st: State, s: Side, p: real, id: int)
    requires Inv(st) && id !in st.submitted
    ensures id !in QueueAt(st.Levels(s), p)
  {
    var q := QueueAt(st.Levels(s), p);
    assert SideOk(st, s);
    forall k | 0 <= k < |q| ensures q[k] != id { QueuedAt(st.store, s, st.Levels(s), p, k); }
  }

  lemma {:induction false} QueuesInTime(cmds: seq<Command>, s: Side, p: real)
    requires Possible(cmds)
    ensures InTime(cmds, QueueAt(After(cmds).Levels(s), p))
    decreases |cmds|
  {
    EmptyInv();
    if cmds != [] {
      var pre, c := LastCommand(cmds);
      QueuesInTime(pre, s, p);
      StepInTime(pre, c, s, p);
    }
  }

  /** Time priority in every run: the queue at each price is in the order of the submissions. */
  lemma TimePriority(cmds: seq<Command>, s: Side, p: real, a: nat, b: nat)
    requires Possible(cmds) && a < b < |QueueAt(After(cmds).Levels(s), p)|
    ensures var q := QueueAt(After(cmds).Levels(s), p);
            0 <= SubmittedAt(cmds, q[a]) < SubmittedAt(cmds, q[b])
  {
    var st := After(cmds);
    QueuesInTime(cmds, s, p);
    assert SideOk(st, s);
    QueuedAt(st.store, s, st.Levels(s), p, a);
    SubmittedAre(cmds, QueueAt(st.Levels(s), p)[a]);
  }

  // ---------- submitting ----------

  /** An order may be submitted exactly if it was placed, for a positive quantity, is still new, and the run has not
      submitted it before. */
  lemma SubmitAccepted(cmds: seq<Command>, id: int, seqno: nat)
    requires Possible(cmds)
    ensures var st := After(cmds);
            Possible(cmds + [Submit(id, seqno)]) <==>
            id in st.store && st.store[id].quantity > 0 && st.store[id].state == New && SubmittedAt(cmds, id) < 0
  {
    AfterSnoc(cmds, Submit(id, seqno));
    SubmittedAre(cmds, id);
  }

  /** Submitting changes what is filled and the states; all else of every order stays. */
  lemma SubmitInRun(cmds: seq<Command>, id: int, seqno: nat)
    requires Possible(cmds) && Possible(cmds + [Submit(id, seqno)])
    ensures var st, st' := After(cmds), After(cmds + [Submit(id, seqno)]);
            st'.store.Keys == st.store.Keys && st'.next == st.next && st'.active == st.active
            && st'.submitted == st.submitted + {id} && st.tape <= st'.tape
            && forall i <- st.store ::
                 st'.store[i] == st.store[i].(filled := st'.store[i].filled, state := st'.store[i].state)
  {
    AfterSnoc(cmds, Submit(id, seqno));
    SubmitFrame(After(cmds), id, seqno);
  }

  lemma SubmitFrame(st: State, id: int, seqno: nat)
    requires Inv(st) && Legal(st, Submit(id, seqno))
    ensures var st' := Submitted(st, id, seqno);
            st'.next == st.next && st'.active == st.active
            && st'.submitted == st.submitted + {id} && st.tape <= st'.tape
            && st'.store.Keys == st.store.Keys
            && forall i <- st.store ::
                 st'.store[i] == st.store[i].(filled := st'.store[i].filled, state := st'.store[i].state)
  {
    SubmitReady(st, id, seqno);
    SubmittedParts(st, id, seqno);
    LoopFrame(st.store, st.Levels(Opposite(st.store[id].side)), id, seqno);
    var store' := Submitted(st, id, seqno).store;
    assert SameTerms(st.store, store');
    assert forall i :: i in st.store.Keys <==> i in store'.Keys;
  }

  lemma SubmittedTrade(st: State, id: int, seqno: nat, k: nat)
    requires Inv(st) && Legal(st, Submit(id, seqno)) && |st.tape| <= k < |Submitted(st, id, seqno).tape|
    ensures var s, tr := Opposite(st.store[id].side), Submitted(st, id, seqno).tape[k];
            StruckBy(st.store, Flat(st.Levels(s)), id, seqno, tr)
            && FairTrade(Submitted(st, id, seqno).store, tr)
  {
    SubmitReady(st, id, seqno);
    SubmittedParts(st, id, seqno);
    var opp := st.Levels(Opposite(st.store[id].side));
    LoopStrikes(st.store, opp, id, seqno);
    SubmitAudited(st, id, seqno);
    var tape, trades := Submitted(st, id, seqno).tape, MatchLoop(st.store, opp, id, seqno).trades;
    assert tape[k] in tape && tape[k] == trades[k - |st.tape|];
  }

  /** The trades a submission adds are those of its matching run. */
  lemma NewTrade(cmds: seq<Command>, id: int, seqno: nat, k: nat)
    requires Possible(cmds) && Possible(cmds + [Submit(id, seqno)])
    requires |After(cmds).tape| <= k < |After(cmds + [Submit(id, seqno)]).tape|
    ensures var st, st' := After(cmds), After(cmds + [Submit(id, seqno)]);
            id in st.store
            && StruckBy(st.store, Flat(st.Levels(Opposite(st.store[id].side))), id, seqno, st'.tape[k])
            && FairTrade(st'.store, st'.tape[k]) && id in st'.store && st'.store[id].price == st.store[id].price
  {
    AfterSnoc(cmds, Submit(id, seqno));
    SubmittedTrade(After(cmds), id, seqno, k);
    SubmitFrame(After(cmds), id, seqno);
  }

  /** Every trade of a submission names the submitted order and an order of the other side that was submitted, not
      filled and not cancelled, at that order's price and under the submitted order's symbol and the given number. */
  lemma SubmitStrikes(cmds: seq<Command>, id: int, seqno: nat, k: nat)
    requires Possible(cmds) && Possible(cmds + [Submit(id, seqno)])
    requires |After(cmds).tape| <= k < |After(cmds + [Submit(id, seqno)]).tape|
    ensures var st, tr := After(cmds), After(cmds + [Submit(id, seqno)]).tape[k];
            id in st.store
            && var buying := st.store[id].side == Buy;
               var m := if buying then tr.sellId else tr.buyId;
               id == (if buying then tr.buyId else tr.sellId)
               && m in st.store && m != id && SubmittedAt(cmds, m) >= 0 && st.store[m].side != st.store[id].side
               && (st.store[m].state == New || st.store[m].state == PartiallyFilled)
               && tr.price == st.store[m].price && tr.symbol == st.store[id].symbol && tr.seqno == seqno
               && 0 < tr.quantity <= st.store[m].quantity - st.store[m].filled
               && (if buying then tr.price <= st.store[id].price else tr.price >= st.store[id].price)
  {
    var st, tr := After(cmds), After(cmds + [Submit(id, seqno)]).tape[k];
    NewTrade(cmds, id, seqno, k);
    var s := Opposite(st.store[id].side);
    var m := if s == Sell then tr.sellId else tr.buyId;
    QueuedWasSubmitted(cmds, s, m);
  }

  lemma QueuedWasSubmitted(cmds: seq<Command>, s: Side, i: int)
    requires Possible(cmds) && i in Flat(After(cmds).Levels(s))
    ensures SubmittedAt(cmds, i) >= 0 && i in After(cmds).store && After(cmds).store[i].side == s
  {
    var st := After(cmds);
    assert SideOk(st, s);
    FoundAt(st.store, s, st.Levels(s), i);
    SubmittedAre(cmds, i);
  }

  /** Units that the orders with ids below `n` have on offer to a taker on side `s`, at prices it accepts: submitted
      orders of the other side that are neither filled nor cancelled. */
  function OnOffer(store: Store, known: set<int>, s: Side, limit: real, n: nat): int {
    if n == 0 then 0
    else
      var i := n - 1;
      (if i in store && i in known && store[i].side != s && store[i].state != Filled && store[i].state != Cancelled
          && (if s == Buy then store[i].price <= limit else store[i].price >= limit)
       then store[i].quantity - store[i].filled else 0)
      + OnOffer(store, known, s, limit, n - 1)
  }

  /** The same, of the orders queued in `ids`. */
  ghost function QueuedOffer(store: Store, ids: seq<int>, s: Side, limit: real, n: nat): int {
    if n == 0 then 0
    else
      var i := n - 1;
      (if i in ids && LiveIn(store, i) && Crosses(s, limit, store[i].price) then store[i].Remaining() else 0)
      + QueuedOffer(store, ids, s, limit, n - 1)
  }

  lemma {:induction false} QueuedOfferEmpty(store: Store, s: Side, limit: real, n: nat)
    ensures QueuedOffer(store, [], s, limit, n) == 0
  {
    if n > 0 { QueuedOfferEmpty(store, s, limit, n - 1); }
  }

  lemma {:induction false} QueuedOfferStep(store: Store, ids: seq<int>, s: Side, limit: real, n: nat)
    requires ids != [] && ids[0] !in ids[1..]
    ensures var i := ids[0];
            QueuedOffer(store, ids, s, limit, n)
            == (if 0 <= i < n && LiveIn(store, i) && Crosses(s, limit, store[i].price)
                then store[i].Remaining() else 0)
               + QueuedOffer(store, ids[1..], s, limit, n)
  {
    if n > 0 {
      QueuedOfferStep(store, ids, s, limit, n - 1);
      assert n - 1 in ids <==> n - 1 == ids[0] || n - 1 in ids[1..];
    }
  }

  lemma {:induction false} CrossableIsOffer(store: Store, ids: seq<int>, s: Side, limit: real, n: nat)
    requires Queued(store, ids) && forall k :: 0 <= k < |ids| ==> 0 <= ids[k] < n
    ensures Crossable(s, limit, Quotes(store, ids)) == QueuedOffer(store, ids, s, limit, n)
  {
    if ids == [] {
      QueuedOfferEmpty(store, s, limit, n);
    } else {
      assert ids == [ids[0]] + ids[1..];
      QueuedTail(store, [ids[0]], ids[1..]);
      CrossableIsOffer(store, ids[1..], s, limit, n);
      QueuedOfferStep(store, ids, s, limit, n);
      var rest := Quotes(store, ids[1..]);
      assert Quotes(store, ids) == rest || Quotes(store, ids)[1..] == rest;
    }
  }

  /** What is queued opposite and can trade is what was submitted there and is neither filled nor cancelled. */
  lemma {:induction false} OfferIsQueued(st: State, s: Side, limit: real, n: nat)
    requires Inv(st)
    ensures QueuedOffer(st.store, Flat(st.Levels(Opposite(s))), s, limit, n)
            == OnOffer(st.store, st.submitted, s, limit, n)
  {
    if n > 0 {
      OfferIsQueued(st, s, limit, n - 1);
      if LiveIn(st.store, n - 1) { OfferedIffQueued(st, s, n - 1); }
    }
  }

  lemma OfferedIffQueued(st: State, s: Side, i: int)
    requires Inv(st) && i in st.store && (st.store[i].state == New || st.store[i].state == PartiallyFilled)
    ensures i in Flat(st.Levels(Opposite(s))) <==> i in st.submitted && st.store[i].side != s
  {
    assert SideOk(st, Opposite(s));
    if i in Flat(st.Levels(Opposite(s))) { FoundAt(st.store, Opposite(s), st.Levels(Opposite(s)), i); }
    if i in st.submitted { RestingQueued(st, i); }
  }

  /** A submission executes all it can: the whole order, or every unit on offer at a price it accepts. */
  lemma SubmitExecutes(cmds: seq<Command>, id: int, seqno: nat)
    requires Possible(cmds) && Possible(cmds + [Submit(id, seqno)])
    ensures var st, st' := After(cmds), After(cmds + [Submit(id, seqno)]);
            id in st.store && id in st'.store
            && var o := st.store[id];
               var offer := OnOffer(st.store, st.submitted, o.side, o.price, st.next);
               st'.store[id].filled == if o.quantity <= offer then o.quantity else offer
  {
    var st := After(cmds);
    AfterSnoc(cmds, Submit(id, seqno));
    SubmitReady(st, id, seqno);
    SubmittedParts(st, id, seqno);
    var o := st.store[id];
    var opp := st.Levels(Opposite(o.side));
    LoopOfNew(st.store, opp, id, seqno);
    CrossableIsOffer(st.store, Flat(opp), o.side, o.price, st.next);
    OfferIsQueued(st, o.side, o.price, st.next);
  }

  // ---------- price-time priority ----------

  lemma {:induction false} BeforeAcross(q: seq<int>, rest: seq<int>, i: int, j: int)
    requires i in q && j in rest
    ensures Before(q + rest, i, j)
  {
    assert (q + rest)[1..] == q[1..] + rest;
    if q[0] != i { BeforeAcross(q[1..], rest, i, j); }
  }

  lemma {:induction false} BeforeBehind(q: seq<int>, rest: seq<int>, i: int, j: int)
    requires i !in q && Before(rest, i, j)
    ensures Before(q + rest, i, j)
  {
    if q == [] {
      assert q + rest == rest;
    } else {
      assert (q + rest)[1..] == q[1..] + rest;
      BeforeBehind(q[1..], rest, i, j);
    }
  }

  lemma {:induction false} BeforeWithin(q: seq<int>, rest: seq<int>, a: nat, b: nat)
    requires a < b < |q| && forall k :: 0 <= k < a ==> q[k] != q[a]
    ensures Before(q + rest, q[a], q[b])
  {
    assert (q + rest)[1..] == q[1..] + rest;
    if a > 0 {
      BeforeWithin(q[1..], rest, a - 1, b - 1);
    } else {
      assert q[b] == q[1..][b - 1];
    }
  }

  /** A better price stands before a worse one. */
  lemma {:induction false} BeforeByPrice(store: Store, s: Side, levels: seq<Level<int>>, i: int, j: int)
    requires Ladder(s, levels) && Housed(store, s, levels) && i in Flat(levels) && j in Flat(levels)
    requires i in store && j in store && Better(s, store[i].price, store[j].price)
    ensures Before(Flat(levels), i, j)
  {
    var q, rest := levels[0].q, Flat(levels[1..]);
    if i in q {
      BeforeAcross(q, rest, i, j);
    } else {
      NotBetter(store, s, levels, i);
      BeforeByPrice(store, s, levels[1..], i, j);
      BeforeBehind(q, rest, i, j);
    }
  }

  lemma NotBetter(store: Store, s: Side, levels: seq<Level<int>>, i: int)
    requires Ladder(s, levels) && Housed(store, s, levels) && i in Flat(levels)
    ensures i in store && !Better(s, store[i].price, levels[0].price)
  {
    HousedOrders(store, s, levels);
    var k :| 0 <= k < |Flat(levels)| && Flat(levels)[k] == i;
  }

  /** At one price, the order in the queue is the order in the priority list. */
  lemma {:induction false} BeforeByTime(store: Store, s: Side, levels: seq<Level<int>>, p: real, a: nat, b: nat)
    requires Housed(store, s, levels) && Queued(store, Flat(levels)) && a < b < |QueueAt(levels, p)|
    ensures Before(Flat(levels), QueueAt(levels, p)[a], QueueAt(levels, p)[b])
  {
    var q, rest := levels[0].q, Flat(levels[1..]);
    if levels[0].price == p {
      forall k | 0 <= k < a ensures q[k] != q[a] { assert Flat(levels)[k] != Flat(levels)[a]; }
      BeforeWithin(q, rest, a, b);
    } else {
      QueuedTail(store, q, rest);
      BeforeByTime(store, s, levels[1..], p, a, b);
      QueuedAt(store, s, levels[1..], p, a);
      BeforeBehind(q, rest, QueueAt(levels, p)[a], QueueAt(levels, p)[b]);
    }
  }

  lemma QueuedTail(store: Store, q: seq<int>, rest: seq<int>)
    requires Queued(store, q + rest)
    ensures Queued(store, rest)
  {
    assert forall k :: 0 <= k < |rest| ==> rest[k] == (q + rest)[|q| + k];
  }

  /** Better prices first and, at one price, earlier submissions first: that is how the orders of a side stand. */
  lemma BeforeInRun(cmds: seq<Command>, s: Side, i: int, j: int)
    requires Possible(cmds) && i in Flat(After(cmds).Levels(s)) && j in Flat(After(cmds).Levels(s))
    requires i in After(cmds).store && j in After(cmds).store
    requires var p, r := After(cmds).store[i].price, After(cmds).store[j].price;
             (if s == Buy then p > r else p < r) || (p == r && SubmittedAt(cmds, i) < SubmittedAt(cmds, j))
    ensures Before(Flat(After(cmds).Levels(s)), i, j)
  {
    var st := After(cmds);
    assert SideOk(st, s);
    if st.store[i].price == st.store[j].price {
      var q := QueueAt(st.Levels(s), st.store[i].price);
      FoundAt(st.store, s, st.Levels(s), i);
      FoundAt(st.store, s, st.Levels(s), j);
      var a :| 0 <= a < |q| && q[a] == i;
      var b :| 0 <= b < |q| && q[b] == j;
      if b < a { TimePriority(cmds, s, st.store[i].price, b, a); }
      BeforeByTime(st.store, s, st.Levels(s), st.store[i].price, a, b);
    } else {
      BeforeByPrice(st.store, s, st.Levels(s), i, j);
    }
  }

  /** Whoever trades in a submission, other than the submitted order, was queued opposite. */
  lemma TradedWasQueued(st: State, id: int, seqno: nat, j: int)
    requires Inv(st) && Legal(st, Submit(id, seqno)) && j != id
    requires Named(Submitted(st, id, seqno).tape, j) > Named(st.tape, j)
    ensures var opp := st.Levels(Opposite(st.store[id].side));
            j in Flat(opp) && Matchable(st.store, opp, id) && Named(MatchLoop(st.store, opp, id, seqno).trades, j) > 0
  {
    SubmitReady(st, id, seqno);
    SubmittedParts(st, id, seqno);
    var opp := st.Levels(Opposite(st.store[id].side));
    NamedAppend(st.tape, MatchLoop(st.store, opp, id, seqno).trades, j);
    LoopTouches(st.store, opp, id, seqno, j);
    LoopCredits(st.store, opp, id, seqno, j);
  }

  /** Price-time priority in every run: when `j` trades with a submitted order, each order of that side with a better
      price, or with the same price and submitted earlier, that was neither filled nor cancelled is filled. */
  lemma SubmitPriority(cmds: seq<Command>, id: int, seqno: nat, i: int, j: int)
    requires Possible(cmds) && Possible(cmds + [Submit(id, seqno)])
    requires i in After(cmds).store && j in After(cmds).store && id in After(cmds).store && j != id
    requires After(cmds).store[i].state == New || After(cmds).store[i].state == PartiallyFilled
    requires After(cmds).store[i].side != After(cmds).store[id].side && SubmittedAt(cmds, i) >= 0
    requires Named(After(cmds + [Submit(id, seqno)]).tape, j) > Named(After(cmds).tape, j)
    requires var p, r := After(cmds).store[i].price, After(cmds).store[j].price;
             (if After(cmds).store[id].side == Sell then p > r else p < r)
             || (p == r && SubmittedAt(cmds, i) < SubmittedAt(cmds, j))
    ensures var st' := After(cmds + [Submit(id, seqno)]);
            i in st'.store && st'.store[i].state == Filled && st'.store[i].filled == st'.store[i].quantity
  {
    var st := After(cmds);
    AfterSnoc(cmds, Submit(id, seqno));
    SubmitReady(st, id, seqno);
    SubmittedParts(st, id, seqno);
    SubmittedAre(cmds, i);
    RestingQueued(st, i);
    TradedWasQueued(st, id, seqno, j);
    BeforeInRun(cmds, Opposite(st.store[id].side), i, j);
    LoopPriority(st.store, st.Levels(Opposite(st.store[id].side)), id, seqno, i, j);
  }
}
