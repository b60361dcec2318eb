/** What a run leaves in a phase 5 book, read off the list of its operations alone. */
module BookLaws {
  import opened BookSpec

  /** Where `id` is added last; -1 if nowhere. */
  function LastAdd(ops: seq<Op>, id: string): (k: int)
    ensures -1 <= k < |ops| && (k >= 0 ==> ops[k].Add? && ops[k].id == id)
    ensures forall j :: k < j < |ops| && ops[j].Add? ==> ops[j].id != id
  {
    if ops == [] then -1
    else
      var last := |ops| - 1;
      if ops[last].Add? && ops[last].id == id then last else LastAdd(ops[..last], id)
  }

  /** Where `id` is deleted last; -1 if nowhere. */
  function LastDelete(ops: seq<Op>, id: string): (k: int)
    ensures -1 <= k < |ops| && (k >= 0 ==> ops[k].Delete? && ops[k].id == id)
    ensures forall j :: k < j < |ops| && ops[j].Delete? ==> ops[j].id != id
  {
    if ops == [] then -1
    else
      var last := |ops| - 1;
      if ops[last].Delete? && ops[last].id == id then last else LastDelete(ops[..last], id)
  }

  /** Where `id` is given a price and a quantity last; -1 if nowhere. */
  function LastQuote(ops: seq<Op>, id: string): (k: int)
    ensures -1 <= k < |ops| && (k >= 0 ==> !ops[k].Delete? && ops[k].id == id)
    ensures forall j :: k < j < |ops| && !ops[j].Delete? ==> ops[j].id != id
  {
    if ops == [] then -1
    else
      var last := |ops| - 1;
      if !ops[last].Delete? && ops[last].id == id then last else LastQuote(ops[..last], id)
  }

  /** `m` holds `id` exactly if it was added after any deletion, on the side of that addition and with the price and
      quantity named last. */
  ghost predicate Told(ops: seq<Op>, m: Orders, id: string) {
    (id in m <==> LastAdd(ops, id) > LastDelete(ops, id))
    && (id in m ==>
          LastAdd(ops, id) >= 0 && LastQuote(ops, id) >= LastAdd(ops, id)
          && m[id].id == id && m[id].isBuy == ops[LastAdd(ops, id)].isBuy
          && m[id].price == ops[LastQuote(ops, id)].price && m[id].quantity == ops[LastQuote(ops, id)].quantity)
  }

  lemma {:induction false} RunSnoc(m: Orders, ops: seq<Op>, op: Op)
    ensures LegalRun(m, ops + [op]) <==> LegalRun(m, ops) && Legal(Run(m, ops), op)
    ensures Run(m, ops + [op]) == Apply(Run(m, ops), op)
    decreases ops
  {
    if ops == [] {
      assert (ops + [op])[1..] == [];
    } else {
      assert (ops + [op])[1..] == ops[1..] + [op];
      RunSnoc(Apply(m, ops[0]), ops[1..], op);
    }
  }

  lemma LastSnoc(ops: seq<Op>, op: Op, id: string)
    ensures LastAdd(ops + [op], id) == if op.Add? && op.id == id then |ops| else LastAdd(ops, id)
    ensures LastDelete(ops + [op], id) == if op.Delete? && op.id == id then |ops| else LastDelete(ops, id)
    ensures LastQuote(ops + [op], id) == if !op.Delete? && op.id == id then |ops| else LastQuote(ops, id)
  {
    assert (ops + [op])[..|ops|] == ops;
  }

  lemma ToldStep(ops: seq<Op>, op: Op, m: Orders, id: string)
    requires Told(ops, m, id) && Legal(m, op)
    ensures Told(ops + [op], Apply(m, op), id)
  {
    LastSnoc(ops, op, id);
  }

  /** Every run, for every id. */
  lemma {:induction false} RunTold(ops: seq<Op>, id: string)
    requires LegalRun(map[], ops)
    ensures Told(ops, Run(map[], ops), id)
    decreases |ops|
  {
    if ops != [] {
      var pre, op := ops[..|ops| - 1], ops[|ops| - 1];
      assert ops == pre + [op];
      RunSnoc(map[], pre, op);
      RunTold(pre, id);
      ToldStep(pre, op, Run(map[], pre), id);
    }
  }

  lemma EveryTold(ops: seq<Op>)
    requires LegalRun(map[], ops)
    ensures forall id :: Told(ops, Run(map[], ops), id)
  {
    forall id ensures Told(ops, Run(map[], ops), id) { RunTold(ops, id); }
  }

  /** A run is legal exactly if each addition meets an id that was never added, or deleted since. */
  lemma {:induction false} LegalAdditions(ops: seq<Op>)
    ensures LegalRun(map[], ops) <==>
            forall k: nat :: k < |ops| && ops[k].Add? ==>
              LastAdd(ops[..k], ops[k].id) <= LastDelete(ops[..k], ops[k].id)
    decreases |ops|
  {
    if ops != [] {
      var last := |ops| - 1;
      var pre, op := ops[..last], ops[last];
      assert ops == pre + [op];
      LegalAdditions(pre);
      RunSnoc(map[], pre, op);
      assert forall k: nat :: k < last ==> pre[k] == ops[k] && pre[..k] == ops[..k];
      if LegalRun(map[], pre) { RunTold(pre, op.id); }
    }
  }

  /** An operation is only about the id it names. */
  lemma OthersKept(ops: seq<Op>, op: Op, id: string)
    requires LegalRun(map[], ops + [op]) && id != op.id
    ensures var m, m' := Run(map[], ops), Run(map[], ops + [op]);
            (id in m <==> id in m') && (id in m ==> m'[id] == m[id])
  {
    RunSnoc(map[], ops, op);
  }

  // ---------- arrivals ----------

  /** Where `id` came to rest at its price: where it was added last, or where a change moved it to another price. */
  function ArrivedAt(ops: seq<Op>, id: string): (k: int)
    ensures -1 <= k < |ops|
  {
    if ops == [] then -1
    else
      var pre, op := ops[..|ops| - 1], ops[|ops| - 1];
      var was := LastQuote(pre, id);
      if op.id == id && (op.Add? || (op.Modify? && was >= 0 && pre[was].price != op.price)) then |pre|
      else ArrivedAt(pre, id)
  }

  lemma ArrivedSnoc(ops: seq<Op>, op: Op, id: string)
    ensures var was := LastQuote(ops, id);
            ArrivedAt(ops + [op], id) ==
            if op.id == id && (op.Add? || (op.Modify? && was >= 0 && ops[was].price != op.price)) then |ops|
            else ArrivedAt(ops, id)
  {
    assert (ops + [op])[..|ops|] == ops;
  }

  /** The ids stand in the order of their arrivals. */
  ghost predicate InTime(ops: seq<Op>, ids: seq<string>) {
    ids == [] || ((forall y <- ids[1..] :: ArrivedAt(ops, ids[0]) < ArrivedAt(ops, y)) && InTime(ops, ids[1..]))
  }

  lemma {:induction false} InTimeAt(ops: seq<Op>, ids: seq<string>, a: nat, b: nat)
    requires InTime(ops, ids) && a < b < |ids|
    ensures ArrivedAt(ops, ids[a]) < ArrivedAt(ops, ids[b])
  {
    if a == 0 {
      assert ids[b] == ids[1..][b - 1];
    } else {
      InTimeAt(ops, ids[1..], a - 1, b - 1);
    }
  }

  /** An operation on another id does not move these. */
  lemma {:induction false} InTimeKept(ops: seq<Op>, op: Op, ids: seq<string>)
    requires InTime(ops, ids) && forall id <- ids :: ArrivedAt(ops + [op], id) == ArrivedAt(ops, id)
    ensures InTime(ops + [op], ids)
  {
    if ids != [] {
      assert ids[0] in ids && forall y <- ids[1..] :: y in ids;
      InTimeKept(ops, op, ids[1..]);
    }
  }

  /** What arrives last stands last. */
  lemma {:induction false} InTimeLast(ops: seq<Op>, ids: seq<string>, id: string)
    requires InTime(ops, ids) && forall y <- ids :: ArrivedAt(ops, y) < ArrivedAt(ops, id)
    ensures InTime(ops, ids + [id])
  {
    if ids != [] {
      assert ids[0] in ids && forall y <- ids[1..] :: y in ids;
      assert (ids + [id])[1..] == ids[1..] + [id];
      InTimeLast(ops, ids[1..], id);
    }
  }
}
