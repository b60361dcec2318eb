/** The textbook book of phase 5: every order by value in two maps, always removed and re-inserted on a change. */
module BaselineBook {
  import opened BookSpec

  type LevelMap = map<real, map<string, Quote>>

  /** `levels` is `m` grouped by price, and no group is empty. */
  ghost predicate GroupedBy(levels: LevelMap, m: Orders) {
    (forall p :: p in levels <==> At(m, p) != map[]) && forall p <- levels :: levels[p] == At(m, p)
  }

  lemma PricesAreGroups(levels: LevelMap, m: Orders)
    requires GroupedBy(levels, m)
    ensures levels.Keys == Prices(m)
  {
    forall p ensures p in levels <==> p in Prices(m) {
      if p in Prices(m) {
        var i: string :| i in m && m[i].price == p;
        assert i in At(m, p);
      } else {
        assert forall i <- m :: m[i].price in Prices(m);
      }
    }
  }

  /** A level holds exactly the orders at its price, each as it is under its id, and at least one. */
  lemma GroupsMean(levels: LevelMap, m: Orders, p: real, id: string)
    requires GroupedBy(levels, m)
    ensures p in levels && id in levels[p] <==> id in m && m[id].price == p
    ensures p in levels && id in levels[p] ==> levels[p][id] == m[id]
    ensures p in levels ==> levels[p] != map[]
  {
    if id in m && m[id].price == p { assert id in At(m, p); }
  }

  lemma GroupAdd(levels: LevelMap, m: Orders, o: Quote)
    requires GroupedBy(levels, m) && o.id !in m
    ensures var level := if o.price in levels then levels[o.price] else map[];
            GroupedBy(levels[o.price := level[o.id := o]], m[o.id := o])
  {
    var m' := m[o.id := o];
    forall p ensures At(m', p) == if p == o.price then At(m, p)[o.id := o] else At(m, p) {}
    assert o.id in At(m', o.price);
  }

  lemma GroupRemove(levels: LevelMap, m: Orders, id: string)
    requires GroupedBy(levels, m) && id in m
    ensures var p := m[id].price;
            p in levels
            && GroupedBy(if levels[p] - {id} == map[] then levels - {p} else levels[p := levels[p] - {id}], m - {id})
  {
    var p := m[id].price;
    assert id in At(m, p);
    forall r ensures At(m - {id}, r) == if r == p then At(m, r) - {id} else At(m, r) {}
  }

  class OrderBook {
    var orderLevels: LevelMap
    var orderLookup: Orders

    ghost predicate Valid()
      reads this
    {
      GroupedBy(orderLevels, orderLookup)
    }

    constructor ()
      ensures Valid() && orderLookup == map[]
    {
      orderLevels, orderLookup := map[], map[];
    }

    method AddOrder(id: string, price: real, quantity: int, isBuy: bool)
      requires Valid() && id !in orderLookup
      modifies this
      ensures Valid() && orderLookup == Apply(old(orderLookup), Add(id, price, quantity, isBuy))
      ensures orderLookup == old(orderLookup)[id := Quote(id, price, quantity, isBuy)]
    {
      var o := Quote(id, price, quantity, isBuy);
      GroupAdd(orderLevels, orderLookup, o);
      var level := if price in orderLevels then orderLevels[price] else map[];
      orderLevels := orderLevels[price := level[id := o]];
      orderLookup := orderLookup[id := o];
    }

    method ModifyOrder(id: string, newPrice: real, newQuantity: int)
      requires Valid()
      modifies this
      ensures Valid() && orderLookup == Apply(old(orderLookup), Modify(id, newPrice, newQuantity))
      ensures orderLookup == if id in old(orderLookup)
                             then old(orderLookup)[id := Quote(id, newPrice, newQuantity, old(orderLookup)[id].isBuy)]
                             else old(orderLookup)
    {
      if id !in orderLookup { return; }
      var o := orderLookup[id];
      EraseFromLevel(o.price, id);
      orderLookup := orderLookup - {id};
      AddOrder(id, newPrice, newQuantity, o.isBuy);
    }

    method DeleteOrder(id: string)
      requires Valid()
      modifies this
      ensures Valid() && orderLookup == Apply(old(orderLookup), Delete(id)) == old(orderLookup) - {id}
    {
      if id !in orderLookup { return; }
      EraseFromLevel(orderLookup[id].price, id);
      orderLookup := orderLookup - {id};
    }

    /** Erases an order from its level; an emptied level goes too. */
    method EraseFromLevel(price: real, id: string)
      requires Valid() && id in orderLookup && orderLookup[id].price == price
      modifies this`orderLevels
      ensures GroupedBy(orderLevels, orderLookup - {id})
    {
      GroupRemove(orderLevels, orderLookup, id);
      if price !in orderLevels { return; }
      var level := orderLevels[price] - {id};
      orderLevels := if level == map[] then orderLevels - {price} else orderLevels[price := level];
    }

    predicate Contains(id: string)
      reads this
    {
      id in orderLookup
    }

    function Size(): nat
      reads this
    {
      |orderLookup|
    }

    function Levels(): nat
      reads this
    {
      |orderLevels|
    }
  }
}
