/** What both phase 5 books are for: a map from order id to order, changed by three operations. */
module BookSpec {

  datatype Quote = Quote(id: string, price: real, quantity: int, isBuy: bool)

  type Orders = map<string, Quote>

  datatype Op =
    | Add(id: string, price: real, quantity: int, isBuy: bool)
    | Modify(id: string, price: real, quantity: int)
    | Delete(id: string)

  /** Adding asks for an id that is not in use. */
  predicate Legal(m: Orders, op: Op) {
    op.Add? ==> op.id !in m
  }

  function Apply(m: Orders, op: Op): Orders {
    match op
    case Add(id, price, quantity, isBuy) => m[id := Quote(id, price, quantity, isBuy)]
    case Modify(id, price, quantity) => if id in m then m[id := Quote(id, price, quantity, m[id].isBuy)] else m
    case Delete(id) => m - {id}
  }

  predicate LegalRun(m: Orders, ops: seq<Op>)
    decreases ops
  {
    ops == [] || (Legal(m, ops[0]) && LegalRun(Apply(m, ops[0]), ops[1..]))
  }

  function Run(m: Orders, ops: seq<Op>): Orders
    decreases ops
  {
    if ops == [] then m else Run(Apply(m, ops[0]), ops[1..])
  }

  /** The prices at which something rests. */
  ghost function Prices(m: Orders): set<real> {
    set id | id in m :: m[id].price
  }

  /** The orders resting at one price. */
  ghost function At(m: Orders, p: real): map<string, Quote> {
    map id | id in m && m[id].price == p :: m[id]
  }
}
