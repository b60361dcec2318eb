/** Orders of the phase 4 matching system: the mutable `Order` object that the book and the
    order manager share, and `Info`, the value such an object holds at one instant. */
module Orders {

  datatype Side = Buy | Sell

  datatype OrdState = New | PartiallyFilled | Filled | Cancelled

  function Opposite(s: Side): Side {
    if s == Buy then Sell else Buy
  }

  /** The fields of an order at one instant. */
  datatype Info = Info(symbol: string, price: real, quantity: int, side: Side, filled: int, state: OrdState) {
    function Remaining(): int {
      quantity - filled
    }

    predicate Live() {
      state == New || state == PartiallyFilled
    }

    /** Execution of `n` units, as the matching loop writes it. */
    function Fill(n: int): Info {
      var left := this.(filled := filled + n);
      left.(state := if left.Remaining() == 0 then Filled else PartiallyFilled)
    }
  }

  class Order {
    const id: int
    const symbol: string
    const price: real
    const quantity: int
    const side: Side
    var filled: int
    var state: OrdState

    constructor (id: int, symbol: string, price: real, quantity: int, side: Side)
      ensures this.id == id && Snap() == Info(symbol, price, quantity, side, 0, New)
    {
      this.id, this.symbol, this.price, this.quantity, this.side := id, symbol, price, quantity, side;
      filled, state := 0, New;
    }

    function Snap(): Info
      reads this
    {
      Info(symbol, price, quantity, side, filled, state)
    }

    function Remaining(): int
      reads this
    {
      quantity - filled
    }

    predicate Live()
      reads this
    {
      state == New || state == PartiallyFilled
    }
  }

  /** One record of the trade tape. The latency stamp of the source record is a clock reading and is not kept. */
  datatype Trade = Trade(buyId: int, sellId: int, symbol: string, price: real, quantity: int, seqno: nat)

  type Store = map<int, Info>

  /** The order objects known so far, by id. Each object sits under its own id. */
  type Registry = map<int, Order>

  ghost predicate WellKeyed(reg: Registry) {
    forall i <- reg :: reg[i].id == i
  }

  /** The current values of the registered objects. */
  ghost function StoreOf(reg: Registry): Store
    reads reg.Values
  {
    map i | i in reg :: reg[i].Snap()
  }

  lemma StoreIs(reg: Registry, goal: Store)
    requires forall i :: i in reg <==> i in goal
    requires forall i :: i in reg && i in goal ==> reg[i].Snap() == goal[i]
    ensures StoreOf(reg) == goal
  {
    var s := StoreOf(reg);
    forall i | true ensures (i in s <==> i in goal) && (i in s && i in goal ==> s[i] == goal[i]) {
      assert i in s <==> i in reg;
    }
  }
}
