/** Production and planned orders read from SAP (src/api/order.rs). */
module ApiOrder {
  import opened Numerals
  import ApiWbs
  import ApiPlant

  datatype OrderData = OrderData(id: U32, mark: string, qty: U32, wbs: ApiWbs.Wbs, plant: ApiPlant.Plant)

  datatype Order = PlannedOrder(data: OrderData) | ProductionOrder(data: OrderData)

  /** The order-type codes `Order::new` accepts. */
  predicate IsOrderType(t: string) {
    t == "PP01" || t == "PR"
  }

  /** `Order::new`: "PP01" is a production order, "PR" a planned one; any
      other code reaches `unreachable!()`. */
  function New(orderType: string, data: OrderData): (o: Order)
    requires IsOrderType(orderType)
    ensures o.data == data
    ensures o.ProductionOrder? <==> orderType == "PP01"
    ensures o.PlannedOrder? <==> orderType == "PR"
  {
    match orderType
    case "PP01" => ProductionOrder(data)
    case "PR" => PlannedOrder(data)
  }

  /** The value `OrderData::apply_qty` leaves: `q` taken off the quantity;
      a `q` above the quantity panics instead of wrapping. */
  function QtyApplied(d: OrderData, q: U32): (r: OrderData)
    requires q <= d.qty
    ensures r.qty + q == d.qty
    ensures r.id == d.id && r.mark == d.mark && r.wbs == d.wbs && r.plant == d.plant
  {
    d.(qty := d.qty - q)
  }

  /** Applying a then b is applying a + b. */
  lemma ApplyQtyTwice(d: OrderData, a: U32, b: U32)
    requires a + b <= d.qty
    ensures QtyApplied(QtyApplied(d, a), b) == QtyApplied(d, a + b)
  {
  }

  /** An `OrderData` in a place `&mut self` methods update. */
  class OrderRecord {
    var id: U32
    var mark: string
    var qty: U32
    var wbs: ApiWbs.Wbs
    var plant: ApiPlant.Plant

    constructor (d: OrderData)
      ensures Value() == d
    {
      id, mark, qty, wbs, plant := d.id, d.mark, d.qty, d.wbs, d.plant;
    }

    function Value(): OrderData
      reads this
    {
      OrderData(id, mark, qty, wbs, plant)
    }

    /** `OrderData::apply_qty`: the quantity drops by `q` in place. */
    method ApplyQty(q: U32)
      requires q <= qty
      modifies this
      ensures Value() == QtyApplied(old(Value()), q)
    {
      qty := qty - q;
    }
  }
}
