/**
  The sidebar's total: a left fold over the cart lines whose seed is the
  delivery fee, or zero for pickup orders.
*/
module Pricing {
  import opened Store

  /** Flat delivery fee, in minor currency units, for every non-pickup order. */
  const DELIVERY_FEE: int := 1299

  /** Price of one cart line. */
  function LineTotal(item: LineItem): int
  {
    item.price * item.quantity
  }

  /** `items.reduce((total, item) => total + LineTotal(item), acc)`. */
  function Reduce(items: seq<LineItem>, acc: int): int
  {
    if |items| == 0 then acc else Reduce(items[1..], acc + LineTotal(items[0]))
  }

  /** Reference definition: the sum of all line totals, summed from the right. */
  function Subtotal(items: seq<LineItem>): int
  {
    if |items| == 0 then 0 else LineTotal(items[0]) + Subtotal(items[1..])
  }

  /** The fold's initial value: nothing for pickup, the fee for any other type. */
  function Seed(kind: string): int
  {
    if kind == PICKUP then 0 else DELIVERY_FEE
  }

  /** Folding from a seed adds the seed to the plain sum. */
  lemma {:induction false} ReduceIsSum(items: seq<LineItem>, acc: int)
    ensures Reduce(items, acc) == acc + Subtotal(items)
  {
    if |items| > 0 {
      ReduceIsSum(items[1..], acc + LineTotal(items[0]));
    }
  }

  /** The total shown in the sidebar. */
  function TotalPrice(order: Order): (r: int)
    ensures r == Subtotal(order.products) + (if order.kind == PICKUP then 0 else DELIVERY_FEE)
  {
    ReduceIsSum(order.products, Seed(order.kind));
    Reduce(order.products, Seed(order.kind))
  }

  /** An empty cart costs nothing for pickup and exactly the fee otherwise. */
  lemma EmptyCartTotal(kind: string, pickup: Common.Option<seq<string>>)
    ensures kind == PICKUP ==> TotalPrice(Order(kind, pickup, [])) == 0
    ensures kind != PICKUP ==> TotalPrice(Order(kind, pickup, [])) == DELIVERY_FEE
  {
  }

  /**
    For the same cart, any non-pickup total exceeds the pickup total by exactly
    the fee, whatever the pickup selection.
  */
  lemma SurchargeDifference(kind: string, p: Common.Option<seq<string>>, q: Common.Option<seq<string>>, items: seq<LineItem>)
    requires kind != PICKUP
    ensures TotalPrice(Order(kind, p, items)) == TotalPrice(Order(PICKUP, q, items)) + DELIVERY_FEE
  {
  }

  /** One line of 500 times 2 delivered costs 2299; picked up it costs 1000. */
  lemma WorkedExample()
    ensures TotalPrice(Order(DELIVERY, Common.None, [LineItem(500, 2)])) == 2299
    ensures TotalPrice(Order(PICKUP, Common.Some(["p1"]), [LineItem(500, 2)])) == 1000
  {
  }
}
