/**
  The slices of the application store that the checkout sidebar reads.
  The sidebar never writes them; it only asks the store to clear them.
*/
module Store {
  import opened Common

  /** The two order types the sidebar tests for; any other string is possible. */
  const PICKUP: string := "Pickup"
  const DELIVERY: string := "Delivery"

  /** One cart line; the price is in minor currency units. */
  datatype LineItem = LineItem(price: int, quantity: int)

  /**
    The order slice: its type, the chosen pickup points (absent when none was
    chosen) and the cart lines in order.
  */
  datatype Order = Order(kind: string, pickup: Option<seq<string>>, products: seq<LineItem>)

  /**
    One value of the user slice's error object: `undefined` (no error),
    `null`, or a message.
  */
  datatype FieldError = Undefined | Null | Message(text: string)
}
