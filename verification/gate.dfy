/**
  The purchase gate: a short-circuit check over the user form's errors, the
  address form's validity and the pickup selection.
*/
module Gate {
  import opened Common
  import opened Store

  /**
    `values.some(e => e !== undefined)`: scans from the front and stops at the
    first value that is not `undefined` (so `null` counts as an error).
  */
  function AnyDefined(values: seq<FieldError>): (r: bool)
    ensures r <==> exists i :: 0 <= i < |values| && values[i] != Undefined
  {
    if |values| == 0 then false
    else if values[0] != Undefined then true
    else AnyDefined(values[1..])
  }

  /** `pickup?.length`: absent when there is no selection. */
  function PickupLength(pickup: Option<seq<string>>): Option<nat>
  {
    match pickup
    case None => None
    case Some(points) => Some(|points|)
  }

  /** JavaScript falsiness of an optional length: `undefined` or `0`. */
  predicate Falsy(n: Option<nat>)
  {
    n.None? || n.value == 0
  }

  /** Declarative reading of the gate, stated without the short-circuit order. */
  ghost predicate Purchasable(order: Order, userErrors: seq<FieldError>, addressValid: bool)
  {
    && (forall i :: 0 <= i < |userErrors| ==> userErrors[i] == Undefined)
    && (order.kind == DELIVERY ==> addressValid)
    && (order.kind == PICKUP ==> order.pickup.Some? && |order.pickup.value| > 0)
  }

  /**
    The sidebar's `isValid`: `userErrors` are the values of the user slice's
    error object in enumeration order, `addressValid` the address slice's flag.
  */
  function IsValid(order: Order, userErrors: seq<FieldError>, addressValid: bool): (r: bool)
    ensures r <==> Purchasable(order, userErrors, addressValid)
  {
    if AnyDefined(userErrors) then false
    else if (order.kind == DELIVERY && !addressValid) || (order.kind == PICKUP && Falsy(PickupLength(order.pickup))) then false
    else true
  }

  /** Any defined error value, `null` included, blocks the purchase whatever else holds. */
  lemma UserErrorBlocks(order: Order, userErrors: seq<FieldError>, addressValid: bool, i: nat)
    requires i < |userErrors| && userErrors[i] != Undefined
    ensures !IsValid(order, userErrors, addressValid)
  {
  }

  /**
    Without user errors: a delivery order passes exactly when the address is
    valid, a pickup order exactly when a non-empty pickup selection exists,
    and any other order type always passes.
  */
  lemma GateWithoutUserErrors(order: Order, userErrors: seq<FieldError>, addressValid: bool)
    requires forall i :: 0 <= i < |userErrors| ==> userErrors[i] == Undefined
    ensures order.kind == DELIVERY ==> (IsValid(order, userErrors, addressValid) <==> addressValid)
    ensures order.kind == PICKUP ==>
      (IsValid(order, userErrors, addressValid) <==> order.pickup.Some? && order.pickup.value != [])
    ensures order.kind != DELIVERY && order.kind != PICKUP ==> IsValid(order, userErrors, addressValid)
  {
  }
}
