# Checkout sidebar and modal dialog — a Dafny model

This project models two pieces of interactive logic from a storefront's
front end:

- the **checkout sidebar**, which computes the order total, gates the buy
  button behind the user form, address form and pickup selection, and, once
  a purchase is confirmed, clears four store slices and then navigates to
  the catalog;
- the **modal dialog**, which locks page scroll while open, hides its
  content at once on a close request, and calls the parent's `onClose`
  300 ms later, from an overlay mouse-down, a close button or a downward
  swipe of more than 100 pixels.

Modules, one per concern:

| file | module | models |
|---|---|---|
| `common.dfy` | `Common` | `Option` and occurrence counting |
| `store.dfy` | `Store` | the order, user and address slices the sidebar reads |
| `pricing.dfy` | `Pricing` | `TotalPrice`, with the fold written as `Array.prototype.reduce` runs it |
| `gate.dfy` | `Gate` | `isValid` and its `some(...)` scan |
| `confirmation.dfy` | `Confirmation` | `handleBuyAll`, `onOk`, the deferred navigation, and the `disabled={!isValid()}` wiring |
| `modal.dfy` | `Modal` | `closModal`, the `isOpen` effect, the touch handlers, the null render, the closed-icon affordances and `zIndex \|\| 1` |

Modelling choices:

- Prices and quantities are integers in minor currency units.
- The order type is a string compared with `"Pickup"` and `"Delivery"`, as
  the code compares it. Any other string is possible: it pays the delivery
  fee and passes the gate's type checks.
- The user slice's error object is given as the sequence of its values in
  enumeration order. A value is `Undefined`, `Null` or a message, so `null`
  counts as an error, as `!== undefined` makes it.
- Timers are a FIFO queue of pending callbacks, run one per `TimerFires`
  event. Within each component every timer has the same delay, so
  scheduling order is firing order.
- Effects on the store, the router, the parent and the document's scroll
  flag are recorded as an ordered trace of tokens.
- The modal's DOM events (`MouseDownOverlay`, `MouseDownContent`,
  `CloseButtonClick`, `TouchStart(y)`, `TouchEnd(y)`) do nothing while the
  modal renders nothing. The close button and swipe events do nothing
  without `closeIcon`, since those elements are absent.
- The `isOpen` effect runs at mount and again only when `isOpen` changes.
- The sidebar has no dismiss event. It passes the confirmation dialog only
  its open flag and the confirm handler, so no dismissal inside that dialog
  can change the sidebar's state.

Where the design description of the system and the code differ, the model
follows the code:

- Setting `isOpen` to false unlocks scroll and hides the content
  immediately. It does not call `onClose`. Only the three close
  interactions schedule `onClose`.
- The modal runs its effect at mount even when mounted closed, so it writes
  `"auto"` to the scroll flag then.
- A z-index of 0 also falls back to 1, because the code uses `zIndex || 1`.
- A close does not always call `onClose` exactly once. The overlay stays
  rendered while `isOpen` is true, and `closModal` does not check for a
  close already pending. So every close interaction within the 300 ms
  window queues another callback, and `onClose` runs once per interaction.
- The four clears are issued in one fixed order: cart, checkout form, user
  form, address. The design calls them order-independent; the model keeps
  the code's order.

## Model

| member | source | states |
|---|---|---|
| Pricing.TotalPrice | shop/src/modules/checkout/components/SideBar.tsx:25-30 | the total equals the sum of price × quantity over all lines, plus 1299 unless the type is `'Pickup'` |
| Pricing.ReduceIsSum | shop/src/modules/checkout/components/SideBar.tsx:26-29 | the left fold from any seed equals the seed plus the right-to-left sum of line totals |
| Pricing.EmptyCartTotal | shop/src/modules/checkout/components/SideBar.tsx:28 | an empty cart totals exactly 0 for pickup and exactly 1299 for any other type |
| Pricing.SurchargeDifference | shop/src/modules/checkout/components/SideBar.tsx:26-29 | for the same lines, every non-pickup total exceeds the pickup total by exactly 1299, whatever the pickup selection |
| Pricing.WorkedExample | shop/src/modules/checkout/components/SideBar.tsx:25-30 | one line of 500 × 2 totals 2299 when delivered and 1000 when picked up |
| Gate.AnyDefined | shop/src/modules/checkout/components/SideBar.tsx:55 | the short-circuit scan is true exactly when some error value is not `undefined` |
| Gate.IsValid | shop/src/modules/checkout/components/SideBar.tsx:54-65 | the gate passes exactly when no error value is defined, a delivery order has a valid address, and a pickup order has a present, non-empty selection |
| Gate.UserErrorBlocks | shop/src/modules/checkout/components/SideBar.tsx:55-58 | any defined error value, `null` included, fails the gate whatever the type, address or pickup |
| Gate.GateWithoutUserErrors | shop/src/modules/checkout/components/SideBar.tsx:60-64 | with no errors: delivery passes iff the address is valid, pickup passes iff the selection is present and non-empty, any other type passes |
| Confirmation.Render | shop/src/modules/checkout/components/SideBar.tsx:67-78 | the buy button is disabled exactly when the gate's declarative condition fails; the displayed total is the line sum plus the fee rule; the dialog shows the sidebar's open flag |
| Confirmation.BuyAllOnlyOpensDialog | shop/src/modules/checkout/components/SideBar.tsx:39-41 | the buy handler opens the dialog, schedules nothing and issues no clear or navigation |
| Confirmation.OkClearsThenQueuesNavigation | shop/src/modules/checkout/components/SideBar.tsx:43-52 | confirming closes the dialog and issues cart, form, user-form and address clears once each in that order, with no navigation; navigation to `/qpick/catalog` is queued behind earlier callbacks |
| Confirmation.OkThenTimer | shop/src/modules/checkout/components/SideBar.tsx:43-52 | confirming and then running the timer gives the four clears followed by the navigation, leaving the dialog closed and nothing pending |
| Confirmation.StepClears | shop/src/modules/checkout/components/SideBar.tsx:39-52 | a single event issues each clear once if it is a confirmation and never otherwise |
| Confirmation.StepNavigation | shop/src/modules/checkout/components/SideBar.tsx:45-47 | a single event either queues one catalog navigation (confirmation) or moves one from the queue to the effects; none is lost or duplicated |
| Confirmation.RunClears | shop/src/modules/checkout/components/SideBar.tsx:43-52 | over any event sequence, each of the four clears is issued exactly as many times as the dialog was confirmed |
| Confirmation.RunNavigation | shop/src/modules/checkout/components/SideBar.tsx:43-52 | over any event sequence, navigations run plus navigations still pending equal those pending before plus the number of confirmations |
| Confirmation.NavigationFollowsClears | shop/src/modules/checkout/components/SideBar.tsx:43-52 | from the initial sidebar, in any run (so any prefix of one), navigation occurs no more often than any of the four clears |
| Modal.Render | shop/src/common/ui/modal.tsx:144-176 | nothing is rendered exactly when `isOpen` is false; the close button and swipe strip are present exactly when `closeIcon` is set; the z-index is the `zIndex \|\| 1` value and never 0 |
| Modal.ZIndexDefault | shop/src/common/ui/modal.tsx:152 | a defined non-zero z-index is used as is; an absent or zero one becomes 1 |
| Modal.CloseWithoutOnCloseIsInert | shop/src/common/ui/modal.tsx:111-120 | without `onClose`, a close request changes no state and queues no task |
| Modal.CloseWithOnCloseThenTimer | shop/src/common/ui/modal.tsx:111-120 | with `onClose`, a close request hides at once, changes nothing else and queues exactly one 300 ms task; from an empty queue that task calls `onClose` once, then sets overflow to `"auto"` |
| Modal.PropIsOpenEffect | shop/src/common/ui/modal.tsx:122-130 | `isOpen` becoming true locks scroll and shows; becoming false unlocks and hides without any close interaction; an unchanged `isOpen` does nothing |
| Modal.MountRunsEffect | shop/src/common/ui/modal.tsx:107-130 | at mount the content is visible exactly when open, the flag is `"hidden"` when open and `"auto"` otherwise, and nothing is queued |
| Modal.ClosedIgnoresDomEvents | shop/src/common/ui/modal.tsx:144-146 | while the modal renders nothing, pointer and touch events change nothing |
| Modal.ContentMouseDownNeverCloses | shop/src/common/ui/modal.tsx:155-156 | a mouse-down inside the content never closes or changes anything |
| Modal.OverlayMouseDownCloses | shop/src/common/ui/modal.tsx:149-150 | a mouse-down on the rendered overlay always performs `closModal` |
| Modal.AffordancesNeedCloseIcon | shop/src/common/ui/modal.tsx:160-176 | without `closeIcon`, button clicks and swipe touches change nothing |
| Modal.TouchStartRecords | shop/src/common/ui/modal.tsx:132-134 | a touch start on the strip records its position and changes nothing else |
| Modal.SwipeThreshold | shop/src/common/ui/modal.tsx:136-142 | a touch end closes iff it lies strictly more than 100 below the touch start; at 100 or less nothing changes |
| Modal.MountEstablishesInv | shop/src/common/ui/modal.tsx:107-130 | a freshly mounted modal shows its content only when open |
| Modal.StepPreservesInv | shop/src/common/ui/modal.tsx:111-142 | no event leaves the content visible while `isOpen` is false |
| Modal.RunPreservesInv | shop/src/common/ui/modal.tsx:111-142 | after any sequence of events the content is visible only while `isOpen` is true |
| Modal.StepOverflowIsLastWrite | shop/src/common/ui/modal.tsx:115-128 | after one event the scroll flag holds the last value that event wrote, or its old value |
| Modal.RunOverflowIsLastWrite | shop/src/common/ui/modal.tsx:115-128 | after any run the shared scroll flag holds the last value written in that run, or its old value: last writer wins |
| Modal.NoOnCloseStaysInert | shop/src/common/ui/modal.tsx:111-120 | a modal without `onClose` never calls it and never queues a task, whatever events arrive |
| Modal.DoubleCloseCallsOnCloseTwice | shop/src/common/ui/modal.tsx:111-120 | two overlay mouse-downs within 300 ms queue two close callbacks, so `onClose` is called twice, each call followed by a scroll unlock |
| Modal.StaleCloseUnlocksReopenedModal | shop/src/common/ui/modal.tsx:111-130 | close timers are not cancelled: closed, hidden and reopened within 300 ms, the modal is shown while the old callback unlocks scroll and calls `onClose` |

## Left out

- Styling: the CSS, media queries, transitions, opacity and transform values are cosmetic.
- Translations, the close icon asset, and the total display and confirmation dialog components are not part of this model. Their source is not available.
- Enforcing the disabled state is not modelled. The buy button itself lives in the total display component, so `BuyAll` is accepted in any state, as `handleBuyAll` does not re-check the gate.
- The store, its selectors and action dispatchers, and the router are inputs or effect tokens. What a clear does to the store, and what navigation does, is not modelled.
- React rendering, batching and re-render timing are not modelled. The effect is applied at the step of the prop change.
- Wall-clock time is not modelled: delays are recorded on tasks, and time advances only by `TimerFires`.
- JavaScript floating point is not modelled: prices, quantities and touch coordinates are integers, and a NaN z-index is not modelled.
- `isOpen` is a boolean: an `undefined` prop is read as `false`, and a change between the two is not a change here.
- The props other than `isOpen` are fixed for the modal's life. This includes whether `onClose` is supplied.
- Several modals sharing the scroll flag are not modelled. One modal owns the one flag.
