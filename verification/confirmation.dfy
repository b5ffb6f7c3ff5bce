/**
  The sidebar's own state and its confirmation flow: the buy button opens a
  confirmation dialog; confirming closes it, clears four store slices at once
  and defers navigation to the catalog by a zero-delay timer.
*/
module Confirmation {
  import opened Common
  import opened Store
  import Pricing
  import Gate

  /** Where the sidebar navigates after a completed purchase. */
  const CATALOG_PATH: string := "/qpick/catalog"

  /** Observable effects on the store and the router, in the order issued. */
  datatype Effect = ClearCart | ClearForm | ClearFormUser | ClearAddress | Navigate(path: string)

  /** The four clear actions `onOk` issues synchronously, in source order. */
  const CLEARS: seq<Effect> := [ClearCart, ClearForm, ClearFormUser, ClearAddress]

  /**
    The sidebar's state: whether the confirmation dialog is open, and the
    navigation callbacks scheduled but not yet run, as their target paths,
    oldest first.
  */
  datatype SideBar = SideBar(dialogOpen: bool, pending: seq<string>)

  /** Buy button click, confirmation accepted, and the next timer callback running. */
  datatype Event = BuyAll | Ok | TimerFires

  /** A new state together with the effects one step emitted. */
  datatype Outcome = Outcome(state: SideBar, trace: seq<Effect>)

  /** The sidebar as first rendered: dialog closed, nothing scheduled. */
  const Initial: SideBar := SideBar(false, [])

  /** What the sidebar renders: the total, the buy button's state and the dialog's. */
  datatype View = View(total: int, buyDisabled: bool, confirmOpen: bool)

  /** Rendering: the total display and `disabled={!isValid()}` wiring. */
  function Render(order: Order, userErrors: seq<FieldError>, addressValid: bool, s: SideBar): (v: View)
    ensures v.buyDisabled <==> !Gate.Purchasable(order, userErrors, addressValid)
    ensures v.total == Pricing.Subtotal(order.products) + (if order.kind == PICKUP then 0 else Pricing.DELIVERY_FEE)
    ensures v.confirmOpen == s.dialogOpen
  {
    View(Pricing.TotalPrice(order), !Gate.IsValid(order, userErrors, addressValid), s.dialogOpen)
  }

  /** `handleBuyAll`: only opens the dialog. */
  function HandleBuyAll(s: SideBar): Outcome
  {
    Outcome(s.(dialogOpen := true), [])
  }

  /** `onOk`: close the dialog, schedule navigation, then issue the four clears. */
  function OnOk(s: SideBar): Outcome
  {
    Outcome(SideBar(false, s.pending + [CATALOG_PATH]), CLEARS)
  }

  /** The oldest pending timer callback runs; with none pending nothing happens. */
  function FireTimer(s: SideBar): Outcome
  {
    if |s.pending| == 0 then Outcome(s, [])
    else Outcome(s.(pending := s.pending[1..]), [Navigate(s.pending[0])])
  }

  function Step(s: SideBar, e: Event): Outcome
  {
    match e
    case BuyAll => HandleBuyAll(s)
    case Ok => OnOk(s)
    case TimerFires => FireTimer(s)
  }

  /** Runs a sequence of events, concatenating the effects each step emits. */
  function Run(s: SideBar, events: seq<Event>): Outcome
    decreases |events|
  {
    if |events| == 0 then Outcome(s, [])
    else
      var o := Step(s, events[0]);
      var rest := Run(o.state, events[1..]);
      Outcome(rest.state, o.trace + rest.trace)
  }

  /** Opening the dialog changes nothing else and issues no clear and no navigation. */
  lemma BuyAllOnlyOpensDialog(s: SideBar)
    ensures Step(s, BuyAll).state.dialogOpen
    ensures Step(s, BuyAll).state.pending == s.pending
    ensures Step(s, BuyAll).trace == []
  {
  }

  /**
    Confirming closes the dialog and issues each clear exactly once, cart,
    form, user form, address in that order, and no navigation; navigation is
    queued behind every earlier callback.
  */
  lemma OkClearsThenQueuesNavigation(s: SideBar)
    ensures !Step(s, Ok).state.dialogOpen
    ensures Step(s, Ok).trace == [ClearCart, ClearForm, ClearFormUser, ClearAddress]
    ensures forall e :: e in CLEARS ==> Count(Step(s, Ok).trace, e) == 1
    ensures forall p :: Navigate(p) !in Step(s, Ok).trace
    ensures Step(s, Ok).state.pending == s.pending + [CATALOG_PATH]
  {
  }

  /** From a quiet sidebar, confirming and then letting the timer run gives clears, then navigation. */
  lemma OkThenTimer(s: SideBar)
    requires s.pending == []
    ensures Run(s, [Ok, TimerFires]).trace == CLEARS + [Navigate(CATALOG_PATH)]
    ensures Run(s, [Ok, TimerFires]).state == SideBar(false, [])
  {
  }

  /** One step issues each clear once for a confirmation and never otherwise. */
  lemma StepClears(s: SideBar, e: Event, c: Effect)
    requires c in CLEARS
    ensures Count(Step(s, e).trace, c) == (if e == Ok then 1 else 0)
  {
  }

  /** One step moves navigation callbacks from the queue to the effects, or schedules one. */
  lemma StepNavigation(s: SideBar, e: Event)
    ensures Count(Step(s, e).trace, Navigate(CATALOG_PATH)) + Count(Step(s, e).state.pending, CATALOG_PATH)
            == Count(s.pending, CATALOG_PATH) + (if e == Ok then 1 else 0)
  {
    match e
    case BuyAll =>
    case Ok =>
      CountAppend(s.pending, [CATALOG_PATH], CATALOG_PATH);
    case TimerFires =>
      if |s.pending| > 0 {
        assert s.pending == [s.pending[0]] + s.pending[1..];
        CountAppend([s.pending[0]], s.pending[1..], CATALOG_PATH);
      }
  }

  /** A run of a non-empty event sequence is its first step followed by the rest. */
  lemma RunCons(s: SideBar, events: seq<Event>)
    requires |events| > 0
    ensures Run(s, events).state == Run(Step(s, events[0]).state, events[1..]).state
    ensures Run(s, events).trace == Step(s, events[0]).trace + Run(Step(s, events[0]).state, events[1..]).trace
  {
  }

  /** Over any run, a clear is issued exactly once per confirmation. */
  lemma {:induction false} RunClears(s: SideBar, events: seq<Event>, c: Effect)
    requires c in CLEARS
    ensures Count(Run(s, events).trace, c) == Count(events, Ok)
    decreases |events|
  {
    if |events| > 0 {
      var o := Step(s, events[0]);
      var rest := Run(o.state, events[1..]);
      RunCons(s, events);
      assert events == [events[0]] + events[1..];
      CountAppend([events[0]], events[1..], Ok);
      RunClears(o.state, events[1..], c);
      CountAppend(o.trace, rest.trace, c);
      StepClears(s, events[0], c);
    }
  }

  /**
    Over any run, every navigation callback scheduled, before or during the
    run, has either run or is still pending.
  */
  lemma {:induction false} RunNavigation(s: SideBar, events: seq<Event>)
    ensures Count(Run(s, events).trace, Navigate(CATALOG_PATH)) + Count(Run(s, events).state.pending, CATALOG_PATH)
            == Count(s.pending, CATALOG_PATH) + Count(events, Ok)
    decreases |events|
  {
    if |events| > 0 {
      var o := Step(s, events[0]);
      var rest := Run(o.state, events[1..]);
      RunCons(s, events);
      assert events == [events[0]] + events[1..];
      CountAppend([events[0]], events[1..], Ok);
      RunNavigation(o.state, events[1..]);
      CountAppend(o.trace, rest.trace, Navigate(CATALOG_PATH));
      StepNavigation(s, events[0]);
    }
  }

  /**
    From the initial sidebar, in the effects of any run, and so of any prefix
    of it, navigation to the catalog occurs no more often than each clear:
    navigation only follows a confirmation whose clears were already issued.
  */
  lemma {:induction false} NavigationFollowsClears(events: seq<Event>)
    ensures forall c :: c in CLEARS ==>
      Count(Run(Initial, events).trace, Navigate(CATALOG_PATH)) <= Count(Run(Initial, events).trace, c)
  {
    RunNavigation(Initial, events);
    forall c | c in CLEARS
      ensures Count(Run(Initial, events).trace, Navigate(CATALOG_PATH)) <= Count(Run(Initial, events).trace, c)
    {
      RunClears(Initial, events, c);
    }
  }
}
