/**
  The modal dialog as an event-driven state machine. The host document's
  scroll flag is part of the state; deferred work is a FIFO queue of timer
  callbacks run one at a time by `TimerFires`.
*/
module Modal {
  import opened Common

  /** Delay, in milliseconds, between a close interaction and `onClose`. */
  const CLOSE_DELAY: nat := 300

  /** A downward swipe must move strictly more than this many pixels to close. */
  const SWIPE_THRESHOLD: int := 100

  /** Values of `document.body.style.overflow`: the two the modal writes, or whatever was there before. */
  datatype Overflow = Hidden | Auto | Other(css: string)

  /**
    The props that stay fixed while the modal lives: whether an `onClose`
    callback was supplied, whether the close affordances are shown, and the
    optional z-index.
  */
  datatype Props = Props(hasOnClose: bool, closeIcon: bool, zIndex: Option<int>)

  /** A scheduled timer callback: the one `closModal` queues. */
  datatype Task = CloseTask(delay: nat)

  /** Observable effects: the parent's `onClose` being called, and writes to the scroll flag. */
  datatype Effect = CallOnClose | SetOverflow(value: Overflow)

  /**
    The `isOpen` prop, the `isVisible` and `touchStart` state, the document's
    scroll flag and the timer callbacks not yet run, oldest first.
  */
  datatype State = State(isOpen: bool, isVisible: bool, touchStart: int, overflow: Overflow, pending: seq<Task>)

  /** Abstract DOM events, prop changes and timer callbacks. */
  datatype Event =
    | MouseDownOverlay
    | MouseDownContent
    | CloseButtonClick
    | TouchStart(y: int)
    | TouchEnd(y: int)
    | PropIsOpen(open: bool)
    | TimerFires

  /** A new state together with the effects one step emitted. */
  datatype Outcome = Outcome(state: State, trace: seq<Effect>)

  /** What a rendered modal shows. */
  datatype View = View(zIndex: int, visible: bool, closeButton: bool, swipeStrip: bool)

  /** The body of the effect keyed on `isOpen`: lock and show, or unlock and hide. */
  function OpenEffect(s: State): Outcome
  {
    if s.isOpen then Outcome(s.(overflow := Hidden, isVisible := true), [SetOverflow(Hidden)])
    else Outcome(s.(overflow := Auto, isVisible := false), [SetOverflow(Auto)])
  }

  /** Mounting: initial state, then the `isOpen` effect runs once. */
  function Mount(isOpen: bool, documentOverflow: Overflow): Outcome
  {
    OpenEffect(State(isOpen, false, 0, documentOverflow, []))
  }

  /** `closModal`: without `onClose` it does nothing; with it, hide now and schedule the close. */
  function CloseModal(props: Props, s: State): State
  {
    if props.hasOnClose then s.(isVisible := false, pending := s.pending + [CloseTask(CLOSE_DELAY)])
    else s
  }

  /** `zIndex || 1`: an absent or zero z-index falls back to 1. */
  function EffectiveZIndex(zIndex: Option<int>): int
  {
    match zIndex
    case None => 1
    case Some(z) => if z == 0 then 1 else z
  }

  /** The render: nothing when closed; otherwise the overlay, with the affordances only for `closeIcon`. */
  function Render(props: Props, s: State): (v: Option<View>)
    ensures v.None? <==> !s.isOpen
    ensures v.Some? ==> v.value.visible == s.isVisible
    ensures v.Some? ==> (v.value.closeButton <==> props.closeIcon) && (v.value.swipeStrip <==> props.closeIcon)
    ensures v.Some? ==> v.value.zIndex == EffectiveZIndex(props.zIndex) && v.value.zIndex != 0
  {
    if !s.isOpen then None
    else Some(View(EffectiveZIndex(props.zIndex), s.isVisible, props.closeIcon, props.closeIcon))
  }

  /** Handlers of the rendered tree; only called while the modal is rendered. */
  function Handle(props: Props, s: State, e: Event): State
  {
    match e
    case MouseDownOverlay => CloseModal(props, s)
    case MouseDownContent => s
    case CloseButtonClick => if props.closeIcon then CloseModal(props, s) else s
    case TouchStart(y) => if props.closeIcon then s.(touchStart := y) else s
    case TouchEnd(y) =>
      if props.closeIcon && y - s.touchStart > SWIPE_THRESHOLD then CloseModal(props, s) else s
    case PropIsOpen(_) => s
    case TimerFires => s
  }

  /**
    One step. A prop change reruns the effect only when the value changes; a
    timer callback calls `onClose`, then unlocks scroll; DOM events reach the
    handlers only while something is rendered.
  */
  function Step(props: Props, s: State, e: Event): Outcome
  {
    match e
    case PropIsOpen(b) => if b == s.isOpen then Outcome(s, []) else OpenEffect(s.(isOpen := b))
    case TimerFires =>
      if |s.pending| == 0 then Outcome(s, [])
      else Outcome(s.(overflow := Auto, pending := s.pending[1..]), [CallOnClose, SetOverflow(Auto)])
    case _ => if !s.isOpen then Outcome(s, []) else Outcome(Handle(props, s, e), [])
  }

  /** Runs a sequence of events, concatenating the effects each step emits. */
  function Run(props: Props, s: State, events: seq<Event>): Outcome
    decreases |events|
  {
    if |events| == 0 then Outcome(s, [])
    else
      var o := Step(props, s, events[0]);
      var rest := Run(props, o.state, events[1..]);
      Outcome(rest.state, o.trace + rest.trace)
  }

  // ---------------------------------------------------------------------------
  // closModal

  /** Without `onClose`, a close request changes no state and schedules nothing. */
  lemma CloseWithoutOnCloseIsInert(props: Props, s: State)
    requires !props.hasOnClose
    ensures CloseModal(props, s) == s
  {
  }

  /**
    With `onClose`, a close request hides at once and schedules exactly one
    callback 300 ms out; run from an empty queue, that callback calls
    `onClose` once and then unlocks scroll, leaving the queue empty.
  */
  lemma CloseWithOnCloseThenTimer(props: Props, s: State)
    requires props.hasOnClose
    ensures !CloseModal(props, s).isVisible
    ensures CloseModal(props, s).pending == s.pending + [CloseTask(CLOSE_DELAY)]
    ensures CloseModal(props, s).(isVisible := s.isVisible, pending := s.pending) == s
    ensures s.pending == [] ==>
      Step(props, CloseModal(props, s), TimerFires) ==
        Outcome(CloseModal(props, s).(overflow := Auto, pending := []), [CallOnClose, SetOverflow(Auto)])
  {
  }

  // ---------------------------------------------------------------------------
  // the isOpen effect and the render

  /**
    Opening locks scroll and shows the content; closing unlocks and hides,
    with or without any close interaction; an unchanged prop does nothing.
  */
  lemma PropIsOpenEffect(props: Props, s: State, b: bool)
    ensures b && !s.isOpen ==>
      var o := Step(props, s, PropIsOpen(b));
      o.state.overflow == Hidden && o.state.isVisible && o.trace == [SetOverflow(Hidden)]
    ensures !b && s.isOpen ==>
      var o := Step(props, s, PropIsOpen(b));
      o.state.overflow == Auto && !o.state.isVisible && o.trace == [SetOverflow(Auto)]
    ensures b != s.isOpen ==>
      var o := Step(props, s, PropIsOpen(b));
      o.state.isOpen == b && o.state.touchStart == s.touchStart && o.state.pending == s.pending
    ensures b == s.isOpen ==> Step(props, s, PropIsOpen(b)) == Outcome(s, [])
  {
  }

  /** The effect also runs on mount, so a modal mounted closed still writes `"auto"`. */
  lemma MountRunsEffect(isOpen: bool, documentOverflow: Overflow)
    ensures Mount(isOpen, documentOverflow).state.isVisible == isOpen
    ensures Mount(isOpen, documentOverflow).state.overflow == if isOpen then Hidden else Auto
    ensures Mount(isOpen, documentOverflow).state.pending == []
  {
  }

  /** While closed nothing is rendered, so DOM events have no effect. */
  lemma ClosedIgnoresDomEvents(props: Props, s: State, e: Event)
    requires !s.isOpen && !e.PropIsOpen? && !e.TimerFires?
    ensures Step(props, s, e) == Outcome(s, [])
  {
  }

  /** `zIndex || 1`: a non-zero z-index is kept; absent or zero gives 1. */
  lemma ZIndexDefault(z: Option<int>)
    ensures z.Some? && z.value != 0 ==> EffectiveZIndex(z) == z.value
    ensures z.None? || z.value == 0 ==> EffectiveZIndex(z) == 1
  {
  }

  // ---------------------------------------------------------------------------
  // pointer and touch handlers

  /** A mouse-down inside the content is stopped there and never closes. */
  lemma ContentMouseDownNeverCloses(props: Props, s: State)
    ensures Step(props, s, MouseDownContent) == Outcome(s, [])
  {
  }

  /** A mouse-down on the rendered overlay always requests a close. */
  lemma OverlayMouseDownCloses(props: Props, s: State)
    requires s.isOpen
    ensures Step(props, s, MouseDownOverlay) == Outcome(CloseModal(props, s), [])
  {
  }

  /** The close button and swipe strip respond only when `closeIcon` is set. */
  lemma AffordancesNeedCloseIcon(props: Props, s: State, y: int)
    requires !props.closeIcon
    ensures Step(props, s, CloseButtonClick) == Outcome(s, [])
    ensures Step(props, s, TouchStart(y)) == Outcome(s, [])
    ensures Step(props, s, TouchEnd(y)) == Outcome(s, [])
  {
  }

  /** A touch start on the strip only records its vertical position. */
  lemma TouchStartRecords(props: Props, s: State, y: int)
    requires s.isOpen && props.closeIcon
    ensures Step(props, s, TouchStart(y)) == Outcome(s.(touchStart := y), [])
  {
  }

  /**
    A touch end on the strip requests a close exactly when it is more than
    100 pixels below the touch start; otherwise nothing changes.
  */
  lemma SwipeThreshold(props: Props, s: State, y: int)
    requires s.isOpen && props.closeIcon && props.hasOnClose
    ensures Step(props, s, TouchEnd(y)).state.pending == s.pending + [CloseTask(CLOSE_DELAY)]
            <==> y - s.touchStart > 100
    ensures y - s.touchStart <= 100 ==> Step(props, s, TouchEnd(y)) == Outcome(s, [])
    ensures y - s.touchStart > 100 ==> Step(props, s, TouchEnd(y)) == Outcome(CloseModal(props, s), [])
  {
  }

  // ---------------------------------------------------------------------------
  // properties of whole runs

  /** Content is only ever visible while the modal is requested open. */
  ghost predicate Inv(s: State)
  {
    s.isVisible ==> s.isOpen
  }

  lemma MountEstablishesInv(isOpen: bool, documentOverflow: Overflow)
    ensures Inv(Mount(isOpen, documentOverflow).state)
  {
  }

  lemma StepPreservesInv(props: Props, s: State, e: Event)
    requires Inv(s)
    ensures Inv(Step(props, s, e).state)
  {
  }

  /** Every state reachable from an invariant state keeps the invariant. */
  lemma {:induction false} RunPreservesInv(props: Props, s: State, events: seq<Event>)
    requires Inv(s)
    ensures Inv(Run(props, s, events).state)
    decreases |events|
  {
    if |events| > 0 {
      StepPreservesInv(props, s, events[0]);
      RunPreservesInv(props, Step(props, s, events[0]).state, events[1..]);
    }
  }

  /** The scroll flag after applying, in order, the writes among `trace`. */
  function AfterWrites(trace: seq<Effect>, current: Overflow): Overflow
  {
    if |trace| == 0 then current
    else AfterWrites(trace[1..], if trace[0].SetOverflow? then trace[0].value else current)
  }

  lemma {:induction false} AfterWritesAppend(a: seq<Effect>, b: seq<Effect>, current: Overflow)
    ensures AfterWrites(a + b, current) == AfterWrites(b, AfterWrites(a, current))
  {
    if |a| == 0 {
      assert a + b == b;
    } else {
      assert (a + b)[1..] == a[1..] + b;
      AfterWritesAppend(a[1..], b, if a[0].SetOverflow? then a[0].value else current);
    }
  }

  lemma StepOverflowIsLastWrite(props: Props, s: State, e: Event)
    ensures Step(props, s, e).state.overflow == AfterWrites(Step(props, s, e).trace, s.overflow)
  {
    var o := Step(props, s, e);
    if e.TimerFires? && |s.pending| > 0 {
      var t := [CallOnClose, SetOverflow(Auto)];
      assert o.trace == t;
      assert t[1..] == [SetOverflow(Auto)] && t[1..][1..] == [];
      assert AfterWrites(t[1..], s.overflow) == Auto;
    } else if |o.trace| == 1 {
      assert o.trace[1..] == [];
    }
  }

  /**
    The shared scroll flag is last-writer-wins: after any run it holds the
    last value written in the run's effects, or its old value if none was.
  */
  lemma {:induction false} RunOverflowIsLastWrite(props: Props, s: State, events: seq<Event>)
    ensures Run(props, s, events).state.overflow == AfterWrites(Run(props, s, events).trace, s.overflow)
    decreases |events|
  {
    if |events| > 0 {
      var o := Step(props, s, events[0]);
      StepOverflowIsLastWrite(props, s, events[0]);
      RunOverflowIsLastWrite(props, o.state, events[1..]);
      AfterWritesAppend(o.trace, Run(props, o.state, events[1..]).trace, s.overflow);
    }
  }

  /**
    A modal without `onClose` never calls it and never schedules anything,
    whatever the user does.
  */
  lemma {:induction false} NoOnCloseStaysInert(props: Props, s: State, events: seq<Event>)
    requires !props.hasOnClose && s.pending == []
    ensures CallOnClose !in Run(props, s, events).trace
    ensures Run(props, s, events).state.pending == []
    decreases |events|
  {
    if |events| > 0 {
      var o := Step(props, s, events[0]);
      assert CallOnClose !in o.trace && o.state.pending == [];
      NoOnCloseStaysInert(props, o.state, events[1..]);
      assert Run(props, s, events).trace == o.trace + Run(props, o.state, events[1..]).trace;
    }
  }

  /**
    A close request does not check for one already pending: two overlay
    mouse-downs within 300 ms queue two callbacks, and `onClose` runs twice.
  */
  lemma DoubleCloseCallsOnCloseTwice(props: Props, doc: Overflow)
    requires props.hasOnClose
    ensures
      var o := Run(props, Mount(true, doc).state,
                   [MouseDownOverlay, MouseDownOverlay, TimerFires, TimerFires]);
      o.trace == [CallOnClose, SetOverflow(Auto), CallOnClose, SetOverflow(Auto)]
      && Count(o.trace, CallOnClose) == 2
  {
    var t := [CallOnClose, SetOverflow(Auto)];
    assert t[1..] == [SetOverflow(Auto)] && t[1..][1..] == [];
    assert Count(t, CallOnClose) == 1;
    CountAppend(t, t, CallOnClose);
    assert t + t == [CallOnClose, SetOverflow(Auto), CallOnClose, SetOverflow(Auto)];
  }

  /**
    The close callback is never cancelled: closed by the overlay, unmounted
    and reopened by the parent before 300 ms pass, the modal is shown again
    while the old callback then unlocks the page's scroll.
  */
  lemma StaleCloseUnlocksReopenedModal(props: Props, doc: Overflow)
    requires props.hasOnClose
    ensures
      var o := Run(props, Mount(true, doc).state,
                   [MouseDownOverlay, PropIsOpen(false), PropIsOpen(true), TimerFires]);
      o.state.isOpen && o.state.isVisible && o.state.overflow == Auto && CallOnClose in o.trace
  {
  }
}
