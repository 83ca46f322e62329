/** The map frame's time window: which span of the spans table the realtime
    window shows, whether the window follows the clock, and whether it
    follows the helicorder's insets; the requests each toolbar action and
    each tick of the update loop make of the map panel. */
module MapFrames {

  /** The spanIndex the frame starts with. */
  const InitialSpanIndex: int := 3

  /** A request made of the map panel, times in J2K seconds. */
  datatype PanelCall =
    | TimePush                              // save the current times on the history stack
    | TimePop                               // restore the last saved times
    | SetTimes(start: real, end: real)
    | ShiftTime(fraction: real)             // scroll by a fraction of the window
    | ScaleTime(fraction: real)             // grow or shrink the window by a fraction

  /** What happens to the frame. */
  datatype Action =
    | LinkToggled(selected: bool)           // the helicorder link button, with its new selection
    | InsetCreated(start: real, end: real)  // the helicorder created an inset
    | ScrollBack
    | ScrollForward
    | TimeHistory
    | ShrinkAxis
    | ExpandAxis
    | Tick(visible: bool, now: real)        // one pass of the update loop

  datatype FrameState = FrameState(spanIndex: int, realtime: bool, heliLinked: bool)

  /** The state after an action, and what it asked of the map panel. */
  datatype StepResult = StepResult(next: FrameState, calls: seq<PanelCall>)

  /** The invariant: spanIndex indexes the spans table. */
  predicate Valid(s: FrameState, spans: seq<int>) {
    0 <= s.spanIndex < |spans|
  }

  function Initial(): FrameState {
    FrameState(InitialSpanIndex, true, true)
  }

  /** The effect of one action. */
  function Step(s: FrameState, a: Action, spans: seq<int>): (r: StepResult)
    requires Valid(s, spans)
    ensures Valid(r.next, spans)
  {
    match a
    case LinkToggled(selected) =>
      StepResult(s.(heliLinked := selected, realtime := if !selected then true else s.realtime), [])
    case InsetCreated(st, et) =>
      if s.heliLinked then
        StepResult(s.(realtime := false), (if !s.realtime then [TimePush] else []) + [SetTimes(st, et)])
      else StepResult(s, [])
    case ScrollBack => StepResult(s.(realtime := false), [ShiftTime(-0.20)])
    case ScrollForward => StepResult(s.(realtime := false), [ShiftTime(0.20)])
    case TimeHistory => StepResult(s.(realtime := false), [TimePop])
    case ShrinkAxis =>
      if s.realtime then
        StepResult(s.(spanIndex := if s.spanIndex != 0 then s.spanIndex - 1 else s.spanIndex), [])
      else StepResult(s, [ScaleTime(0.20)])
    case ExpandAxis =>
      if s.realtime then
        StepResult(s.(spanIndex := if s.spanIndex < |spans| - 1 then s.spanIndex + 1 else s.spanIndex), [])
      else StepResult(s, [ScaleTime(-0.20)])
    case Tick(visible, now) =>
      if visible && s.realtime then StepResult(s, [SetTimes(now - spans[s.spanIndex] as real, now)])
      else StepResult(s, [])
  }

  /** The effect of a sequence of actions: the final state and every
      request, in order.  Every run keeps spanIndex inside the spans table. */
  function Run(s: FrameState, actions: seq<Action>, spans: seq<int>): (r: StepResult)
    requires Valid(s, spans)
    ensures Valid(r.next, spans)
    decreases |actions|
  {
    if actions == [] then StepResult(s, [])
    else
      var first := Step(s, actions[0], spans);
      var rest := Run(first.next, actions[1..], spans);
      StepResult(rest.next, first.calls + rest.calls)
  }

  /** The span axis buttons in realtime mode move spanIndex by one within the table, and leave the panel alone. */
  lemma AxisButtonsInRealtime(s: FrameState, spans: seq<int>)
    requires Valid(s, spans) && s.realtime
    ensures Step(s, ShrinkAxis, spans).next.spanIndex == if s.spanIndex == 0 then 0 else s.spanIndex - 1
    ensures Step(s, ExpandAxis, spans).next.spanIndex ==
              if s.spanIndex == |spans| - 1 then s.spanIndex else s.spanIndex + 1
    ensures Step(s, ShrinkAxis, spans).calls == [] && Step(s, ExpandAxis, spans).calls == []
  {
  }

  /** Outside realtime mode the axis buttons leave spanIndex alone and scale the panel's window instead. */
  lemma AxisButtonsOutsideRealtime(s: FrameState, spans: seq<int>)
    requires Valid(s, spans) && !s.realtime
    ensures Step(s, ShrinkAxis, spans) == StepResult(s, [ScaleTime(0.20)])
    ensures Step(s, ExpandAxis, spans) == StepResult(s, [ScaleTime(-0.20)])
  {
  }

  /** Unlinking returns the frame to realtime; linking keeps the mode. */
  lemma LinkToggle(s: FrameState, selected: bool, spans: seq<int>)
    requires Valid(s, spans)
    ensures Step(s, LinkToggled(selected), spans).next.heliLinked == selected
    ensures Step(s, LinkToggled(selected), spans).next.realtime == (!selected || s.realtime)
  {
  }

  /** Only unlinking turns realtime mode back on. */
  lemma RealtimeResumesOnlyOnUnlink(s: FrameState, a: Action, spans: seq<int>)
    requires Valid(s, spans) && !s.realtime
    requires Step(s, a, spans).next.realtime
    ensures a == LinkToggled(false)
  {
  }

  /** A linked inset leaves realtime mode and shows the inset's times,
      saving the previous times only when they were not realtime; an
      unlinked inset changes nothing. */
  lemma InsetWhenLinked(s: FrameState, st: real, et: real, spans: seq<int>)
    requires Valid(s, spans)
    ensures s.heliLinked ==> !Step(s, InsetCreated(st, et), spans).next.realtime
    ensures s.heliLinked ==>
              (Step(s, InsetCreated(st, et), spans).calls ==
                 if s.realtime then [SetTimes(st, et)] else [TimePush, SetTimes(st, et)])
    ensures !s.heliLinked ==> Step(s, InsetCreated(st, et), spans) == StepResult(s, [])
  {
  }

  /** A tick sets the window to the last spans[spanIndex] seconds before
      now exactly when the frame is visible and realtime. */
  lemma TickWindow(s: FrameState, visible: bool, now: real, spans: seq<int>)
    requires Valid(s, spans)
    ensures Step(s, Tick(visible, now), spans).next == s
    ensures visible && s.realtime <==> Step(s, Tick(visible, now), spans).calls != []
    ensures visible && s.realtime ==>
              var calls := Step(s, Tick(visible, now), spans).calls;
              |calls| == 1 && calls[0].SetTimes? && calls[0].end == now &&
              calls[0].end - calls[0].start == spans[s.spanIndex] as real
  {
  }

  /** Without the axis buttons, spanIndex never changes. */
  lemma {:induction false} SpanIndexOnlyMovedByAxisButtons(s: FrameState, actions: seq<Action>, spans: seq<int>)
    requires Valid(s, spans)
    requires forall i :: 0 <= i < |actions| ==> !actions[i].ShrinkAxis? && !actions[i].ExpandAxis?
    ensures Run(s, actions, spans).next.spanIndex == s.spanIndex
    decreases |actions|
  {
    if actions != [] {
      SpanIndexOnlyMovedByAxisButtons(Step(s, actions[0], spans).next, actions[1..], spans);
    }
  }

  /** Once out of realtime mode, and until the link is toggled off, the
      frame stays out of realtime mode; no tick then sets the panel's
      times, so only an inset can. */
  lemma {:induction false} HistoricWindowIsKept(s: FrameState, actions: seq<Action>, spans: seq<int>)
    requires Valid(s, spans) && !s.realtime
    requires forall i :: 0 <= i < |actions| ==> actions[i] != LinkToggled(false)
    ensures !Run(s, actions, spans).next.realtime
    ensures (forall i :: 0 <= i < |actions| ==> !actions[i].InsetCreated?) ==>
              forall c :: c in Run(s, actions, spans).calls ==> !c.SetTimes?
    decreases |actions|
  {
    if actions != [] {
      HistoricWindowIsKept(Step(s, actions[0], spans).next, actions[1..], spans);
    }
  }

  /** The frame: its three state fields and the requests it made of its map panel. */
  class MapFrame {
    /** The spans of the realtime window, in seconds. */
    const spans: seq<int>
    var spanIndex: int
    var realtime: bool
    var heliLinked: bool
    /** Every request made of the map panel, oldest first. */
    var panelCalls: seq<PanelCall>

    function State(): FrameState
      reads this
    {
      FrameState(spanIndex, realtime, heliLinked)
    }

    ghost predicate Invariant()
      reads this
    {
      Valid(State(), spans)
    }

    /** A new frame: span 3, realtime, linked.  The spans table must reach index 3. */
    constructor (spans: seq<int>)
      requires |spans| > InitialSpanIndex
      ensures this.spans == spans && Invariant()
      ensures State() == Initial() && panelCalls == []
    {
      this.spans := spans;
      spanIndex := InitialSpanIndex;
      realtime := true;
      heliLinked := true;
      panelCalls := [];
    }

    /** The link button's listener, given the button's new selection. */
    method OnLinkToggled(selected: bool)
      requires Invariant()
      modifies this
      ensures Invariant()
      ensures State() == Step(old(State()), LinkToggled(selected), spans).next
      ensures panelCalls == old(panelCalls) + Step(old(State()), LinkToggled(selected), spans).calls
    {
      heliLinked := selected;
      if heliLinked == false {
        realtime := true;
      }
    }

    /** The helicorder link listener's insetCreated. */
    method OnInsetCreated(st: real, et: real)
      requires Invariant()
      modifies this
      ensures Invariant()
      ensures State() == Step(old(State()), InsetCreated(st, et), spans).next
      ensures panelCalls == old(panelCalls) + Step(old(State()), InsetCreated(st, et), spans).calls
    {
      if heliLinked {
        if !realtime {
          panelCalls := panelCalls + [TimePush];
        }
        realtime := false;
        panelCalls := panelCalls + [SetTimes(st, et)];
      }
    }

    /** The scroll-back-time button. */
    method OnScrollBack()
      requires Invariant()
      modifies this
      ensures Invariant()
      ensures State() == Step(old(State()), ScrollBack, spans).next
      ensures panelCalls == old(panelCalls) + Step(old(State()), ScrollBack, spans).calls
    {
      realtime := false;
      panelCalls := panelCalls + [ShiftTime(-0.20)];
    }

    /** The scroll-forward-time button. */
    method OnScrollForward()
      requires Invariant()
      modifies this
      ensures Invariant()
      ensures State() == Step(old(State()), ScrollForward, spans).next
      ensures panelCalls == old(panelCalls) + Step(old(State()), ScrollForward, spans).calls
    {
      realtime := false;
      panelCalls := panelCalls + [ShiftTime(0.20)];
    }

    /** The last-time-settings button. */
    method OnTimeHistory()
      requires Invariant()
      modifies this
      ensures Invariant()
      ensures State() == Step(old(State()), TimeHistory, spans).next
      ensures panelCalls == old(panelCalls) + Step(old(State()), TimeHistory, spans).calls
    {
      realtime := false;
      panelCalls := panelCalls + [TimePop];
    }

    /** The shrink-time-axis button. */
    method OnShrinkAxis()
      requires Invariant()
      modifies this
      ensures Invariant()
      ensures State() == Step(old(State()), ShrinkAxis, spans).next
      ensures panelCalls == old(panelCalls) + Step(old(State()), ShrinkAxis, spans).calls
    {
      if realtime {
        if spanIndex != 0 {
          spanIndex := spanIndex - 1;
        }
      } else {
        panelCalls := panelCalls + [ScaleTime(0.20)];
      }
    }

    /** The expand-time-axis button. */
    method OnExpandAxis()
      requires Invariant()
      modifies this
      ensures Invariant()
      ensures State() == Step(old(State()), ExpandAxis, spans).next
      ensures panelCalls == old(panelCalls) + Step(old(State()), ExpandAxis, spans).calls
    {
      if realtime {
        if spanIndex < |spans| - 1 {
          spanIndex := spanIndex + 1;
        }
      } else {
        panelCalls := panelCalls + [ScaleTime(-0.20)];
      }
    }

    /** One pass of the update loop, given whether the frame is visible and the time now. */
    method Tick(visible: bool, now: real)
      requires Invariant()
      modifies this
      ensures Invariant()
      ensures State() == Step(old(State()), Action.Tick(visible, now), spans).next
      ensures panelCalls == old(panelCalls) + Step(old(State()), Action.Tick(visible, now), spans).calls
    {
      if visible && realtime {
        var end := now;
        var start := end - spans[spanIndex] as real;
        panelCalls := panelCalls + [SetTimes(start, end)];
      }
    }
  }
}
