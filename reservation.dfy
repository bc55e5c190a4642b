/**
 * The reservation state machine of the gift widget as values: the state the
 * element keeps (the pending flag, the checkbox's checked and disabled
 * attributes, the polling intervals) together with the requests it has in
 * flight, and one transition per event. Server responses arrive as events of
 * their own, one at a time.
 */
module Reservation {
  import opened Wrappers

  datatype Status = Bought | Unbought

  /** The one place a status string is checked: only "bought" and "unbought" exist. */
  function ParseStatus(s: string): (r: Option<Status>)
    ensures r == Some(Bought) <==> s == "bought"
    ensures r == Some(Unbought) <==> s == "unbought"
    ensures r.None? <==> s != "bought" && s != "unbought"
  {
    if s == "bought" then Some(Bought)
    else if s == "unbought" then Some(Unbought)
    else None
  }

  datatype State = State(
    mounted: bool,          // connectedCallback has run: the button and checkbox exist
    pending: bool,          // the element's `pending` field
    checked: bool,          // the checkbox has the `checked` attribute
    disabled: bool,         // the checkbox has the `disabled` attribute
    armed: nat,             // intervals set by pollStatus and never cleared
    handleLive: bool,       // the element's `interval` field names one of them
    readsInFlight: nat,     // GET requests with no response yet
    togglesInFlight: nat)   // POST .../toggle requests with no response yet

  /** A freshly constructed element: `pending` starts true, `interval` null. */
  const Initial := State(false, true, false, false, 0, false, 0, 0)

  /**
   * What every reachable state satisfies: the handle only ever names an armed
   * interval, and once mounted the checkbox is disabled exactly while pending.
   */
  predicate Inv(st: State)
  {
    (st.handleLive ==> st.armed > 0) &&
    (st.mounted ==> st.disabled == st.pending) &&
    (!st.mounted ==> st == Initial)
  }

  datatype Event =
    | Mount                     // connectedCallback
    | StatusOk(status: string)  // an ok response to a status read, with its status
    | StatusFail                // a non-ok response to a status read
    | Click                     // a click on the reserved-label button
    | ToggleOk(status: string)  // an ok response to a toggle, with its status
    | ToggleFail                // a non-ok response to a toggle
    | Tick                      // one armed interval fires

  /** When an event can happen at all: a response needs its request, a tick an armed interval. */
  predicate Enabled(st: State, e: Event)
  {
    match e
    case Mount => !st.mounted
    case Click => st.mounted
    case StatusOk(_) => st.readsInFlight > 0
    case StatusFail => st.readsInFlight > 0
    case ToggleOk(_) => st.togglesInFlight > 0
    case ToggleFail => st.togglesInFlight > 0
    case Tick => st.armed > 0
  }

  datatype Error = InvalidCheckboxState | ResponseNotOk

  /** Whether handling the event ran to the end or threw. */
  datatype Outcome = Done | Threw(error: Error)

  datatype Transition = Transition(next: State, outcome: Outcome)

  /** `updateCheckbox(state)`. */
  function UpdateCheckbox(st: State, state: string): (t: Transition)
    // an unknown status throws before anything is touched
    ensures ParseStatus(state).None? ==> t == Transition(st, Threw(InvalidCheckboxState))
    // a known one settles the control: checked iff bought, enabled, not pending
    ensures ParseStatus(state).Some? ==>
              t.outcome == Done &&
              t.next == st.(checked := state == "bought", disabled := false, pending := false)
  {
    match ParseStatus(state)
    case None => Transition(st, Threw(InvalidCheckboxState))
    case Some(s) => Transition(st.(checked := s == Bought, disabled := false, pending := false), Done)
  }

  /** `pollStatus`: a new interval, and the handle is overwritten to name it. */
  function PollStatus(st: State): (r: State)
    ensures r.armed == st.armed + 1 && r.handleLive
    ensures r.(armed := st.armed, handleLive := st.handleLive) == st
  {
    st.(armed := st.armed + 1, handleLive := true)
  }

  /** The effect of one event. */
  function Step(st: State, e: Event): (t: Transition)
    requires Inv(st) && Enabled(st, e)
    ensures Inv(t.next)
  {
    match e
    case Mount =>
      // a fresh, disabled checkbox; `pending` keeps its initial true; one status read
      Transition(st.(mounted := true, checked := false, disabled := true,
                     readsInFlight := st.readsInFlight + 1), Done)
    case StatusOk(s) =>
      UpdateCheckbox(st.(readsInFlight := st.readsInFlight - 1), s)
    case StatusFail =>
      Transition(st.(readsInFlight := st.readsInFlight - 1), Threw(ResponseNotOk))
    case Click =>
      // no test of `pending`; clearInterval clears only the interval the handle names
      var cleared := if st.handleLive then st.armed - 1 else st.armed;
      Transition(st.(disabled := true, pending := true, armed := cleared, handleLive := false,
                     togglesInFlight := st.togglesInFlight + 1), Done)
    case ToggleOk(s) =>
      var t := UpdateCheckbox(st.(togglesInFlight := st.togglesInFlight - 1), s);
      if t.outcome == Done then Transition(PollStatus(t.next), Done) else t
    case ToggleFail =>
      Transition(st.(togglesInFlight := st.togglesInFlight - 1), Done)
    case Tick =>
      if !st.pending then Transition(st.(readsInFlight := st.readsInFlight + 1), Done)
      else Transition(st, Done)
  }

  /** A sequence of events each of which can happen when it comes. */
  predicate Admissible(st: State, evs: seq<Event>)
    requires Inv(st)
    decreases |evs|
  {
    |evs| == 0 || (Enabled(st, evs[0]) && Admissible(Step(st, evs[0]).next, evs[1..]))
  }

  /** The state after a sequence of events. */
  function Run(st: State, evs: seq<Event>): (r: State)
    requires Inv(st) && Admissible(st, evs)
    ensures Inv(r)
    decreases |evs|
  {
    if |evs| == 0 then st else Run(Step(st, evs[0]).next, evs[1..])
  }

  /** The status an event brings from the server, if it brings a valid one. */
  function Confirmed(e: Event): Option<Status>
  {
    match e
    case StatusOk(s) => ParseStatus(s)
    case ToggleOk(s) => ParseStatus(s)
    case _ => None
  }

  /** The last valid status the server sent in `evs`. */
  function LastConfirmed(evs: seq<Event>): Option<Status>
    decreases |evs|
  {
    if |evs| == 0 then None
    else
      var later := LastConfirmed(evs[1..]);
      if later.Some? then later else Confirmed(evs[0])
  }

  /** Intervals that are armed but that no handle names: nothing can clear them. */
  function Orphans(st: State): nat
    requires Inv(st)
  {
    if st.handleLive then st.armed - 1 else st.armed
  }

  // ----- single events -----

  /** Calling updateCheckbox twice with the same status is the same as calling it once. */
  lemma UpdateCheckboxIdempotent(st: State, state: string)
    ensures var once := UpdateCheckbox(st, state).next;
            UpdateCheckbox(once, state).next == once
  {
  }

  /**
   * Mounting leaves the element pending with a disabled checkbox and arms no
   * interval; a failed status read afterwards throws and changes none of that.
   */
  lemma MountArmsNothing()
    ensures Enabled(Initial, Mount)
    ensures var m := Step(Initial, Mount).next;
            m.pending && m.disabled && !m.checked && m.armed == 0 && !m.handleLive &&
            m.readsInFlight == 1 &&
            Step(m, StatusFail) == Transition(m.(readsInFlight := 0), Threw(ResponseNotOk))
  {
  }

  /**
   * A click disables the control and sets pending whatever the state was, even
   * when pending already, and sends one more toggle.
   */
  lemma ClickIgnoresPending(st: State)
    requires Inv(st) && st.mounted
    ensures var n := Step(st, Click).next;
            n.pending && n.disabled && !n.handleLive && n.checked == st.checked &&
            n.togglesInFlight == st.togglesInFlight + 1 &&
            n.armed == st.armed - (if st.handleLive then 1 else 0) &&
            n.mounted && n.readsInFlight == st.readsInFlight
  {
  }

  /**
   * An ok toggle response with a valid status adopts that status whatever was
   * shown, settles the control and arms one interval more than were armed.
   */
  lemma ToggleOkAdoptsServerStatus(st: State, s: string)
    requires Inv(st) && st.togglesInFlight > 0 && ParseStatus(s).Some?
    ensures var n := Step(st, ToggleOk(s)).next;
            (n.checked <==> s == "bought") && !n.pending && !n.disabled &&
            n.armed == st.armed + 1 && n.handleLive &&
            Orphans(n) == Orphans(st) + (if st.handleLive then 1 else 0)
  {
  }

  /**
   * A click answered by a non-ok toggle leaves the control disabled and
   * pending, with no handle; the intervals still armed are exactly the
   * orphans there were before (none, unless toggles overlapped earlier).
   */
  lemma FailedToggleStrandsControl(st: State)
    requires Inv(st) && st.mounted
    ensures Admissible(st, [Click, ToggleFail])
    ensures var r := Run(st, [Click, ToggleFail]);
            r.pending && r.disabled && !r.handleLive && r.armed == Orphans(st) &&
            r.checked == st.checked && r.togglesInFlight == st.togglesInFlight
  {
    var evs := [Click, ToggleFail];
    var t1 := Step(st, Click).next;
    assert t1.pending && t1.disabled && !t1.handleLive && t1.armed == Orphans(st);
    assert t1.togglesInFlight == st.togglesInFlight + 1 && t1.checked == st.checked;
    var t2 := Step(t1, ToggleFail).next;
    assert t2 == t1.(togglesInFlight := st.togglesInFlight);
    assert evs[1..] == [ToggleFail];
    assert Admissible(t1, [ToggleFail]) && Run(t1, [ToggleFail]) == t2;
    assert Run(st, evs) == Run(t1, evs[1..]);
  }

  /** A tick samples the server only when not pending, and never touches the control. */
  lemma TickSamplesOnlyWhenIdle(st: State)
    requires Inv(st) && st.armed > 0
    ensures var n := Step(st, Tick).next;
            n.readsInFlight == st.readsInFlight + (if st.pending then 0 else 1) &&
            n == st.(readsInFlight := n.readsInFlight)
  {
  }

  // ----- sequences of events -----

  lemma StepChecked(st: State, e: Event)
    requires Inv(st) && Enabled(st, e)
    ensures Step(st, e).next.checked == match Confirmed(e)
                                        case None => st.checked
                                        case Some(b) => b == Bought
  {
  }

  /**
   * The checkbox is never set optimistically: after any admissible sequence it
   * shows the last status the server confirmed, or what it showed before if
   * the server confirmed none.
   */
  lemma {:induction false} CheckedIsLastConfirmed(st: State, evs: seq<Event>)
    requires Inv(st) && Admissible(st, evs)
    ensures Run(st, evs).checked == match LastConfirmed(evs)
                                    case None => st.checked
                                    case Some(b) => b == Bought
    decreases |evs|
  {
    if |evs| > 0 {
      var next := Step(st, evs[0]).next;
      StepChecked(st, evs[0]);
      CheckedIsLastConfirmed(next, evs[1..]);
    }
  }

  /** From a freshly constructed element: checked exactly when the last confirmed status is "bought". */
  lemma CheckedIffLastBought(evs: seq<Event>)
    requires Admissible(Initial, evs)
    ensures Run(Initial, evs).checked <==> LastConfirmed(evs) == Some(Bought)
  {
    CheckedIsLastConfirmed(Initial, evs);
  }

  /** The number of responses to status reads in `evs`. */
  function Answered(evs: seq<Event>): nat
    decreases |evs|
  {
    if |evs| == 0 then 0
    else (if evs[0].StatusOk? || evs[0].StatusFail? then 1 else 0) + Answered(evs[1..])
  }

  /**
   * Once pending, only a valid status from the server clears it: through any
   * run of clicks, ticks and failed or invalid responses the control stays
   * disabled, and no read is sent at all: the reads in flight drop by exactly
   * the reads answered.
   */
  lemma {:induction false} PendingHoldsUntilConfirmed(st: State, evs: seq<Event>)
    requires Inv(st) && st.mounted && st.pending && Admissible(st, evs)
    requires forall i :: 0 <= i < |evs| ==> Confirmed(evs[i]).None?
    ensures var r := Run(st, evs);
            r.pending && r.disabled && r.readsInFlight + Answered(evs) == st.readsInFlight
    decreases |evs|
  {
    if |evs| > 0 {
      assert Confirmed(evs[0]).None?;
      var next := Step(st, evs[0]).next;
      assert next.pending && next.mounted;
      assert next.readsInFlight + (if evs[0].StatusOk? || evs[0].StatusFail? then 1 else 0)
             == st.readsInFlight;
      forall i | 0 <= i < |evs[1..]| ensures Confirmed(evs[1..][i]).None? {
        assert evs[1..][i] == evs[i + 1];
      }
      PendingHoldsUntilConfirmed(next, evs[1..]);
    }
  }

  lemma StepKeepsOrphans(st: State, e: Event)
    requires Inv(st) && Enabled(st, e)
    ensures Orphans(Step(st, e).next) >= Orphans(st)
  {
  }

  /** An interval whose handle has been overwritten stays armed for good. */
  lemma {:induction false} OrphansNeverCleared(st: State, evs: seq<Event>)
    requires Inv(st) && Admissible(st, evs)
    ensures Orphans(Run(st, evs)) >= Orphans(st)
    decreases |evs|
  {
    if |evs| > 0 {
      var next := Step(st, evs[0]).next;
      StepKeepsOrphans(st, evs[0]);
      OrphansNeverCleared(next, evs[1..]);
    }
  }

  /**
   * Two clicks whose toggles both succeed leave two intervals armed; the next
   * click clears only one of them, and the other can never be cleared.
   */
  lemma OverlappingTogglesOrphanAnInterval(st: State, s1: string, s2: string)
    requires Inv(st) && st.mounted
    requires ParseStatus(s1).Some? && ParseStatus(s2).Some?
    ensures Admissible(st, [Click, Click, ToggleOk(s1), ToggleOk(s2), Click])
    ensures var r := Run(st, [Click, Click, ToggleOk(s1), ToggleOk(s2), Click]);
            !r.handleLive && r.armed == Orphans(st) + 1 && Orphans(r) == Orphans(st) + 1 &&
            r.pending && r.togglesInFlight == st.togglesInFlight + 1
  {
    var evs := [Click, Click, ToggleOk(s1), ToggleOk(s2), Click];
    var s0 := st;
    var t1 := Step(s0, Click).next;
    var t2 := Step(t1, Click).next;
    var t3 := Step(t2, ToggleOk(s1)).next;
    var t4 := Step(t3, ToggleOk(s2)).next;
    var t5 := Step(t4, Click).next;
    assert t2.armed == Orphans(st) && !t2.handleLive;
    assert t4.armed == Orphans(st) + 2 && t4.handleLive;
    assert evs[1..] == [Click, ToggleOk(s1), ToggleOk(s2), Click];
    assert evs[1..][1..] == [ToggleOk(s1), ToggleOk(s2), Click];
    assert evs[1..][1..][1..] == [ToggleOk(s2), Click];
    assert evs[1..][1..][1..][1..] == [Click];
    assert Admissible(t4, [Click]) && Run(t4, [Click]) == t5;
    assert Admissible(t3, [ToggleOk(s2), Click]) && Run(t3, [ToggleOk(s2), Click]) == t5;
    assert Run(t2, evs[1..][1..]) == t5;
    assert Run(t1, evs[1..]) == t5;
  }

  /**
   * A status read sent by a tick just before a click can land while the toggle
   * is still outstanding: it clears pending and re-enables the control, so a
   * second toggle can be sent before the first is answered.
   */
  lemma StaleReadReenablesDuringToggle(st: State, s: string)
    requires Inv(st) && st.mounted && !st.pending && st.armed > 0 && ParseStatus(s).Some?
    ensures Admissible(st, [Tick, Click, StatusOk(s)])
    ensures var r := Run(st, [Tick, Click, StatusOk(s)]);
            !r.pending && !r.disabled && r.togglesInFlight == st.togglesInFlight + 1
  {
    var evs := [Tick, Click, StatusOk(s)];
    var t1 := Step(st, Tick).next;
    var t2 := Step(t1, Click).next;
    var t3 := Step(t2, StatusOk(s)).next;
    assert evs[1..] == [Click, StatusOk(s)];
    assert evs[1..][1..] == [StatusOk(s)];
    assert Admissible(t2, [StatusOk(s)]) && Run(t2, [StatusOk(s)]) == t3;
    assert Run(t1, evs[1..]) == t3;
  }
}
