/**
 * `useSmartNavigation` (src/hooks/useSmartNavigation.ts): the simpler guard
 * that drops, rather than queues, any request made while a navigation is in
 * progress. Its two refs are the flag and the handle of the 1000 ms timer;
 * the 500 ms timer after `back` is fire-and-forget.
 */
module SmartNavigation {

  type Path = string

  /** `navigateTo` (push) or `replaceTo` (replace). */
  datatype Mode = Push | Replace

  const ResetDelayMs: nat := 1000
  const BackResetDelayMs: nat := 500

  /** `navigating` is the flag; `timerArmed` says the 1000 ms timer is set and has not fired yet. */
  datatype State = State(navigating: bool, timerArmed: bool)

  const Initial: State := State(false, false)

  datatype Event =
    | Navigate(mode: Mode, path: Path)     // navigateTo / replaceTo called
    | RouterResolved                       // an awaited push / replace resolved
    | RouterRejected(message: string)      // an awaited push / replace rejected
    | TimerFired                           // the 1000 ms timer ran
    | Back(throws: bool)                   // back() called; whether router.back() threw
    | BackResetFired                       // the 500 ms timer after back() ran

  datatype Effect =
    | RouterCall(mode: Mode, path: Path)
    | RouterBack
    | Schedule(delayMs: nat, fires: Event)
    | Rethrow

  /** An effect that hands control to the router. */
  predicate IsRouterInteraction(e: Effect) {
    e.RouterCall? || e.RouterBack?
  }

  /** An event that clears the flag. */
  predicate Clears(ev: Event) {
    ev.RouterRejected? || ev.TimerFired? || ev.BackResetFired?
  }

  /**
   * The hook's reaction to one event. A rejection is caught and logged: it
   * clears the flag and is not passed on, and it leaves the timer armed. A
   * throwing `router.back()` is not caught: the call fails with the flag
   * already set and no reset scheduled.
   */
  function Step(s: State, ev: Event): (State, seq<Effect>)
  {
    match ev
    case Navigate(mode, path) =>
      if s.navigating then (s, []) else (State(true, true), [RouterCall(mode, path)])
    case RouterResolved => (s, [])
    case RouterRejected(_) => (s.(navigating := false), [])
    case TimerFired => if s.timerArmed then (State(false, false), []) else (s, [])   // only an armed timer can fire
    case Back(throws) =>
      if s.navigating then (s, [])
      else if throws then (s.(navigating := true), [RouterBack, Rethrow])
      else (s.(navigating := true), [RouterBack, Schedule(BackResetDelayMs, BackResetFired)])
    case BackResetFired => (s.(navigating := false), [])
  }

  /** The state after a sequence of events, and every effect they produced, in order. */
  function Run(s: State, evs: seq<Event>): (State, seq<Effect>)
    decreases |evs|
  {
    if evs == [] then (s, [])
    else
      var first := Step(s, evs[0]);
      var rest := Run(first.0, evs[1..]);
      (rest.0, first.1 + rest.1)
  }

  /** How many router interactions some effects hold. */
  function Interactions(effects: seq<Effect>): (n: nat)
    ensures n <= |effects|
    ensures n == 0 <==> forall k :: 0 <= k < |effects| ==> !IsRouterInteraction(effects[k])
  {
    if effects == [] then 0
    else (if IsRouterInteraction(effects[0]) then 1 else 0) + Interactions(effects[1..])
  }

  /** Counting interactions distributes over concatenation. */
  lemma InteractionsAppend(a: seq<Effect>, b: seq<Effect>)
    ensures Interactions(a + b) == Interactions(a) + Interactions(b)
  {
    if a == [] {
      assert a + b == b;
    } else {
      assert (a + b)[1..] == a[1..] + b;
      InteractionsAppend(a[1..], b);
    }
  }

  /** While navigating, every request is dropped: nothing changes and nothing is queued or called. */
  lemma BusyDropsRequests(s: State, mode: Mode, path: Path, throws: bool)
    requires s.navigating
    ensures Step(s, Navigate(mode, path)) == (s, [])
    ensures Step(s, Back(throws)) == (s, [])
  {
  }

  /**
   * An accepted push or replace sets the flag, replaces any earlier timer by
   * a fresh one, and calls the router once.
   */
  lemma AcceptedCallArmsTimer(s: State, mode: Mode, path: Path)
    requires !s.navigating
    ensures Step(s, Navigate(mode, path)) == (State(true, true), [RouterCall(mode, path)])
    ensures Step(Step(s, Navigate(mode, path)).0, TimerFired).0 == Initial
  {
  }

  /** A rejection clears the flag, is never passed on, and leaves the timer as it was. */
  lemma RejectionIsSwallowed(s: State, message: string)
    ensures Step(s, RouterRejected(message)) == (State(false, s.timerArmed), [])
  {
  }

  /**
   * An accepted `back` sets the flag, calls the router, and schedules the
   * 500 ms reset that clears it; a throwing `router.back()` leaves the flag
   * set with no reset scheduled.
   */
  lemma BackBehaviour(s: State)
    requires !s.navigating
    ensures Step(s, Back(false)) ==
              (s.(navigating := true), [RouterBack, Schedule(BackResetDelayMs, BackResetFired)])
    ensures !Step(Step(s, Back(false)).0, BackResetFired).0.navigating
    ensures Step(s, Back(true)) == (s.(navigating := true), [RouterBack, Rethrow])
  {
  }

  /**
   * Drop-on-busy over whole traces: as long as nothing clears the flag, at
   * most one request reaches the router, and none does if a navigation was
   * already in progress.
   */
  lemma {:induction false} OneInteractionUntilCleared(s: State, evs: seq<Event>)
    requires forall k :: 0 <= k < |evs| ==> !Clears(evs[k])
    ensures Interactions(Run(s, evs).1) <= 1
    ensures s.navigating ==> Interactions(Run(s, evs).1) == 0
    ensures s.navigating ==> Run(s, evs).0.navigating
    decreases |evs|
  {
    if evs != [] {
      var first := Step(s, evs[0]);
      assert !Clears(evs[0]);
      assert s.navigating || Interactions(first.1) == 1 ==> first.0.navigating;
      assert Interactions(first.1) <= 1;
      assert s.navigating ==> Interactions(first.1) == 0;
      OneInteractionUntilCleared(first.0, evs[1..]);
      InteractionsAppend(first.1, Run(first.0, evs[1..]).1);
    }
  }

  /** Only a throwing `router.back()` makes a call fail: router rejections never surface. */
  lemma {:induction false} NoRethrowWithoutThrowingBack(s: State, evs: seq<Event>)
    requires forall k :: 0 <= k < |evs| ==> evs[k] != Back(true)
    ensures Rethrow !in Run(s, evs).1
    decreases |evs|
  {
    if evs != [] {
      var first := Step(s, evs[0]);
      assert evs[0] != Back(true);
      assert Rethrow !in first.1;
      NoRethrowWithoutThrowingBack(first.0, evs[1..]);
    }
  }
}
