/**
 * `useNavigationGuard` (src/hooks/useNavigationGuard.ts) as a discrete-event
 * state machine. The hook's three refs become the state; calls, router
 * outcomes, timer firings and route events become events; what the hook
 * asks of the router and of the timer queue becomes a list of effects.
 *
 * Only the 1500 ms fallback timer is owned by the hook (its handle is kept
 * and cancelled); the 100 ms and 500 ms timers are fire-and-forget, so they
 * appear as `Schedule` effects whose event the environment delivers later.
 */
module NavigationGuard {
  import opened Options
  import opened Strings
  import opened FirebaseErrors

  type Path = string

  /** Which entry point an attempt came through: `navigateTo` (push) or `replaceTo` (replace). */
  datatype Mode = Push | Replace

  const FallbackDelayMs: nat := 1500
  const CancelRetryDelayMs: nat := 100
  const BackResetDelayMs: nat := 500
  const DrainDelayMs: nat := 100

  /**
   * `navigating` and `pending` are the hook's refs; `fallback` is the armed
   * fallback timer, recording which entry point armed it because its callback
   * re-issues the pending path through that same entry point; `mounted` is
   * false once the component has unmounted and the route handlers are gone.
   */
  datatype State = State(navigating: bool, pending: Option<Path>, fallback: Option<Mode>, mounted: bool)

  const Initial: State := State(false, None, None, true)

  datatype Event =
    | Navigate(mode: Mode, path: Path)                   // navigateTo / replaceTo called
    | RouterResolved                                     // an awaited push / replace resolved
    | RouterRejected(mode: Mode, path: Path, message: string)
    | FallbackFired                                      // the 1500 ms timer ran
    | CancelRetryFired(mode: Mode, path: Path)           // the 100 ms retry after a cancellation ran
    | Back(thrown: Option<string>)                       // back() called; router.back() threw or not
    | BackResetFired                                     // the 500 ms timer after back() ran
    | RouteChangeStart
    | RouteChangeComplete
    | RouteChangeError(message: string)
    | DrainFired(path: Path)                             // the 100 ms timer after routeChangeComplete ran
    | Reset                                              // resetNavigation()
    | Unmount

  datatype Effect =
    | RouterCall(mode: Mode, path: Path)                 // router.push / router.replace
    | RouterBack                                         // router.back()
    | Schedule(delayMs: nat, fires: Event)               // an unowned setTimeout
    | Rethrow(message: string)                           // the call's promise rejects

  /** The source tests `if (pendingNavigation.current)`: an empty path counts as nothing queued. */
  predicate HasPending(s: State) {
    s.pending.Some? && s.pending.value != ""
  }

  /** The router calls among some effects. */
  function RouterCalls(effects: seq<Effect>): (calls: seq<Effect>)
    ensures |calls| <= |effects|
    ensures forall k :: 0 <= k < |calls| ==> calls[k].RouterCall?
    ensures forall e :: e in calls <==> e in effects && e.RouterCall?
  {
    if effects == [] then []
    else
      assert forall e :: e in effects <==> e == effects[0] || e in effects[1..];
      (if effects[0].RouterCall? then [effects[0]] else []) + RouterCalls(effects[1..])
  }

  /** The filter keeps order and multiplicity: it distributes over concatenation. */
  lemma {:induction false} RouterCallsAppend(a: seq<Effect>, b: seq<Effect>)
    ensures RouterCalls(a + b) == RouterCalls(a) + RouterCalls(b)
    decreases |a|
  {
    if a == [] {
      assert a + b == b;
    } else {
      assert (a + b)[0] == a[0] && (a + b)[1..] == a[1..] + b;
      RouterCallsAppend(a[1..], b);
      var head := if a[0].RouterCall? then [a[0]] else [];
      assert head + (RouterCalls(a[1..]) + RouterCalls(b)) == (head + RouterCalls(a[1..])) + RouterCalls(b);
    }
  }

  /** A single effect is kept exactly when it is a router call. */
  lemma RouterCallsSingle(e: Effect)
    ensures RouterCalls([e]) == if e.RouterCall? then [e] else []
  {
    assert [e][1..] == [];
  }

  /**
   * `navigateTo` / `replaceTo`. While a navigation is in progress the path
   * only overwrites the pending slot. Otherwise the flag is set first, the
   * old fallback timer is replaced by a new one, and the router is called.
   */
  function Call(s: State, mode: Mode, path: Path): (r: (State, seq<Effect>))
    ensures s.navigating ==> r.0 == s.(pending := Some(path)) && r.1 == []
    ensures !s.navigating ==> r.0 == s.(navigating := true, fallback := Some(mode))
    ensures !s.navigating ==> r.1 == [RouterCall(mode, path)]
  {
    if s.navigating then (s.(pending := Some(path)), [])
    else (s.(navigating := true, fallback := Some(mode)), [RouterCall(mode, path)])
  }

  /** The hook's reaction to one event. */
  function Step(s: State, ev: Event): (r: (State, seq<Effect>))
  {
    match ev
    case Navigate(mode, path) => Call(s, mode, path)
    case RouterResolved => (s, [])
    case RouterRejected(mode, path, message) =>
      if message != "" && Contains(message, CancelledMarker) then
        (s, [Schedule(CancelRetryDelayMs, CancelRetryFired(mode, path))])
      else
        (s.(navigating := false), [Rethrow(message)])
    case FallbackFired =>
      if s.fallback.None? then (s, [])
      else
        var t := s.(navigating := false, fallback := None);
        if HasPending(t) then Call(t.(pending := None), s.fallback.value, t.pending.value)
        else (t, [])
    case CancelRetryFired(mode, path) => Call(s.(navigating := false), mode, path)
    case Back(thrown) =>
      if s.navigating then (s, [])
      else if thrown.Some? then (s, [RouterBack, Rethrow(thrown.value)])
      else (s.(navigating := true), [RouterBack, Schedule(BackResetDelayMs, BackResetFired)])
    case BackResetFired => (s.(navigating := false), [])
    case RouteChangeStart =>
      if !s.mounted then (s, []) else (s.(navigating := true), [])
    case RouteChangeComplete =>
      if !s.mounted then (s, [])
      else
        var t := s.(navigating := false);
        if HasPending(t) then (t.(pending := None), [Schedule(DrainDelayMs, DrainFired(t.pending.value))])
        else (t, [])
    case RouteChangeError(_) =>
      if !s.mounted then (s, []) else (s.(navigating := false), [])
    case DrainFired(path) => Call(s, Push, path)
    case Reset => (s.(navigating := false, pending := None, fallback := None), [])
    case Unmount => (s.(fallback := None, mounted := false), [])
  }

  /** The state after a sequence of events, and every effect they produced, in order. */
  function Run(s: State, evs: seq<Event>): (r: (State, seq<Effect>))
    decreases |evs|
  {
    if evs == [] then (s, [])
    else
      var first := Step(s, evs[0]);
      var rest := Run(first.0, evs[1..]);
      (rest.0, first.1 + rest.1)
  }

  /** Running a suffix of a trace is one step followed by running the next suffix. */
  lemma RunSuffix(s: State, evs: seq<Event>, i: nat)
    requires i < |evs|
    ensures var first := Step(s, evs[i]);
            Run(s, evs[i..]) == (Run(first.0, evs[i + 1..]).0, first.1 + Run(first.0, evs[i + 1..]).1)
  {
    assert evs[i..][0] == evs[i];
    assert evs[i..][1..] == evs[i + 1..];
  }

  /**
   * Mutual exclusion, one event at a time: no event produces more than one
   * router call, and one that does leaves the flag set and a fallback timer
   * armed by the same entry point.
   */
  lemma StepCallsRouterAtMostOnce(s: State, ev: Event)
    ensures |RouterCalls(Step(s, ev).1)| <= 1
    ensures forall m, p :: RouterCall(m, p) in Step(s, ev).1 ==>
              Step(s, ev).0.navigating && Step(s, ev).0.fallback == Some(m)
  {
  }

  /** While navigating, a call only overwrites the pending slot: the router is not called. */
  lemma QueueWhileNavigating(s: State, mode: Mode, path: Path)
    requires s.navigating
    ensures Step(s, Navigate(mode, path)) == (s.(pending := Some(path)), [])
  {
  }

  /**
   * Last writer wins: any number of calls made while navigating leave only
   * the last path pending, call nothing, and touch nothing else.
   */
  lemma {:induction false} QueuedCallsKeepLast(s: State, calls: seq<(Mode, Path)>)
    requires s.navigating && |calls| > 0
    ensures Run(s, seq(|calls|, k requires 0 <= k < |calls| => Navigate(calls[k].0, calls[k].1))) ==
              (s.(pending := Some(calls[|calls| - 1].1)), [])
    decreases |calls|
  {
    var evs := seq(|calls|, k requires 0 <= k < |calls| => Navigate(calls[k].0, calls[k].1));
    var t := s.(pending := Some(calls[0].1));
    assert evs[0] == Navigate(calls[0].0, calls[0].1);
    assert Step(s, evs[0]) == (t, []);
    if |calls| > 1 {
      var rest := calls[1..];
      QueuedCallsKeepLast(t, rest);
      assert evs[1..] == seq(|rest|, k requires 0 <= k < |rest| => Navigate(rest[k].0, rest[k].1));
    } else {
      assert evs[1..] == [];
      assert Run(s, evs).1 == [];
    }
  }

  /**
   * When idle, a call sets the flag and arms the fallback before the router
   * is called: the router call is the call's only effect and the state it
   * leaves already says navigating. The pending slot is left as it was.
   */
  lemma IdleCallStartsAttempt(s: State, mode: Mode, path: Path)
    requires !s.navigating
    ensures Step(s, Navigate(mode, path)) ==
              (State(true, s.pending, Some(mode), s.mounted), [RouterCall(mode, path)])
  {
  }

  /**
   * The fallback timer clears the flag; if a path is pending it empties the
   * slot and re-issues that path exactly once, through the entry point that
   * armed the timer.
   */
  lemma FallbackReissuesPendingOnce(s: State)
    requires s.fallback.Some?
    ensures HasPending(s) ==>
              Step(s, FallbackFired) ==
                (State(true, None, s.fallback, s.mounted), [RouterCall(s.fallback.value, s.pending.value)])
    ensures !HasPending(s) ==>
              Step(s, FallbackFired) == (s.(navigating := false, fallback := None), [])
  {
  }

  /**
   * A rejection mentioning "Route Cancelled" is swallowed: nothing changes
   * and a retry is scheduled 100 ms later, which clears the flag and calls
   * the router once more with the same path. Any other rejection clears the
   * flag and is re-thrown; it leaves the pending slot and the fallback timer
   * as they were.
   */
  lemma RejectionHandling(s: State, mode: Mode, path: Path, message: string)
    ensures Contains(message, CancelledMarker) ==>
              Step(s, RouterRejected(mode, path, message)) ==
                (s, [Schedule(CancelRetryDelayMs, CancelRetryFired(mode, path))])
    ensures Contains(message, CancelledMarker) ==>
              Step(s, CancelRetryFired(mode, path)) ==
                (s.(navigating := true, fallback := Some(mode)), [RouterCall(mode, path)])
    ensures !Contains(message, CancelledMarker) ==>
              Step(s, RouterRejected(mode, path, message)) == (s.(navigating := false), [Rethrow(message)])
  {
    if Contains(message, CancelledMarker) {
      var i: nat :| i <= |message| && OccursAt(message, CancelledMarker, i);
      assert |message| > 0;
    }
  }

  /**
   * `back()` while navigating is dropped and changes nothing, the pending
   * slot included. Otherwise it sets the flag, calls the router, and
   * schedules the reset 500 ms later, which clears the flag.
   */
  lemma BackBehaviour(s: State)
    ensures s.navigating ==> Step(s, Back(None)) == (s, [])
    ensures !s.navigating ==>
              Step(s, Back(None)) == (s.(navigating := true), [RouterBack, Schedule(BackResetDelayMs, BackResetFired)])
    ensures !Step(Step(s, Back(None)).0, BackResetFired).0.navigating
    ensures Step(Step(s, Back(None)).0, BackResetFired).0.pending == s.pending
  {
  }

  /**
   * `routeChangeComplete` clears the flag and hands a pending path to
   * `navigateTo` 100 ms later, emptying the slot; `routeChangeError` only
   * clears the flag.
   */
  lemma RouteEvents(s: State, message: string)
    requires s.mounted
    ensures HasPending(s) ==>
              Step(s, RouteChangeComplete) ==
                (s.(navigating := false, pending := None), [Schedule(DrainDelayMs, DrainFired(s.pending.value))])
    ensures !HasPending(s) ==> Step(s, RouteChangeComplete) == (s.(navigating := false), [])
    ensures Step(s, RouteChangeError(message)) == (s.(navigating := false), [])
  {
  }

  /** `resetNavigation` leaves the guard idle with nothing pending and no timer, from any state. */
  lemma ResetClearsAll(s: State)
    ensures Step(s, Reset) == (State(false, None, None, s.mounted), [])
  {
  }

  /** After unmounting, no fallback timer is armed and route events change nothing. */
  lemma UnmountCancelsTimer(s: State)
    ensures Step(s, Unmount).0.fallback.None?
    ensures var u := Step(s, Unmount).0;
            Step(u, RouteChangeStart) == (u, []) && Step(u, RouteChangeComplete) == (u, [])
  {
  }

  /** The events that can clear the navigating flag. */
  predicate MayClear(ev: Event) {
    || ev.RouterRejected? || ev.FallbackFired? || ev.CancelRetryFired? || ev.BackResetFired?
    || ev.RouteChangeComplete? || ev.RouteChangeError? || ev.Reset?
  }

  /**
   * What mutual exclusion the guard does give: once navigating, nothing
   * reaches the router and the flag stays set until one of the clearing
   * events arrives. A router call resolving is not among them.
   */
  lemma {:induction false} BusyUntilCleared(s: State, evs: seq<Event>)
    requires s.navigating
    requires forall k :: 0 <= k < |evs| ==> !MayClear(evs[k])
    ensures Run(s, evs).1 == []
    ensures Run(s, evs).0.navigating
    decreases |evs|
  {
    if evs != [] {
      var first := Step(s, evs[0]);
      assert first.1 == [] && first.0.navigating;
      assert forall k :: 0 <= k < |evs[1..]| ==> evs[1..][k] == evs[k + 1];
      BusyUntilCleared(first.0, evs[1..]);
    }
  }

  /**
   * The fallback timer is such a clearing event, and it fires whether or
   * not the first push has settled: `/b` is pushed while the push of `/a`
   * may still be unresolved, so two router calls can be in flight at once.
   */
  lemma FallbackOverlapsInFlightCall()
    ensures var r := Run(Initial, [Navigate(Push, "/a"), Navigate(Push, "/b"), FallbackFired]);
            && r.0 == State(true, None, Some(Push), true)
            && r.1 == [RouterCall(Push, "/a"), RouterCall(Push, "/b")]
  {
    var evs := [Navigate(Push, "/a"), Navigate(Push, "/b"), FallbackFired];
    var busy := State(true, None, Some(Push), true);
    assert evs[3..] == [];
    RunSuffix(busy.(pending := Some("/b")), evs, 2);
    RunSuffix(busy, evs, 1);
    RunSuffix(Initial, evs, 0);
    assert evs[0..] == evs;
  }

  /**
   * A path queued through `replaceTo` is drained by `routeChangeComplete`
   * into `navigateTo`, so it is pushed rather than replaced.
   */
  lemma ReplaceQueuedDrainsAsPush()
    ensures var r := Run(Initial, [Navigate(Push, "/a"), Navigate(Replace, "/b"), RouteChangeComplete, DrainFired("/b")]);
            && r.0 == State(true, None, Some(Push), true)
            && r.1 == [RouterCall(Push, "/a"), Schedule(DrainDelayMs, DrainFired("/b")), RouterCall(Push, "/b")]
  {
    var evs := [Navigate(Push, "/a"), Navigate(Replace, "/b"), RouteChangeComplete, DrainFired("/b")];
    var busy := State(true, None, Some(Push), true);
    assert evs[4..] == [];
    RunSuffix(State(false, None, Some(Push), true), evs, 3);
    assert Run(State(false, None, Some(Push), true), evs[3..]).1 == [RouterCall(Push, "/b")];
    RunSuffix(busy.(pending := Some("/b")), evs, 2);
    assert Run(busy.(pending := Some("/b")), evs[2..]).1 ==
             [Schedule(DrainDelayMs, DrainFired("/b")), RouterCall(Push, "/b")];
    RunSuffix(busy, evs, 1);
    RunSuffix(Initial, evs, 0);
    assert evs[0..] == evs;
  }

  /**
   * Two calls in quick succession: `/a` is pushed, `/b` waits, `/a`
   * resolving changes nothing, and `/b` is pushed once the route change
   * completes. `/a` is never pushed a second time, and a fallback firing
   * after the drain has nothing left to re-issue.
   */
  lemma SupersededCallRunsOnce()
    ensures var r := Run(Initial, [Navigate(Push, "/a"), Navigate(Push, "/b"), RouterResolved,
                                   RouteChangeComplete, FallbackFired, DrainFired("/b")]);
            && r.0 == State(true, None, Some(Push), true)
            && r.1 == [RouterCall(Push, "/a"), Schedule(DrainDelayMs, DrainFired("/b")), RouterCall(Push, "/b")]
  {
    var evs := [Navigate(Push, "/a"), Navigate(Push, "/b"), RouterResolved, RouteChangeComplete,
                FallbackFired, DrainFired("/b")];
    var busy := State(true, None, Some(Push), true);
    var waiting := busy.(pending := Some("/b"));
    assert evs[6..] == [];
    RunSuffix(State(false, None, None, true), evs, 5);
    assert Run(State(false, None, None, true), evs[5..]).1 == [RouterCall(Push, "/b")];
    RunSuffix(State(false, None, Some(Push), true), evs, 4);
    assert Run(State(false, None, Some(Push), true), evs[4..]).1 == [RouterCall(Push, "/b")];
    RunSuffix(waiting, evs, 3);
    assert Run(waiting, evs[3..]).1 == [Schedule(DrainDelayMs, DrainFired("/b")), RouterCall(Push, "/b")];
    RunSuffix(waiting, evs, 2);
    RunSuffix(busy, evs, 1);
    RunSuffix(Initial, evs, 0);
    assert evs[0..] == evs;
  }

  /**
   * The guard can be idle with a path still pending: a route error clears
   * the flag without draining or dropping the slot.
   */
  lemma IdleWithPendingReachable()
    ensures Run(Initial, [Navigate(Push, "/a"), Navigate(Push, "/b"), RouteChangeError("boom")]).0 ==
              State(false, Some("/b"), Some(Push), true)
  {
  }
}
