/**
 * `FirebaseHealthChecker` of `src/lib/firebaseHealth.ts` as a pure state
 * machine over its three fields, with the clock reading and the outcome of
 * the probe read passed in, and `attemptConnectionRecovery` composed from it.
 */
module HealthChecker {
  import opened FirebaseErrors

  /** Milliseconds within which a second check reuses the last answer. */
  const CheckInterval: int := 30000
  /** Blocked failures in a row before the checker reports unhealthy. */
  const MaxFailures: nat := 3

  /** The checker's fields; `getStatus` returns exactly this record. */
  datatype Status = Status(isHealthy: bool, lastCheck: int, consecutiveFailures: nat)

  /** The singleton's state when first created. */
  const Initial: Status := Status(true, 0, 0)

  /** What the probe read of the `_health/connection` document did. */
  datatype Probe = ProbeOk | ProbeFailed(error: ErrorInfo)

  /** The state after a check, the value the check returned, and whether the probe ran. */
  datatype Check = Check(status: Status, healthy: bool, probed: bool)

  /** `getStatus`. */
  function GetStatus(s: Status): Status {
    s
  }

  /** The invariant every operation keeps: no failures means healthy, and healthy means fewer than `MaxFailures`. */
  predicate Valid(s: Status) {
    && (s.consecutiveFailures == 0 ==> s.isHealthy)
    && (s.isHealthy ==> s.consecutiveFailures < MaxFailures)
  }

  /** True when a check at `now` falls inside the throttle window of the last probe. */
  predicate Throttled(s: Status, now: int) {
    now - s.lastCheck < CheckInterval
  }

  /**
   * `checkHealth` at clock reading `now`. Inside the throttle window nothing
   * changes and the stored flag is returned. Otherwise the probe runs: a
   * success resets the counter; a blocked-by-client failure increments it and
   * turns the flag off only at `MaxFailures`; any other failure turns the
   * flag off at once and increments it.
   */
  function CheckHealth(s: Status, now: int, probe: Probe): (c: Check)
    ensures c.healthy == c.status.isHealthy
    ensures c.probed <==> !Throttled(s, now)
    ensures !c.probed ==> c.status == s
    ensures c.probed ==> c.status.lastCheck == now
    ensures c.probed && probe.ProbeOk? ==> c.status.isHealthy && c.status.consecutiveFailures == 0
    ensures c.probed && probe.ProbeFailed? ==> c.status.consecutiveFailures == s.consecutiveFailures + 1
    ensures c.probed && probe.ProbeFailed? && !IsBlockedByClient(probe.error) ==> !c.status.isHealthy
    ensures c.probed && probe.ProbeFailed? && IsBlockedByClient(probe.error) ==>
              c.status.isHealthy == (s.isHealthy && c.status.consecutiveFailures < MaxFailures)
  {
    if Throttled(s, now) then Check(s, s.isHealthy, false)
    else
      match probe
      case ProbeOk => Check(Status(true, now, 0), true, true)
      case ProbeFailed(e) =>
        var failures := s.consecutiveFailures + 1;
        var healthy :=
          if IsBlockedByClient(e) then (if failures >= MaxFailures then false else s.isHealthy)
          else false;
        Check(Status(healthy, now, failures), healthy, true)
  }

  /** `forceCheck`: forget the last probe time, then check. */
  function ForceCheck(s: Status, now: int, probe: Probe): (c: Check)
    ensures c.probed <==> now >= CheckInterval
  {
    CheckHealth(s.(lastCheck := 0), now, probe)
  }

  /** `resetFailures`: healthy with no failures, last probe time kept. */
  function ResetFailures(s: Status): (r: Status)
    ensures Valid(r) && r.isHealthy && r.consecutiveFailures == 0 && r.lastCheck == s.lastCheck
  {
    s.(isHealthy := true, consecutiveFailures := 0)
  }

  /** The state the checker is created in satisfies the invariant. */
  lemma InitialValid()
    ensures Valid(Initial)
  {
  }

  /** `checkHealth` and `forceCheck` keep the invariant. */
  lemma CheckKeepsValid(s: Status, now: int, probe: Probe)
    requires Valid(s)
    ensures Valid(CheckHealth(s, now, probe).status)
    ensures Valid(ForceCheck(s, now, probe).status)
  {
  }

  /** A probed failure that is not a blocked connection reports unhealthy immediately, whatever came before. */
  lemma OtherFailureIsImmediate(s: Status, now: int, e: ErrorInfo)
    requires !Throttled(s, now) && !IsBlockedByClient(e)
    ensures !CheckHealth(s, now, ProbeFailed(e)).healthy
  {
  }

  /** One spaced-out blocked-connection failure at time `now`. */
  datatype Tick = Tick(now: int, error: ErrorInfo)

  /** True when every tick is a blocked failure probed at least `CheckInterval` after the previous one. */
  predicate SpacedBlockedFailures(start: int, ticks: seq<Tick>) {
    && (forall k :: 0 <= k < |ticks| ==> IsBlockedByClient(ticks[k].error))
    && (|ticks| > 0 ==> ticks[0].now - start >= CheckInterval)
    && (forall k :: 0 <= k < |ticks| - 1 ==> ticks[k + 1].now - ticks[k].now >= CheckInterval)
  }

  /** The checker after probing each tick in turn. */
  function RunFailures(s: Status, ticks: seq<Tick>): Status
    decreases |ticks|
  {
    if ticks == [] then s
    else RunFailures(CheckHealth(s, ticks[0].now, ProbeFailed(ticks[0].error)).status, ticks[1..])
  }

  /**
   * Hysteresis for blocked connections: from a healthy checker with no
   * failures, `n` spaced blocked failures leave the counter at `n` and the
   * checker healthy exactly while `n < MaxFailures`.
   */
  lemma {:induction false} BlockedFailuresHysteresis(s: Status, ticks: seq<Tick>, prior: nat)
    requires s.isHealthy == (prior < MaxFailures) && s.consecutiveFailures == prior
    requires SpacedBlockedFailures(s.lastCheck, ticks)
    ensures RunFailures(s, ticks).consecutiveFailures == prior + |ticks|
    ensures RunFailures(s, ticks).isHealthy == (prior + |ticks| < MaxFailures)
    decreases |ticks|
  {
    if ticks != [] {
      var c := CheckHealth(s, ticks[0].now, ProbeFailed(ticks[0].error));
      assert c.probed;
      assert c.status.lastCheck == ticks[0].now;
      var rest := ticks[1..];
      assert SpacedBlockedFailures(c.status.lastCheck, rest) by {
        forall k | 0 <= k < |rest|
          ensures IsBlockedByClient(rest[k].error)
        {
          assert rest[k] == ticks[k + 1];
        }
        forall k | 0 <= k < |rest| - 1
          ensures rest[k + 1].now - rest[k].now >= CheckInterval
        {
          assert rest[k] == ticks[k + 1] && rest[k + 1] == ticks[k + 2];
        }
        if |rest| > 0 {
          assert rest[0] == ticks[1];
        }
      }
      BlockedFailuresHysteresis(c.status, rest, prior + 1);
    }
  }

  /** A success after any run of failures restores health and clears the counter. */
  lemma SuccessRestores(s: Status, now: int)
    requires !Throttled(s, now)
    ensures CheckHealth(s, now, ProbeOk) == Check(Status(true, now, 0), true, true)
  {
  }

  /** The state after a recovery attempt and the value it returned. */
  datatype Recovery = Recovery(status: Status, recovered: bool)

  /**
   * `attemptConnectionRecovery`: force a check; if the checker is then
   * healthy report success, otherwise reset the failures, force a second
   * check and report the resulting flag. The checks catch every probe
   * failure, so the recovery's own catch is unreachable.
   */
  function AttemptConnectionRecovery(s: Status, now1: int, probe1: Probe, now2: int, probe2: Probe): (r: Recovery)
    ensures r.recovered == r.status.isHealthy
  {
    var first := ForceCheck(s, now1, probe1);
    if GetStatus(first.status).isHealthy then Recovery(first.status, true)
    else
      var second := ForceCheck(ResetFailures(first.status), now2, probe2);
      Recovery(second.status, GetStatus(second.status).isHealthy)
  }

  /**
   * With real clock readings (past the throttle window), recovery fails
   * exactly when the first check leaves the checker unhealthy and the second
   * probe fails with something other than a blocked connection: a second
   * blocked failure right after the reset still reports recovery.
   */
  lemma RecoveryOutcome(s: Status, now1: int, probe1: Probe, now2: int, probe2: Probe)
    requires now1 >= CheckInterval && now2 >= CheckInterval
    ensures !AttemptConnectionRecovery(s, now1, probe1, now2, probe2).recovered <==>
              && !ForceCheck(s, now1, probe1).healthy
              && probe2.ProbeFailed? && !IsBlockedByClient(probe2.error)
  {
  }

  /** A recovery attempt keeps the invariant. */
  lemma RecoveryKeepsValid(s: Status, now1: int, probe1: Probe, now2: int, probe2: Probe)
    requires Valid(s)
    ensures Valid(AttemptConnectionRecovery(s, now1, probe1, now2, probe2).status)
  {
    CheckKeepsValid(s, now1, probe1);
    CheckKeepsValid(ResetFailures(ForceCheck(s, now1, probe1).status), now2, probe2);
  }
}
