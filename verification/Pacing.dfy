// Backoff pacing over every run of the supervisor (cmd/daemon/monitor.go, lines 22-102 and 444-582).
module Pacing {
  import opened Domain
  import opened Breaker
  import opened Supervisor

  // No evaluation is split between its breaker test (monitor.go:456) and its
  // reservation (monitor.go:473).
  ghost predicate Atomic(run: seq<Action>) {
    forall i :: 0 <= i < |run| ==> !run[i].Check?
  }

  // Failure k+1 waits out the backoff imposed by failure k.
  ghost predicate Paced(failures: seq<Time>) {
    forall k :: 0 <= k < |failures| - 1 ==> failures[k + 1] >= failures[k] + Backoff(k + 1)
  }

  // Failure k+2 waits out the backoff imposed by failure k.
  ghost predicate PacedByTwo(failures: seq<Time>) {
    forall k :: 0 <= k < |failures| - 2 ==> failures[k + 2] >= failures[k] + Backoff(k + 1)
  }

  // ---- Atomic evaluations ----------------------------------------------------

  ghost predicate PacedUnit(s: System, unit: string) {
    && Paced(Streak(s.log, unit))
    && (unit in s.inFlight ==> RetryAt(Streak(s.log, unit)) <= s.clock)
  }

  lemma PacedAfterFailure(failures: seq<Time>, now: Time)
    requires Paced(failures) && RetryAt(failures) <= now
    requires forall i :: 0 <= i < |failures| ==> failures[i] <= now
    ensures Paced(failures + [now])
  {}

  // The reservation held by a live goroutine; part of SingleFlight.
  predicate HoldsUnit(s: System, w: nat)
    requires w < |s.workers|
  {
    Live(s.workers[w]) ==> s.workers[w].svc.unit in s.inFlight
  }

  lemma PacedUnitFrame(s: System, t: System, unit: string)
    requires PacedUnit(s, unit)
    requires Streak(t.log, unit) == Streak(s.log, unit) && s.clock <= t.clock
    requires unit in t.inFlight ==> unit in s.inFlight
    ensures PacedUnit(t, unit)
  {}

  lemma FailureKeepsPacing(s: System, w: nat, unit: string)
    requires BreakerAgrees(s, unit) && PacedUnit(s, unit) && w < |s.workers| && Live(s.workers[w]) && HoldsUnit(s, w)
    ensures PacedUnit(FinishFailed(s, w), unit)
  {
    var u := s.workers[w].svc.unit;
    StreakSnoc(s.log, FailureRecorded(u, s.clock), unit);
    if u == unit { PacedAfterFailure(Streak(s.log, unit), s.clock); }
    else { PacedUnitFrame(s, FinishFailed(s, w), unit); }
  }

  lemma SettlingKeepsPacing(s: System, w: nat, unit: string)
    requires PacedUnit(s, unit) && w < |s.workers|
    ensures PacedUnit(FinishSettled(s, w), unit)
  {
    var u := s.workers[w].svc.unit;
    StreakSnoc(s.log, BreakerReset(u), unit);
    if u != unit { PacedUnitFrame(s, FinishSettled(s, w), unit); }
  }

  lemma ProgressKeepsPacing(s: System, w: nat, ok: bool, unit: string)
    requires BreakerAgrees(s, unit) && PacedUnit(s, unit) && w < |s.workers| && HoldsUnit(s, w)
    ensures PacedUnit(DoProgress(s, w, ok), unit)
  {
    ProgressCases(s, w, ok);
    PacedAfterProgress(s, w, DoProgress(s, w, ok), unit);
  }

  lemma PacedAfterProgress(s: System, w: nat, t: System, unit: string)
    requires BreakerAgrees(s, unit) && PacedUnit(s, unit) && w < |s.workers| && HoldsUnit(s, w)
    requires (Live(s.workers[w]) && (t == FinishFailed(s, w) || t == FinishSettled(s, w))) || EndsNoAttempt(s, w, t)
    ensures PacedUnit(t, unit)
  {
    if EndsNoAttempt(s, w, t) {
      StreakSnoc(s.log, StartIssued(s.workers[w].svc.unit), unit);
      PacedUnitFrame(s, t, unit);
    } else if t == FinishFailed(s, w) {
      FailureKeepsPacing(s, w, unit);
    } else {
      SettlingKeepsPacing(s, w, unit);
    }
  }

  // A check that lets a unit through has seen its wait over.
  lemma CheckKeepsPacing(s: System, svc: Service, seen: Observation, unit: string)
    requires s.clock >= 0 && BreakerAgrees(s, unit) && PacedUnit(s, unit)
    ensures var t := DoCheck(s, svc, seen);
      && PacedUnit(t, unit)
      && (s.pending.None? && t.pending.Some? && t.pending.value.unit == unit ==>
            RetryAt(Streak(t.log, unit)) <= t.clock)
  {
    StreakSnoc(s.log, BreakerReset(svc.unit), unit);
    PacedOutside(s, DoCheck(s, svc, seen), unit);
  }

  // The reservation about to be made dispatches no restart while the unit's wait is still on.
  predicate Timely(s: System, unit: string) {
    s.pending.Some? && s.pending.value.unit == unit ==> unit in s.inFlight || !Open(s.breaker, unit, s.clock)
  }

  lemma ReserveKeepsPacing(s: System, unit: string)
    requires PacedUnit(s, unit)
    requires s.pending.Some? && s.pending.value.unit == unit ==>
      unit in s.inFlight || RetryAt(Streak(s.log, unit)) <= s.clock
    ensures PacedUnit(DoReserve(s), unit)
  {
    assert DoReserve(s).log == s.log && DoReserve(s).clock == s.clock;
  }

  // Whatever check it rests on, a reservation keeps the pacing exactly when it is timely.
  lemma ReservationKeepsPacingExactlyWhen(s: System, unit: string)
    requires Inv(s) && PacedUnit(s, unit) && s.pending.Some? && s.pending.value.unit == unit
    ensures PacedUnit(DoReserve(s), unit) <==> unit in s.inFlight || !Open(s.breaker, unit, s.clock)
  {
    assert BreakerAgrees(s, unit);
    assert DoReserve(s).log == s.log && DoReserve(s).clock == s.clock;
  }

  lemma EvaluateKeepsPacing(s: System, svc: Service, seen: Observation, unit: string)
    requires s.clock >= 0 && BreakerAgrees(s, unit) && s.pending.None? && PacedUnit(s, unit)
    ensures DoReserve(DoCheck(s, svc, seen)).pending.None?
    ensures PacedUnit(DoReserve(DoCheck(s, svc, seen)), unit)
  {
    CheckKeepsPacing(s, svc, seen, unit);
    ReserveKeepsPacing(DoCheck(s, svc, seen), unit);
  }

  // Steps of the clock, of the API and of the daemon as a whole, and cancellations.
  predicate Outside(a: Action) { !a.Check? && !a.Reserve? && !a.Evaluate? && !a.Progress? }

  // They leave a unit's failures alone or forget them, and only release units.
  lemma OutsideEffect(s: System, a: Action, unit: string)
    requires Outside(a)
    ensures var t := Apply(s, a);
      && (Streak(t.log, unit) == Streak(s.log, unit) || Streak(t.log, unit) == [])
      && s.clock <= t.clock && t.inFlight <= s.inFlight && (t.pending == s.pending || t.pending == None)
  {
    match a
    case Enable(u) => StreakSnoc(s.log, BreakerReset(u), unit);
    case DaemonRestart(_) => StreakSnoc(s.log, ProcessStarted, unit);
    case _ =>
  }

  lemma PacedUnitKept(s: System, a: Action, unit: string)
    requires s.clock >= 0 && BreakerAgrees(s, unit) && PacedUnit(s, unit) && (a.Reserve? ==> Timely(s, unit))
    requires forall w :: 0 <= w < |s.workers| ==> HoldsUnit(s, w)
    ensures PacedUnit(Apply(s, a), unit)
  {
    if Outside(a) {
      OutsideEffect(s, a, unit);
      PacedOutside(s, Apply(s, a), unit);
    } else if a.Check? {
      CheckKeepsPacing(s, a.svc, a.seen, unit);
    } else if a.Reserve? {
      ReserveKeepsPacing(s, unit);
    } else if a.Evaluate? {
      if s.pending.None? { EvaluateKeepsPacing(s, a.svc, a.seen, unit); }
    } else if a.Progress? && a.w < |s.workers| {
      ProgressKeepsPacing(s, a.w, a.ok, unit);
    }
  }

  lemma PacedOutside(s: System, t: System, unit: string)
    requires s.clock >= 0 && PacedUnit(s, unit)
    requires Streak(t.log, unit) == Streak(s.log, unit) || Streak(t.log, unit) == []
    requires s.clock <= t.clock && t.inFlight <= s.inFlight
    ensures PacedUnit(t, unit)
  {}

  lemma InvGives(s: System, unit: string)
    requires Inv(s)
    ensures s.clock >= 0 && BreakerAgrees(s, unit) && forall w :: 0 <= w < |s.workers| ==> HoldsUnit(s, w)
  {}

  // Every reservation of the unit in the run is timely.
  ghost predicate TimelyRun(s: System, run: seq<Action>, unit: string) {
    run != [] ==>
      var before := run[..|run| - 1];
      TimelyRun(s, before, unit) && (run[|run| - 1].Reserve? ==> Timely(Run(s, before), unit))
  }

  // Over every run whose reservations are timely, each failure of a unit keeps the
  // distance that the previous one imposed.
  lemma {:induction false} TimelyRunsArePaced(now: nat, run: seq<Action>, unit: string)
    requires TimelyRun(Init(now), run, unit)
    ensures PacedUnit(Run(Init(now), run), unit)
  {
    if run != [] {
      var before := run[..|run| - 1];
      TimelyRunsArePaced(now, before, unit);
      InvAlways(now, before);
      InvGives(Run(Init(now), before), unit);
      PacedUnitKept(Run(Init(now), before), run[|run| - 1], unit);
    }
  }

  lemma {:induction false} AtomicRunsAreTimely(s: System, run: seq<Action>, unit: string)
    requires Atomic(run) && s.pending.None?
    ensures Run(s, run).pending.None? && TimelyRun(s, run, unit)
  {
    if run != [] {
      AtomicRunsAreTimely(s, run[..|run| - 1], unit);
      AtomicLeavesNothingPending(Run(s, run[..|run| - 1]), run[|run| - 1]);
    }
  }

  lemma AtomicLeavesNothingPending(s: System, a: Action)
    requires s.pending.None? && !a.Check?
    ensures Apply(s, a).pending.None?
  {}

  // In particular over every run whose evaluations are atomic.
  lemma AtomicRunsArePaced(now: nat, run: seq<Action>, unit: string)
    requires Atomic(run)
    ensures Run(Init(now), run).pending.None?
    ensures PacedUnit(Run(Init(now), run), unit)
  {
    AtomicRunsAreTimely(Init(now), run, unit);
    TimelyRunsArePaced(now, run, unit);
  }

  lemma {:induction false} PacedTotal(failures: seq<Time>, n: nat)
    requires Paced(failures) && 5 <= n <= |failures|
    ensures failures[n - 1] >= failures[0] + Seconds(750 + 3600 * (n - 5))
  {
    assert failures[n - 1] >= failures[n - 2] + Backoff(n - 1);
    if n > 5 {
      PacedTotal(failures, n - 1);
    } else {
      assert failures[1] >= failures[0] + Backoff(1);
      assert failures[2] >= failures[1] + Backoff(2);
      assert failures[3] >= failures[2] + Backoff(3);
    }
  }

  // ---- When the monitor acts ---------------------------------------------------

  // An atomic evaluation dispatches a restart exactly when the entry is managed,
  // the unit is seen down, the policy allows it, the wait imposed by the recorded
  // failures is over, the mounts are there and no restart of the unit is running.
  lemma EvaluationDispatchesExactlyWhenDue(s: System, svc: Service, seen: Observation)
    requires Inv(s) && s.pending.None?
    ensures |Apply(s, Evaluate(svc, seen)).workers| == |s.workers| + 1 <==>
      && svc.enabled
      && !seen.active && seen.mountsPresent
      && (|| svc.restart == Always
          || (svc.restart == UnlessStopped && svc.unit !in s.userStopped)
          || (svc.restart == OnFailure && svc.unit !in s.userStopped && seen.exitedWithFailure))
      && s.clock >= RetryAt(Streak(s.log, svc.unit))
      && forall w :: 0 <= w < |s.workers| && s.workers[w].svc.unit == svc.unit ==> s.workers[w].phase.Done?
    ensures var t := Apply(s, Evaluate(svc, seen));
      t.workers == s.workers || t.workers == s.workers + [Worker(svc, Dispatched)]
  {
    assert BreakerAgrees(s, svc.unit);
    if svc.unit in s.inFlight {
      var w :| 0 <= w < |s.workers| && Live(s.workers[w]) && s.workers[w].svc.unit == svc.unit;
    }
  }

  // A restart whose start fails, or which is down after settling, is one more
  // failure; one that has settled clears the record. Either way the unit is free.
  lemma RestartOutcomeIsRecorded(s: System, w: nat, ok: bool)
    requires w < |s.workers|
    requires s.workers[w].phase == Starting ==> !ok
    requires s.workers[w].phase == Starting || (s.workers[w].phase.Settling? && s.clock >= s.workers[w].phase.until)
    ensures var unit := s.workers[w].svc.unit; var t := Apply(s, Progress(w, ok));
      && Streak(t.log, unit) == (if ok then [] else Streak(s.log, unit) + [s.clock])
      && unit !in t.inFlight && t.workers[w].phase == Done
      && forall u :: u != unit ==> Streak(t.log, u) == Streak(s.log, u) && (u in t.inFlight <==> u in s.inFlight)
  {
    var unit, t := s.workers[w].svc.unit, Apply(s, Progress(w, ok));
    var e := if ok then BreakerReset(unit) else FailureRecorded(unit, s.clock);
    assert t.log == s.log + [e] && t.inFlight == s.inFlight - {unit};
    forall u ensures Streak(t.log, u) == Extend(Streak(s.log, u), e, u) { StreakSnoc(s.log, e, u); }
  }

  // ---- Every interleaving ------------------------------------------------------

  // The wait imposed by the failure before the last one is over.
  ghost predicate EarlierWaitOver(failures: seq<Time>, now: Time) {
    |failures| >= 2 ==> failures[|failures| - 2] + Backoff(|failures| - 1) <= now
  }

  // A reservation that follows a split evaluation may rest on a breaker state
  // that one failure of the same unit has made stale, never on an older one.
  ghost predicate LooselyPacedUnit(s: System, unit: string) {
    var failures := Streak(s.log, unit);
    && PacedByTwo(failures)
    && (unit in s.inFlight ==> EarlierWaitOver(failures, s.clock))
    && (s.pending.Some? && s.pending.value.unit == unit ==>
          || RetryAt(failures) <= s.clock
          || (unit !in s.inFlight && EarlierWaitOver(failures, s.clock)))
  }

  lemma ClosedMeansEarlierWaitOver(failures: seq<Time>, now: Time)
    requires RetryAt(failures) <= now
    requires forall i, j :: 0 <= i < j < |failures| ==> failures[i] <= failures[j]
    requires forall i :: 0 <= i < |failures| ==> failures[i] <= now
    ensures EarlierWaitOver(failures, now)
    ensures EarlierWaitOver(failures + [now], now)
  {
    if |failures| >= 2 { BackoffNeverShrinks(|failures| - 1, |failures|); }
  }

  lemma LooseFrame(s: System, t: System, unit: string)
    requires LooselyPacedUnit(s, unit)
    requires Streak(t.log, unit) == Streak(s.log, unit) && s.clock <= t.clock
    requires unit in t.inFlight ==> unit in s.inFlight
    requires t.pending == s.pending || t.pending == None
    ensures LooselyPacedUnit(t, unit)
  {}

  lemma FailureKeepsLoosePacing(s: System, w: nat, unit: string)
    requires BreakerAgrees(s, unit) && LooselyPacedUnit(s, unit)
    requires w < |s.workers| && Live(s.workers[w]) && HoldsUnit(s, w)
    ensures LooselyPacedUnit(FinishFailed(s, w), unit)
  {
    var u := s.workers[w].svc.unit;
    StreakSnoc(s.log, FailureRecorded(u, s.clock), unit);
    var failures := Streak(s.log, unit);
    if u != unit { LooseFrame(s, FinishFailed(s, w), unit); }
    else if RetryAt(failures) <= s.clock { ClosedMeansEarlierWaitOver(failures, s.clock); }
  }

  lemma CheckKeepsLoosePacing(s: System, svc: Service, seen: Observation, unit: string)
    requires s.clock >= 0 && BreakerAgrees(s, unit) && LooselyPacedUnit(s, unit)
    ensures LooselyPacedUnit(DoCheck(s, svc, seen), unit)
  {
    StreakSnoc(s.log, BreakerReset(svc.unit), unit);
    if svc.unit != unit || DoCheck(s, svc, seen).pending == s.pending {
      if DoCheck(s, svc, seen).log == s.log || svc.unit != unit { CheckElsewhere(s, svc, seen, unit); }
    }
  }

  lemma CheckElsewhere(s: System, svc: Service, seen: Observation, unit: string)
    requires LooselyPacedUnit(s, unit)
    requires Streak(DoCheck(s, svc, seen).log, unit) == Streak(s.log, unit)
    requires svc.unit != unit || DoCheck(s, svc, seen).pending == s.pending
    ensures LooselyPacedUnit(DoCheck(s, svc, seen), unit)
  {}

  lemma ReserveKeepsLoosePacing(s: System, unit: string)
    requires BreakerAgrees(s, unit) && LooselyPacedUnit(s, unit)
    ensures LooselyPacedUnit(DoReserve(s), unit)
  {
    var failures := Streak(s.log, unit);
    if RetryAt(failures) <= s.clock { ClosedMeansEarlierWaitOver(failures, s.clock); }
  }

  lemma ProgressKeepsLoosePacing(s: System, w: nat, ok: bool, unit: string)
    requires s.clock >= 0 && BreakerAgrees(s, unit) && LooselyPacedUnit(s, unit) && w < |s.workers| && HoldsUnit(s, w)
    ensures LooselyPacedUnit(DoProgress(s, w, ok), unit)
  {
    ProgressCases(s, w, ok);
    LooseAfterProgress(s, w, DoProgress(s, w, ok), unit);
  }

  lemma SettlingKeepsLoosePacing(s: System, w: nat, unit: string)
    requires LooselyPacedUnit(s, unit) && w < |s.workers| && s.clock >= 0
    ensures LooselyPacedUnit(FinishSettled(s, w), unit)
  {
    var u, t := s.workers[w].svc.unit, FinishSettled(s, w);
    StreakSnoc(s.log, BreakerReset(u), unit);
    LooseOutside(s, t, unit);
  }

  lemma QuietKeepsLoosePacing(s: System, w: nat, t: System, unit: string)
    requires LooselyPacedUnit(s, unit) && w < |s.workers| && EndsNoAttempt(s, w, t)
    ensures LooselyPacedUnit(t, unit)
  {
    StreakSnoc(s.log, StartIssued(s.workers[w].svc.unit), unit);
    LooseFrame(s, t, unit);
  }

  lemma LooseAfterProgress(s: System, w: nat, t: System, unit: string)
    requires s.clock >= 0 && BreakerAgrees(s, unit) && LooselyPacedUnit(s, unit) && w < |s.workers| && HoldsUnit(s, w)
    requires (Live(s.workers[w]) && (t == FinishFailed(s, w) || t == FinishSettled(s, w))) || EndsNoAttempt(s, w, t)
    ensures LooselyPacedUnit(t, unit)
  {
    if EndsNoAttempt(s, w, t) {
      QuietKeepsLoosePacing(s, w, t, unit);
    } else if t == FinishFailed(s, w) {
      FailureKeepsLoosePacing(s, w, unit);
    } else {
      SettlingKeepsLoosePacing(s, w, unit);
    }
  }

  lemma EvaluateKeepsLoosePacing(s: System, svc: Service, seen: Observation, unit: string)
    requires s.clock >= 0 && BreakerAgrees(s, unit) && LooselyPacedUnit(s, unit)
    ensures LooselyPacedUnit(DoReserve(DoCheck(s, svc, seen)), unit)
  {
    CheckKeepsLoosePacing(s, svc, seen, unit);
    CheckKeepsAgreement(s, svc, seen, unit);
    ReserveKeepsLoosePacing(DoCheck(s, svc, seen), unit);
  }

  lemma LooseOutside(s: System, t: System, unit: string)
    requires s.clock >= 0 && LooselyPacedUnit(s, unit)
    requires Streak(t.log, unit) == Streak(s.log, unit) || Streak(t.log, unit) == []
    requires s.clock <= t.clock && t.inFlight <= s.inFlight && (t.pending == s.pending || t.pending == None)
    ensures LooselyPacedUnit(t, unit)
  {}

  lemma LoosePacingKept(s: System, a: Action, unit: string)
    requires s.clock >= 0 && BreakerAgrees(s, unit) && LooselyPacedUnit(s, unit)
    requires forall w :: 0 <= w < |s.workers| ==> HoldsUnit(s, w)
    ensures LooselyPacedUnit(Apply(s, a), unit)
  {
    if Outside(a) {
      OutsideEffect(s, a, unit);
      LooseOutside(s, Apply(s, a), unit);
    } else if a.Check? {
      CheckKeepsLoosePacing(s, a.svc, a.seen, unit);
    } else if a.Reserve? {
      ReserveKeepsLoosePacing(s, unit);
    } else if a.Evaluate? {
      EvaluateKeepsLoosePacing(s, a.svc, a.seen, unit);
    } else if a.w < |s.workers| {
      ProgressKeepsLoosePacing(s, a.w, a.ok, unit);
    }
  }

  // Whatever the interleaving, every second failure keeps the distance.
  lemma {:induction false} EveryRunIsPacedByTwo(now: nat, run: seq<Action>, unit: string)
    ensures LooselyPacedUnit(Run(Init(now), run), unit)
  {
    if run != [] {
      var before := run[..|run| - 1];
      EveryRunIsPacedByTwo(now, before, unit);
      InvAlways(now, before);
      InvGives(Run(Init(now), before), unit);
      LoosePacingKept(Run(Init(now), before), run[|run| - 1], unit);
    }
  }

  lemma {:induction false} PacedByTwoTotal(failures: seq<Time>, m: nat)
    requires PacedByTwo(failures) && 2 <= m && 2 * m < |failures|
    ensures failures[2 * m] >= failures[0] + Seconds(120 + 3600 * (m - 2))
  {
    if m > 2 {
      PacedByTwoTotal(failures, m - 1);
      assert failures[2 * (m - 1) + 2] >= failures[2 * (m - 1)] + Backoff(2 * m - 1);
    } else {
      assert failures[2] >= failures[0] + Backoff(1);
      assert failures[4] >= failures[2] + Backoff(3);
    }
  }

  // ---- The split evaluation does break the sharper bound ------------------------

  function Sample(): Service {
    Service("a.service", true, 0, 0, [], [], Always, 0, "", "")
  }

  // Goroutine w runs to a failed start.
  function FailingRestart(w: nat): seq<Action> {
    [Progress(w, true), Progress(w, true), Progress(w, false)]
  }

  const DOWN := Observation(false, true, true)

  function FirstAttempt(): seq<Action> { [Evaluate(Sample(), DOWN)] + FailingRestart(0) }

  function SecondAttempt(): seq<Action> { [Evaluate(Sample(), DOWN), Check(Sample(), DOWN)] + FailingRestart(1) }

  function ThirdAttempt(): seq<Action> { [Reserve] + FailingRestart(2) }

  function StaleRun(): seq<Action> { FirstAttempt() + SecondAttempt() + ThirdAttempt() }

  lemma RunAppend(s: System, a: seq<Action>, x: Action)
    ensures Run(s, a + [x]) == Apply(Run(s, a), x)
  {
    assert (a + [x])[..|a|] == a;
  }

  lemma {:induction false} RunConcat(s: System, a: seq<Action>, b: seq<Action>)
    ensures Run(s, a + b) == Run(Run(s, a), b)
  {
    if b == [] {
      assert a + b == a;
    } else {
      var b' := b[..|b| - 1];
      assert a + b == (a + b') + [b[|b| - 1]];
      RunAppend(s, a + b', b[|b| - 1]);
      RunConcat(s, a, b');
    }
  }

  lemma RunThree(s: System, x: Action, y: Action, z: Action)
    ensures Run(s, [x, y, z]) == Apply(Apply(Apply(s, x), y), z)
  {
    assert [x, y, z] == ([] + [x]) + [y] + [z];
    RunAppend(s, [], x);
    RunAppend(s, [x], y);
    RunAppend(s, [x] + [y], z);
  }

  lemma FailingRestartEffect(s: System, w: nat)
    requires w < |s.workers| && s.workers[w] == Worker(Sample(), Dispatched)
    ensures var t := Run(s, FailingRestart(w));
      && t.clock == s.clock && t.pending == s.pending && t.userStopped == s.userStopped
      && t.breaker == Failed(s.breaker, "a.service", s.clock)
      && t.inFlight == s.inFlight - {"a.service"}
      && |t.workers| == |s.workers|
      && Streak(t.log, "a.service") == Streak(s.log, "a.service") + [s.clock]
  {
    var t := Apply(s, Progress(w, true));
    var u := Apply(t, Progress(w, true));
    RunThree(s, Progress(w, true), Progress(w, true), Progress(w, false));
    assert t == Move(s, w, Delaying(s.clock));
    assert u == Move(t, w, Starting).(log := s.log + [StartIssued("a.service")]);
    assert Apply(u, Progress(w, false)) == FinishFailed(u, w);
    StreakSnoc(s.log, StartIssued("a.service"), "a.service");
    StreakSnoc(u.log, FailureRecorded("a.service", s.clock), "a.service");
  }

  // Between attempts, with n of them over.
  ghost predicate Idle(s: System, n: nat) {
    && s.clock == 0 && s.inFlight == {} && |s.workers| == n
    && |Streak(s.log, "a.service")| == n && forall f <- Streak(s.log, "a.service") :: f == 0
  }

  lemma DispatchThenFail(s: System, t: System)
    requires Idle(s, |s.workers|)
    requires t.clock == 0 && t.workers == s.workers + [Worker(Sample(), Dispatched)] && t.log == s.log
    requires t.inFlight == {"a.service"}
    ensures var u := Run(t, FailingRestart(|s.workers|));
      Idle(u, |s.workers| + 1) && u.pending == t.pending && u.breaker == Failed(t.breaker, "a.service", 0)
  {
    FailingRestartEffect(t, |s.workers|);
  }

  lemma FirstFails()
    ensures var s := Run(Init(0), FirstAttempt());
      Idle(s, 1) && s.pending == None && Entry(s.breaker, "a.service") == UnitBreaker(1, ZERO_TIME)
  {
    var s := Apply(Init(0), Evaluate(Sample(), DOWN));
    RunAppend(Init(0), [], Evaluate(Sample(), DOWN));
    assert [] + [Evaluate(Sample(), DOWN)] == [Evaluate(Sample(), DOWN)];
    RunConcat(Init(0), [Evaluate(Sample(), DOWN)], FailingRestart(0));
    DispatchThenFail(Init(0), s);
  }

  lemma SecondFails(s: System)
    requires Idle(s, 1) && s.pending == None && Entry(s.breaker, "a.service") == UnitBreaker(1, ZERO_TIME)
    ensures var t := Run(s, SecondAttempt()); Idle(t, 2) && t.pending == Some(Sample())
  {
    var evaluate, check := Evaluate(Sample(), DOWN), Check(Sample(), DOWN);
    var t := Apply(Apply(s, evaluate), check);
    RunAppend(s, [], evaluate);
    RunAppend(s, [evaluate], check);
    assert [] + [evaluate] == [evaluate] && [evaluate] + [check] == [evaluate, check];
    RunConcat(s, [evaluate, check], FailingRestart(1));
    DispatchThenFail(s, t);
  }

  lemma ThirdFails(s: System)
    requires Idle(s, 2) && s.pending == Some(Sample())
    ensures Idle(Run(s, ThirdAttempt()), 3)
  {
    var reserve, failing := [Reserve], FailingRestart(2);
    var t := Apply(s, Reserve);
    assert Run(s, reserve) == t by {
      RunAppend(s, [], Reserve);
      assert [] + [Reserve] == reserve;
    }
    RunConcat(s, reserve, failing);
    DispatchThenFail(s, t);
  }

  // Three failures at one instant although the second imposes 30 seconds: the third was dispatched by an evaluation
  // whose breaker test preceded the second.
  lemma SplitEvaluationBreaksPacing()
    ensures Streak(Run(Init(0), StaleRun()).log, "a.service") == [0, 0, 0]
    ensures !Paced(Streak(Run(Init(0), StaleRun()).log, "a.service"))
  {
    var s := Run(Init(0), StaleRun());
    FirstFails();
    SecondFails(Run(Init(0), FirstAttempt()));
    RunConcat(Init(0), FirstAttempt(), SecondAttempt());
    ThirdFails(Run(Init(0), FirstAttempt() + SecondAttempt()));
    RunConcat(Init(0), FirstAttempt() + SecondAttempt(), ThirdAttempt());
    assert Idle(s, 3);
    ThreeZeros(Streak(s.log, "a.service"));
  }

  lemma ThreeZeros(failures: seq<Time>)
    requires |failures| == 3 && forall f <- failures :: f == 0
    ensures failures == [0, 0, 0] && !Paced(failures)
  {
    assert failures[0] in failures && failures[1] in failures && failures[2] in failures;
    assert failures[0] == 0 && failures[1] == 0 && failures[2] == 0;
    assert failures == [0, 0, 0];
    assert BACKOFF_SCHEDULE[1] == Seconds(30);
    assert failures[2] < failures[1] + Backoff(2);
  }
}
