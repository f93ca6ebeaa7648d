// Which stale reservations break the backoff pacing (cmd/daemon/monitor.go, lines 456-481 and 526-540).
//
// A restart waits out its own delay before it starts the unit, so a reservation that rests on an outdated breaker
// test does harm only if the delay ends before the wait that the failures impose.
module StaleReservations {
  import opened Domain
  import opened Breaker
  import opened Supervisor
  import opened Pacing

  // The earliest instant at which a goroutine can have its start fail.
  function EarliestEnd(now: Time, w: Worker): Time {
    match w.phase
    case Dispatched => now + Delay(w.svc)
    case Delaying(until) => if until > now then until else now
    case _ => now
  }

  // A live goroutine of the unit cannot end before the recorded wait is over.
  ghost predicate DueUnit(s: System, unit: string) {
    && Paced(Streak(s.log, unit))
    && forall i :: 0 <= i < |s.workers| && Live(s.workers[i]) && s.workers[i].svc.unit == unit ==>
         RetryAt(Streak(s.log, unit)) <= EarliestEnd(s.clock, s.workers[i])
  }

  // The reservation about to be made dispatches no restart that can be over before the wait is.
  predicate Harmless(s: System, unit: string) {
    s.pending.Some? && s.pending.value.unit == unit && unit !in s.inFlight ==>
      Entry(s.breaker, unit).backoffUntil <= s.clock + Delay(s.pending.value)
  }

  ghost predicate HarmlessRun(s: System, run: seq<Action>, unit: string) {
    run != [] ==>
      var before := run[..|run| - 1];
      HarmlessRun(s, before, unit) && (run[|run| - 1].Reserve? ==> Harmless(Run(s, before), unit))
  }

  // ---- Every step keeps goroutines due -------------------------------------------------

  // Goroutines that were there before, as they were, and the failures kept or forgotten.
  lemma DueFrame(s: System, t: System, unit: string)
    requires s.clock >= 0 && DueUnit(s, unit)
    requires Streak(t.log, unit) == Streak(s.log, unit) || Streak(t.log, unit) == []
    requires s.clock <= t.clock
    requires forall i :: 0 <= i < |t.workers| && Live(t.workers[i]) ==> i < |s.workers| && t.workers[i] == s.workers[i]
    ensures DueUnit(t, unit)
  {}

  lemma OutsideKeepsWorkers(s: System, a: Action)
    requires Outside(a)
    ensures var t := Apply(s, a);
      forall i :: 0 <= i < |t.workers| && Live(t.workers[i]) ==> i < |s.workers| && t.workers[i] == s.workers[i]
  {}

  lemma DispatchKeepsDue(s: System, svc: Service, t: System, unit: string)
    requires DueUnit(s, unit) && t.log == s.log && t.clock == s.clock
    requires t.workers == s.workers || t.workers == s.workers + [Worker(svc, Dispatched)]
    requires t.workers != s.workers && svc.unit == unit ==> RetryAt(Streak(s.log, unit)) <= s.clock + Delay(svc)
    ensures DueUnit(t, unit)
  {
    assert forall i :: 0 <= i < |s.workers| ==> t.workers[i] == s.workers[i];
  }

  lemma ReserveKeepsDue(s: System, unit: string)
    requires BreakerAgrees(s, unit) && DueUnit(s, unit) && Harmless(s, unit)
    ensures DueUnit(DoReserve(s), unit)
  {
    if s.pending.Some? { DispatchKeepsDue(s, s.pending.value, DoReserve(s), unit); }
  }

  lemma CheckKeepsDue(s: System, svc: Service, seen: Observation, unit: string)
    requires s.clock >= 0 && BreakerAgrees(s, unit) && DueUnit(s, unit)
    ensures var t := DoCheck(s, svc, seen); DueUnit(t, unit) && (s.pending.None? ==> Harmless(t, unit))
  {
    StreakSnoc(s.log, BreakerReset(svc.unit), unit);
    DueFrame(s, DoCheck(s, svc, seen), unit);
  }

  lemma EvaluateKeepsDue(s: System, svc: Service, seen: Observation, unit: string)
    requires s.clock >= 0 && BreakerAgrees(s, unit) && DueUnit(s, unit) && s.pending.None?
    ensures DueUnit(DoReserve(DoCheck(s, svc, seen)), unit)
  {
    CheckKeepsDue(s, svc, seen, unit);
    CheckKeepsAgreement(s, svc, seen, unit);
    ReserveKeepsDue(DoCheck(s, svc, seen), unit);
  }

  // Goroutine w is the only live one of its unit; part of SingleFlight.
  ghost predicate Alone(s: System, w: nat)
    requires w < |s.workers|
  {
    forall i :: 0 <= i < |s.workers| && i != w && Live(s.workers[i]) ==> s.workers[i].svc.unit != s.workers[w].svc.unit
  }

  lemma SingleFlightAlone(s: System, w: nat)
    requires SingleFlight(s) && w < |s.workers| && Live(s.workers[w])
    ensures Alone(s, w)
  {}

  lemma FailureKeepsDue(s: System, w: nat, unit: string)
    requires s.clock >= 0 && BreakerAgrees(s, unit) && DueUnit(s, unit) && w < |s.workers| && Alone(s, w)
    requires Live(s.workers[w]) && EarliestEnd(s.clock, s.workers[w]) == s.clock
    ensures DueUnit(FinishFailed(s, w), unit)
  {
    var u, t := s.workers[w].svc.unit, FinishFailed(s, w);
    StreakSnoc(s.log, FailureRecorded(u, s.clock), unit);
    if u == unit { PacedAfterFailure(Streak(s.log, unit), s.clock); } else { DueFrame(s, t, unit); }
  }

  lemma FinishKeepsDue(s: System, w: nat, t: System, unit: string)
    requires s.clock >= 0 && DueUnit(s, unit) && w < |s.workers| && (t == Finish(s, w) || t == FinishSettled(s, w))
    ensures DueUnit(t, unit)
  {
    StreakSnoc(s.log, BreakerReset(s.workers[w].svc.unit), unit);
    DueFrame(s, t, unit);
  }

  // A goroutine that goes on can end no earlier than before.
  lemma MoveKeepsDue(s: System, w: nat, phase: Phase, t: System, unit: string)
    requires DueUnit(s, unit) && w < |s.workers| && Live(s.workers[w]) && t.clock == s.clock
    requires t.workers == s.workers[w := s.workers[w].(phase := phase)]
    requires t.log == s.log || t.log == s.log + [StartIssued(s.workers[w].svc.unit)]
    requires EarliestEnd(s.clock, s.workers[w]) <= EarliestEnd(s.clock, t.workers[w])
    ensures DueUnit(t, unit)
  {
    StreakSnoc(s.log, StartIssued(s.workers[w].svc.unit), unit);
    forall i | 0 <= i < |t.workers| && Live(t.workers[i]) && t.workers[i].svc.unit == unit
      ensures RetryAt(Streak(t.log, unit)) <= EarliestEnd(t.clock, t.workers[i])
    {
      assert Live(s.workers[i]) && s.workers[i].svc.unit == unit;
    }
  }

  lemma ProgressKeepsDue(s: System, w: nat, ok: bool, unit: string)
    requires s.clock >= 0 && BreakerAgrees(s, unit) && DueUnit(s, unit) && w < |s.workers|
    requires Live(s.workers[w]) ==> Alone(s, w)
    ensures DueUnit(DoProgress(s, w, ok), unit)
  {
    var t, svc := DoProgress(s, w, ok), s.workers[w].svc;
    match s.workers[w].phase
    case Dispatched =>
      if ok { MoveKeepsDue(s, w, Delaying(s.clock + Delay(svc)), t, unit); } else { FinishKeepsDue(s, w, t, unit); }
    case Delaying(until) =>
      if s.clock >= until {
        if ok { MoveKeepsDue(s, w, Starting, t, unit); } else { FinishKeepsDue(s, w, t, unit); }
      }
    case Starting =>
      if ok { MoveKeepsDue(s, w, Settling(s.clock + SETTLE), t, unit); } else { FailureKeepsDue(s, w, unit); }
    case Settling(until) =>
      if s.clock >= until {
        if ok { FinishKeepsDue(s, w, t, unit); } else { FailureKeepsDue(s, w, unit); }
      }
    case Done =>
  }

  lemma DueKept(s: System, a: Action, unit: string)
    requires s.clock >= 0 && BreakerAgrees(s, unit) && DueUnit(s, unit) && (a.Reserve? ==> Harmless(s, unit))
    requires forall w :: 0 <= w < |s.workers| && Live(s.workers[w]) ==> Alone(s, w)
    ensures DueUnit(Apply(s, a), unit)
  {
    if Outside(a) {
      OutsideEffect(s, a, unit);
      OutsideKeepsWorkers(s, a);
      DueFrame(s, Apply(s, a), unit);
    } else if a.Check? {
      CheckKeepsDue(s, a.svc, a.seen, unit);
    } else if a.Reserve? {
      ReserveKeepsDue(s, unit);
    } else if a.Evaluate? {
      if s.pending.None? { EvaluateKeepsDue(s, a.svc, a.seen, unit); }
    } else if a.w < |s.workers| {
      ProgressKeepsDue(s, a.w, a.ok, unit);
    }
  }

  lemma {:induction false} HarmlessRunStaysDue(s: System, run: seq<Action>, unit: string)
    requires Inv(s) && DueUnit(s, unit) && HarmlessRun(s, run, unit)
    ensures Inv(Run(s, run)) && DueUnit(Run(s, run), unit)
  {
    if run != [] {
      var t := Run(s, run[..|run| - 1]);
      HarmlessRunStaysDue(s, run[..|run| - 1], unit);
      InvKept(t, run[|run| - 1]);
      InvGives(t, unit);
      forall w | 0 <= w < |t.workers| && Live(t.workers[w]) ensures Alone(t, w) { SingleFlightAlone(t, w); }
      DueKept(t, run[|run| - 1], unit);
    }
  }

  // Over every run whose reservations are harmless, however stale, the sharp bound holds.
  lemma HarmlessRunsArePaced(now: nat, run: seq<Action>, unit: string)
    requires HarmlessRun(Init(now), run, unit)
    ensures DueUnit(Run(Init(now), run), unit) && Paced(Streak(Run(Init(now), run).log, unit))
  {
    InitInv(now);
    HarmlessRunStaysDue(Init(now), run, unit);
  }

  lemma {:induction false} TimelyRunsAreHarmless(s: System, run: seq<Action>, unit: string)
    requires TimelyRun(s, run, unit)
    ensures HarmlessRun(s, run, unit)
  {
    if run != [] { TimelyRunsAreHarmless(s, run[..|run| - 1], unit); }
  }

  // The n-th failure since the last reset comes at least 750 + 3600 (n - 5) seconds after the first.
  lemma NthFailureIsLate(now: nat, run: seq<Action>, unit: string, n: nat)
    requires HarmlessRun(Init(now), run, unit)
    requires 5 <= n <= |Streak(Run(Init(now), run).log, unit)|
    ensures var failures := Streak(Run(Init(now), run).log, unit);
      failures[n - 1] >= failures[0] + Seconds(750 + 3600 * (n - 5))
  {
    HarmlessRunsArePaced(now, run, unit);
    PacedTotal(Streak(Run(Init(now), run).log, unit), n);
  }

  // ---- A harmful reservation can break the pacing --------------------------------------

  // Goroutine w waits out its delay and then its start fails.
  function FailAfter(w: nat, delay: nat): seq<Action> {
    [Progress(w, true), Advance(delay), Progress(w, true), Progress(w, false)]
  }

  lemma RunFour(s: System, x: Action, y: Action, z: Action, u: Action)
    ensures Run(s, [x, y, z, u]) == Apply(Apply(Apply(Apply(s, x), y), z), u)
  {
    assert [x, y, z, u] == [x, y, z] + [u];
    RunAppend(s, [x, y, z], u);
    RunThree(s, x, y, z);
  }

  lemma {:induction false} NoReservationNoHarm(s: System, run: seq<Action>, unit: string)
    requires forall i :: 0 <= i < |run| ==> !run[i].Reserve?
    ensures HarmlessRun(s, run, unit)
  {
    if run != [] { NoReservationNoHarm(s, run[..|run| - 1], unit); }
  }

  lemma WaitAndStart(s: System, w: nat) returns (t: System)
    requires w < |s.workers| && s.workers[w].phase == Dispatched
    ensures var d := Delay(s.workers[w].svc);
      t == Apply(Apply(Apply(s, Progress(w, true)), Advance(d)), Progress(w, true))
    ensures w < |t.workers| && t.workers[w] == Worker(s.workers[w].svc, Starting)
    ensures t.clock == s.clock + Delay(s.workers[w].svc) && t.log == s.log + [StartIssued(s.workers[w].svc.unit)]
  {
    var d := Delay(s.workers[w].svc);
    var u := Apply(s, Progress(w, true));
    assert u == Move(s, w, Delaying(s.clock + d));
    var v := u.(clock := s.clock + d);
    assert Apply(u, Advance(d)) == v;
    t := Move(v, w, Starting).(log := s.log + [StartIssued(s.workers[w].svc.unit)]);
  }

  lemma FailAfterEffect(s: System, w: nat)
    requires w < |s.workers| && s.workers[w].phase == Dispatched
    ensures var svc := s.workers[w].svc;
      Streak(Run(s, FailAfter(w, Delay(svc))).log, svc.unit) == Streak(s.log, svc.unit) + [s.clock + Delay(svc)]
  {
    var svc := s.workers[w].svc;
    var d := Delay(svc);
    var t := WaitAndStart(s, w);
    FailAfterRuns(s, w, d);
    StartFails(t, w);
    StartLeavesStreak(s.log, t.log, svc.unit);
  }

  lemma FailAfterRuns(s: System, w: nat, d: nat)
    ensures Run(s, FailAfter(w, d))
      == Apply(Apply(Apply(Apply(s, Progress(w, true)), Advance(d)), Progress(w, true)), Progress(w, false))
  {
    RunFour(s, Progress(w, true), Advance(d), Progress(w, true), Progress(w, false));
  }

  lemma StartLeavesStreak(log: seq<Event>, later: seq<Event>, unit: string)
    requires later == log + [StartIssued(unit)]
    ensures Streak(later, unit) == Streak(log, unit)
  {
    StreakSnoc(log, StartIssued(unit), unit);
  }

  lemma StartFails(s: System, w: nat)
    requires w < |s.workers| && s.workers[w].phase == Starting
    ensures var unit := s.workers[w].svc.unit;
      Streak(Apply(s, Progress(w, false)).log, unit) == Streak(s.log, unit) + [s.clock]
  {
    StreakSnoc(s.log, FailureRecorded(s.workers[w].svc.unit, s.clock), s.workers[w].svc.unit);
  }

  lemma EarlyFailureIsNotPaced(failures: seq<Time>, at: Time)
    requires 0 <= at < RetryAt(failures)
    ensures !Paced(failures + [at])
  {
    var k, longer := |failures| - 1, failures + [at];
    assert longer[k + 1] < longer[k] + Backoff(k + 1);
  }

  ghost predicate BreaksPacing(s: System, rest: seq<Action>, unit: string) {
    HarmlessRun(s, rest, unit) && !Paced(Streak(Run(s, rest).log, unit))
  }

  lemma EarlyRestartBreaksPacing(s: System, unit: string) returns (rest: seq<Action>)
    requires s.clock >= 0 && BreakerAgrees(s, unit)
    requires s.pending.Some? && s.pending.value.unit == unit && unit !in s.inFlight
    requires s.clock + Delay(s.pending.value) < Entry(s.breaker, unit).backoffUntil
    ensures BreaksPacing(DoReserve(s), rest, unit)
  {
    var svc, t := s.pending.value, DoReserve(s);
    rest := FailAfter(|s.workers|, Delay(svc));
    assert t.workers[|s.workers|] == Worker(svc, Dispatched);
    NoReservationNoHarm(t, rest, unit);
    FailAfterEffect(t, |s.workers|);
    EarlyFailureIsNotPaced(Streak(s.log, unit), s.clock + Delay(svc));
  }

  lemma LateRestartKeepsPacing(s: System, unit: string, rest: seq<Action>)
    requires Inv(s) && DueUnit(s, unit) && Harmless(s, unit)
    ensures !BreaksPacing(DoReserve(s), rest, unit)
  {
    InvGives(s, unit);
    ReserveKeepsDue(s, unit);
    InvKept(s, Reserve);
    if HarmlessRun(DoReserve(s), rest, unit) { HarmlessRunStaysDue(DoReserve(s), rest, unit); }
  }

  // A reservation that dispatches a restart has a continuation, itself without a harmful reservation, that breaks
  // the pacing exactly when the delay of the restart ends before the wait imposed by then.
  lemma ReservationBreaksPacingExactlyWhen(s: System, unit: string)
    requires Inv(s) && DueUnit(s, unit) && s.pending.Some? && s.pending.value.unit == unit && unit !in s.inFlight
    ensures (exists rest :: BreaksPacing(DoReserve(s), rest, unit))
      <==> s.clock + Delay(s.pending.value) < Entry(s.breaker, unit).backoffUntil
  {
    if s.clock + Delay(s.pending.value) < Entry(s.breaker, unit).backoffUntil {
      InvGives(s, unit);
      var rest := EarlyRestartBreaksPacing(s, unit);
    } else {
      forall rest ensures !BreaksPacing(DoReserve(s), rest, unit) { LateRestartKeepsPacing(s, unit, rest); }
    }
  }
}
