// A user's stop against the monitor's restarts, over every run
// (cmd/daemon/api.go, lines 313-327; cmd/daemon/monitor.go, lines 453-550).
module UserStop {
  import opened Domain
  import opened Breaker
  import opened Supervisor
  import Pacing

  // Goroutines for the unit that have not issued their start yet.
  function BeforeStart(workers: seq<Worker>, unit: string): nat {
    if workers == [] then 0
    else BeforeStart(workers[..|workers| - 1], unit) + Unstarted(workers[|workers| - 1], unit)
  }

  function Unstarted(w: Worker, unit: string): nat {
    if w.svc.unit == unit && (w.phase.Dispatched? || w.phase.Delaying?) then 1 else 0
  }

  function Reserving(pending: Option<Service>, unit: string): nat {
    if pending.Some? && pending.value.unit == unit then 1 else 0
  }

  // Starts of the unit issued so far plus those already on their way.
  function Committed(s: System, unit: string): nat {
    Starts(s.log, unit) + BeforeStart(s.workers, unit) + Reserving(s.pending, unit)
  }

  // Nothing the user does lifts the stop, and no entry the monitor reads has
  // policy always; the unit stays configured.
  predicate Quiet(a: Action, unit: string) {
    match a
    case Check(svc, _) => svc.unit == unit ==> svc.restart != Always
    case Evaluate(svc, _) => svc.unit == unit ==> svc.restart != Always
    case UserStart(units) => unit !in units
    case Enable(u) => u != unit
    case DaemonRestart(known) => unit in known
    case _ => true
  }

  lemma {:induction false} BeforeStartUpdate(workers: seq<Worker>, i: nat, w: Worker, unit: string)
    requires i < |workers|
    ensures BeforeStart(workers[i := w], unit)
      == BeforeStart(workers, unit) - Unstarted(workers[i], unit) + Unstarted(w, unit)
  {
    var last := |workers| - 1;
    if i == last {
      assert workers[i := w][..last] == workers[..last];
    } else {
      assert workers[i := w][..last] == workers[..last][i := w];
      BeforeStartUpdate(workers[..last], i, w, unit);
    }
  }

  // Under single flight at most one of them exists.
  lemma {:induction false} BeforeStartAtMostOne(workers: seq<Worker>, unit: string)
    requires forall i, j :: 0 <= i < j < |workers| && Live(workers[i]) && Live(workers[j]) ==>
      workers[i].svc.unit != workers[j].svc.unit
    ensures BeforeStart(workers, unit) <= 1
    ensures BeforeStart(workers, unit) == 1 ==>
      exists i :: 0 <= i < |workers| && Live(workers[i]) && workers[i].svc.unit == unit
  {
    if workers != [] {
      var last := |workers| - 1;
      var init := workers[..last];
      BeforeStartAtMostOne(init, unit);
      if BeforeStart(init, unit) == 1 {
        var i :| 0 <= i < |init| && Live(init[i]) && init[i].svc.unit == unit;
        assert Live(workers[i]) && workers[i].svc.unit == unit;
      }
      if Unstarted(workers[last], unit) == 1 {
        assert Live(workers[last]);
      }
    }
  }

  lemma ReserveCommitsNothing(s: System, unit: string)
    ensures Committed(DoReserve(s), unit) <= Committed(s, unit)
  {
    if s.pending.Some? && s.pending.value.unit !in s.inFlight {
      var w := Worker(s.pending.value, Dispatched);
      assert (s.workers + [w])[..|s.workers|] == s.workers;
    }
  }

  lemma CheckCommitsNothing(s: System, svc: Service, seen: Observation, unit: string)
    requires unit in s.userStopped
    requires svc.unit == unit ==> svc.restart != Always
    ensures Committed(DoCheck(s, svc, seen), unit) == Committed(s, unit)
  {
    StartsSnoc(s.log, BreakerReset(svc.unit), unit);
  }

  // What a step of one goroutine with at most one event does to the count.
  lemma WorkerStep(s: System, t: System, w: nat, events: seq<Event>, unit: string)
    requires w < |s.workers| && |t.workers| == |s.workers| && t.workers == s.workers[w := t.workers[w]]
    requires |events| <= 1 && t.log == s.log + events && t.pending == s.pending
    ensures Committed(t, unit) == Committed(s, unit) - Unstarted(s.workers[w], unit) + Unstarted(t.workers[w], unit)
                                  + if events == [StartIssued(unit)] then 1 else 0
  {
    BeforeStartUpdate(s.workers, w, t.workers[w], unit);
    if events == [] {
      assert t.log == s.log;
    } else {
      assert events == [events[0]];
      StartsSnoc(s.log, events[0], unit);
    }
  }

  lemma EndCommitsNothing(s: System, t: System, w: nat, unit: string)
    requires w < |s.workers| && (t == Finish(s, w) || t == FinishFailed(s, w) || t == FinishSettled(s, w))
    ensures Committed(t, unit) <= Committed(s, unit)
  {
    var u := s.workers[w].svc.unit;
    WorkerStep(s, t, w, if t == Finish(s, w) then [] else if t == FinishFailed(s, w) then [FailureRecorded(u, s.clock)]
                        else [BreakerReset(u)], unit);
  }

  lemma MoveCommitsNothing(s: System, t: System, w: nat, phase: Phase, unit: string)
    requires w < |s.workers| && !phase.Dispatched? && (phase.Delaying? ==> s.workers[w].phase == Dispatched)
    requires t == Move(s, w, phase) ||
             (s.workers[w].phase.Delaying? && phase == Starting
              && t == Move(s, w, phase).(log := s.log + [StartIssued(s.workers[w].svc.unit)]))
    ensures Committed(t, unit) <= Committed(s, unit)
  {
    WorkerStep(s, t, w, if t == Move(s, w, phase) then [] else [StartIssued(s.workers[w].svc.unit)], unit);
  }

  lemma ProgressCommitsNothing(s: System, w: nat, ok: bool, unit: string)
    requires w < |s.workers|
    ensures Committed(DoProgress(s, w, ok), unit) <= Committed(s, unit)
  {
    var t := DoProgress(s, w, ok);
    if t == s {
    } else if t == Finish(s, w) || t == FinishFailed(s, w) || t == FinishSettled(s, w) {
      EndCommitsNothing(s, t, w, unit);
    } else {
      MoveCommitsNothing(s, t, w, t.workers[w].phase, unit);
    }
  }

  lemma StaysStopped(s: System, a: Action, unit: string)
    requires unit in s.userStopped && Quiet(a, unit)
    ensures unit in Apply(s, a).userStopped
  {}

  // A stopped unit stays stopped and no step commits the monitor to a further start.
  lemma QuietStep(s: System, a: Action, unit: string)
    requires unit in s.userStopped && Quiet(a, unit)
    ensures unit in Apply(s, a).userStopped
    ensures Committed(Apply(s, a), unit) <= Committed(s, unit)
  {
    StaysStopped(s, a, unit);
    if a.Check? {
      CheckCommitsNothing(s, a.svc, a.seen, unit);
    } else if a.Reserve? {
      ReserveCommitsNothing(s, unit);
    } else if a.Evaluate? {
      CheckCommitsNothing(s, a.svc, a.seen, unit);
      ReserveCommitsNothing(DoCheck(s, a.svc, a.seen), unit);
    } else if a.Progress? {
      if a.w < |s.workers| { ProgressCommitsNothing(s, a.w, a.ok, unit); }
    } else {
      OutsideCommitsNothing(s, a, unit);
    }
  }

  lemma OutsideCommitsNothing(s: System, a: Action, unit: string)
    requires !a.Check? && !a.Reserve? && !a.Evaluate? && !a.Progress?
    ensures Committed(Apply(s, a), unit) <= Committed(s, unit)
  {
    match a
    case Cancel(w) => if w < |s.workers| { EndCommitsNothing(s, Finish(s, w), w, unit); }
    case Enable(u) => StartsSnoc(s.log, BreakerReset(u), unit);
    case DaemonRestart(known) => StartsSnoc(s.log, ProcessStarted, unit);
    case _ =>
  }

  lemma {:induction false} QuietRun(s: System, run: seq<Action>, unit: string)
    requires unit in s.userStopped
    requires forall i :: 0 <= i < |run| ==> Quiet(run[i], unit)
    ensures unit in Run(s, run).userStopped
    ensures Committed(Run(s, run), unit) <= Committed(s, unit)
  {
    if run != [] {
      var before := run[..|run| - 1];
      QuietRun(s, before, unit);
      QuietStep(Run(s, before), run[|run| - 1], unit);
    }
  }

  ghost predicate QuietRest(rest: seq<Action>, unit: string) {
    forall i :: 0 <= i < |rest| ==> Quiet(rest[i], unit)
  }

  // The state a stop leaves, after any run.
  function AfterStop(now: nat, past: seq<Action>, stopped: set<string>): System {
    Apply(Run(Init(now), past), UserStop(stopped))
  }

  // After a stop the monitor issues no more starts of the unit over the rest of the run than
  // there are restarts of it still before their start: at most one goroutine, and a
  // reservation if the stop lands inside a split evaluation.
  lemma UserStopWins(now: nat, past: seq<Action>, stopped: set<string>, rest: seq<Action>, unit: string)
    requires unit in stopped && QuietRest(rest, unit)
    ensures var s := AfterStop(now, past, stopped);
      var later := Starts(Run(s, rest).log, unit) - Starts(s.log, unit);
      && unit in Run(s, rest).userStopped
      && later <= BeforeStart(s.workers, unit) + Reserving(s.pending, unit)
      && BeforeStart(s.workers, unit) <= 1 && Reserving(s.pending, unit) <= 1
      && (later > Reserving(s.pending, unit) ==> unit in s.inFlight)
  {
    InvAlways(now, past);
    var s := AfterStop(now, past, stopped);
    QuietRun(s, rest, unit);
    BeforeStartAtMostOne(s.workers, unit);
  }

  // ---- The starts that a stop does not prevent -------------------------------------------

  // Some quiet continuation issues exactly n further starts.
  ghost predicate CanIssue(s: System, unit: string, n: nat) {
    exists rest :: QuietRest(rest, unit) && Starts(Run(s, rest).log, unit) == Starts(s.log, unit) + n
  }

  lemma CanIssueNone(s: System, unit: string)
    ensures CanIssue(s, unit, 0)
  {
    assert QuietRest([], unit) && Run(s, []) == s;
  }

  lemma StepFirst(s: System, a: Action, unit: string, m: nat, n: nat)
    requires Quiet(a, unit) && Starts(Apply(s, a).log, unit) == Starts(s.log, unit) + m
    requires CanIssue(Apply(s, a), unit, n)
    ensures CanIssue(s, unit, m + n)
  {
    var rest :| QuietRest(rest, unit) && Starts(Run(Apply(s, a), rest).log, unit) == Starts(Apply(s, a).log, unit) + n;
    RunOne(s, a);
    Pacing.RunConcat(s, [a], rest);
    assert QuietRest([a] + rest, unit);
  }

  lemma RunOne(s: System, a: Action)
    ensures Run(s, [a]) == Apply(s, a)
  {
    assert [a][..0] == [];
  }

  ghost predicate IsAt(s: System, w: nat, unit: string, phase: Phase) {
    w < |s.workers| && s.workers[w].svc.unit == unit && s.workers[w].phase == phase
  }

  // A reservation whose unit is free becomes a goroutine.
  lemma FreeReservation(s: System, unit: string)
    requires Reserving(s.pending, unit) == 1 && unit !in s.inFlight
    ensures CanIssue(s, unit, 1)
    decreases Reserving(s.pending, unit), 0
  {
    var t := Apply(s, Reserve);
    assert IsAt(t, |s.workers|, unit, Dispatched) && t.pending == None && t.log == s.log;
    DispatchedIssues(t, |s.workers|, unit);
    StepFirst(s, Reserve, unit, 0, 1);
  }

  // The goroutine that holds the unit fails first.
  lemma BusyReservation(s: System, w: nat, unit: string)
    requires Reserving(s.pending, unit) == 1 && IsAt(s, w, unit, Starting)
    ensures CanIssue(s, unit, 1)
    decreases Reserving(s.pending, unit), 1
  {
    var fails := Progress(w, false);
    assert Apply(s, fails) == FinishFailed(s, w);
    StartsSnoc(s.log, FailureRecorded(unit, s.clock), unit);
    FreeReservation(FinishFailed(s, w), unit);
    StepFirst(s, fails, unit, 0, 1);
  }

  lemma SettlingReservation(s: System, w: nat, unit: string, until: Time)
    requires Reserving(s.pending, unit) == 1 && IsAt(s, w, unit, Settling(until))
    ensures CanIssue(s, unit, 1)
  {
    var wait, fails := Advance(if until > s.clock then until - s.clock else 0), Progress(w, false);
    var t := Apply(s, wait);
    assert IsAt(t, w, unit, Settling(until)) && t.clock >= until && t.log == s.log;
    assert Apply(t, fails) == FinishFailed(t, w);
    StartsSnoc(t.log, FailureRecorded(unit, t.clock), unit);
    FreeReservation(FinishFailed(t, w), unit);
    StepFirst(t, fails, unit, 0, 1);
    StepFirst(s, wait, unit, 0, 1);
  }

  // A goroutine before its start issues it, and a reservation of the unit follows once that start has failed.
  lemma DueIssues(s: System, w: nat, unit: string, until: Time)
    requires IsAt(s, w, unit, Delaying(until)) && until <= s.clock
    ensures CanIssue(s, unit, 1 + Reserving(s.pending, unit))
    decreases Reserving(s.pending, unit), 2
  {
    var starts := Progress(w, true);
    var t := Apply(s, starts);
    assert t == Move(s, w, Starting).(log := s.log + [StartIssued(unit)]);
    StartsSnoc(s.log, StartIssued(unit), unit);
    if Reserving(s.pending, unit) == 1 { BusyReservation(t, w, unit); } else { CanIssueNone(t, unit); }
    StepFirst(s, starts, unit, 1, Reserving(s.pending, unit));
  }

  lemma DelayingIssues(s: System, w: nat, unit: string, until: Time)
    requires IsAt(s, w, unit, Delaying(until))
    ensures CanIssue(s, unit, 1 + Reserving(s.pending, unit))
    decreases Reserving(s.pending, unit), 3
  {
    var wait := Advance(if until > s.clock then until - s.clock else 0);
    var t := Apply(s, wait);
    assert IsAt(t, w, unit, Delaying(until)) && t.clock >= until && t.log == s.log && t.pending == s.pending;
    DueIssues(t, w, unit, until);
    StepFirst(s, wait, unit, 0, 1 + Reserving(s.pending, unit));
  }

  lemma DispatchedIssues(s: System, w: nat, unit: string)
    requires IsAt(s, w, unit, Dispatched)
    ensures CanIssue(s, unit, 1 + Reserving(s.pending, unit))
    decreases Reserving(s.pending, unit), 4
  {
    var checks, until := Progress(w, true), s.clock + Delay(s.workers[w].svc);
    var t := Apply(s, checks);
    assert t == Move(s, w, Delaying(until));
    DelayingIssues(t, w, unit, until);
    StepFirst(s, checks, unit, 0, 1 + Reserving(s.pending, unit));
  }

  lemma {:induction false} UnstartedOne(workers: seq<Worker>, unit: string) returns (w: nat)
    requires BeforeStart(workers, unit) > 0
    ensures w < |workers| && Unstarted(workers[w], unit) == 1
  {
    if Unstarted(workers[|workers| - 1], unit) == 1 { w := |workers| - 1; }
    else { w := UnstartedOne(workers[..|workers| - 1], unit); }
  }

  lemma {:induction false} NoneUnstarted(workers: seq<Worker>, unit: string, w: nat)
    requires BeforeStart(workers, unit) == 0 && w < |workers|
    ensures Unstarted(workers[w], unit) == 0
  {
    if w < |workers| - 1 { NoneUnstarted(workers[..|workers| - 1], unit, w); }
  }

  lemma AllCommittedCanBeIssued(s: System, unit: string)
    requires SingleFlight(s)
    ensures CanIssue(s, unit, BeforeStart(s.workers, unit) + Reserving(s.pending, unit))
  {
    BeforeStartAtMostOne(s.workers, unit);
    if BeforeStart(s.workers, unit) == 1 {
      var w := UnstartedOne(s.workers, unit);
      if s.workers[w].phase.Dispatched? { DispatchedIssues(s, w, unit); }
      else { DelayingIssues(s, w, unit, s.workers[w].phase.until); }
    } else if Reserving(s.pending, unit) == 0 {
      CanIssueNone(s, unit);
    } else if unit !in s.inFlight {
      FreeReservation(s, unit);
    } else {
      var w :| 0 <= w < |s.workers| && Live(s.workers[w]) && s.workers[w].svc.unit == unit;
      NoneUnstarted(s.workers, unit, w);
      if s.workers[w].phase.Starting? { BusyReservation(s, w, unit); }
      else { SettlingReservation(s, w, unit, s.workers[w].phase.until); }
    }
  }

  // The bound of UserStopWins is reached, so a start can follow a stop exactly when a restart of
  // the unit is before its start: as a goroutine or as a reservation to be made.
  lemma StartFollowsStopExactlyWhen(now: nat, past: seq<Action>, stopped: set<string>, unit: string)
    requires unit in stopped
    ensures var s := AfterStop(now, past, stopped);
      CanIssue(s, unit, BeforeStart(s.workers, unit) + Reserving(s.pending, unit))
    ensures var s := AfterStop(now, past, stopped);
      (exists rest :: QuietRest(rest, unit) && Starts(Run(s, rest).log, unit) > Starts(s.log, unit))
      <==> BeforeStart(s.workers, unit) + Reserving(s.pending, unit) > 0
  {
    var s := AfterStop(now, past, stopped);
    InvAlways(now, past);
    InvKept(Run(Init(now), past), UserStop(stopped));
    AllCommittedCanBeIssued(s, unit);
    var n := BeforeStart(s.workers, unit) + Reserving(s.pending, unit);
    var all :| QuietRest(all, unit) && Starts(Run(s, all).log, unit) == Starts(s.log, unit) + n;
    forall rest | QuietRest(rest, unit) ensures Starts(Run(s, rest).log, unit) <= Starts(s.log, unit) + n {
      QuietRun(s, rest, unit);
    }
  }

  // The allowance is needed: a restart under way does not read the flag again.
  lemma RestartUnderWayIgnoresTheStop(s: System, w: nat, unit: string)
    requires w < |s.workers| && s.workers[w].svc.unit == unit
    requires s.workers[w].phase.Delaying? && s.workers[w].phase.until <= s.clock
    ensures var t := Apply(s, UserStop({unit}));
      Starts(Apply(t, Progress(w, true)).log, unit) == Starts(t.log, unit) + 1
  {
    StartsSnoc(s.log, StartIssued(unit), unit);
  }

  // Such a restart exists: the monitor evaluates a service that is down, the goroutine waits out its delay, the user
  // stops the unit, and the start is issued.
  function UnderWay(svc: Service, seen: Observation): seq<Action> {
    [Evaluate(svc, seen), Progress(0, true), Advance(Delay(svc))]
  }

  lemma StopCanComeTooLate(now: nat, svc: Service, seen: Observation)
    requires Managed(svc) && ShouldRestart(svc, {}, seen.exitedWithFailure) && !seen.active && seen.mountsPresent
    ensures var s := Apply(Run(Init(now), UnderWay(svc, seen)), UserStop({svc.unit}));
      svc.unit in s.userStopped
      && Starts(Run(s, [Progress(0, true)]).log, svc.unit) == Starts(s.log, svc.unit) + 1
  {
    var d := Delay(svc);
    var evaluate, progress, advance := Evaluate(svc, seen), Progress(0, true), Advance(d);
    var t := Apply(Init(now), evaluate);
    assert t.workers == [Worker(svc, Dispatched)];
    var u := Apply(t, progress);
    assert u.workers == [Worker(svc, Delaying(now + d))];
    var v := Apply(u, advance);
    assert v == u.(clock := now + d);
    Pacing.RunThree(Init(now), evaluate, progress, advance);
    RestartUnderWayIgnoresTheStop(v, 0, svc.unit);
    var s := Apply(v, UserStop({svc.unit}));
    RunOne(s, progress);
  }
}
