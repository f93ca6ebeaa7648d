// The monitor loop and its restart goroutines as a transition system
// (cmd/daemon/monitor.go, lines 403-582).
//
// Every action is one atomic step of the monitor goroutine, of one restart
// goroutine, of the API or of the clock. What a step observes (unit state, exit
// status, mounts, dependency state, outcome of systemctl) is part of the action,
// so a run fixes no environment at all: each theorem holds for every one. An
// action whose guard is false changes nothing, so any sequence of actions is a run.
module Supervisor {
  import opened Domain
  import opened Breaker

  // Where a restart goroutine is.
  datatype Phase =
    | Dispatched             // before the first dependency check
    | Delaying(until: Time)  // sleeping for restart_delay
    | Starting               // systemctl start issued
    | Settling(until: Time)  // sleeping before the final check
    | Done

  // The goroutine keeps its own copy of the service entry.
  datatype Worker = Worker(svc: Service, phase: Phase)

  datatype Event =
    | FailureRecorded(unit: string, at: Time)
    | BreakerReset(unit: string)
    | StartIssued(unit: string)
    | ProcessStarted

  datatype System = System(
    clock: Time,
    userStopped: set<string>,
    breaker: Table,
    pending: Option<Service>,  // passed every check, not yet reserved
    inFlight: set<string>,
    workers: seq<Worker>,
    log: seq<Event>)

  // What one evaluation of a service sees.
  datatype Observation = Observation(active: bool, exitedWithFailure: bool, mountsPresent: bool)

  datatype Action =
    | Advance(d: nat)
    // The monitor evaluates the entry it reads: Check covers the tests up to the
    // breaker and the mounts, Reserve the in-flight reservation, Evaluate both at once.
    | Check(svc: Service, seen: Observation)
    | Reserve
    | Evaluate(svc: Service, seen: Observation)
    // One step of goroutine w; ok is what its check or its systemctl call returns.
    | Progress(w: nat, ok: bool)
    | Cancel(w: nat)
    // stop, stop-all / start, start-all, restart / PATCH enabled=true / new daemon process
    | UserStop(units: set<string>)
    | UserStart(units: set<string>)
    | Enable(unit: string)
    | DaemonRestart(known: set<string>)

  const SETTLE := Seconds(10)

  function Init(now: nat): System {
    System(now, {}, map[], None, {}, [], [])
  }

  predicate Managed(svc: Service) {
    svc.enabled && svc.restart != Unset && svc.restart != No
  }

  predicate ShouldRestart(svc: Service, userStopped: set<string>, exitedWithFailure: bool) {
    match svc.restart
    case Always => true
    case UnlessStopped => svc.unit !in userStopped
    case OnFailure => svc.unit !in userStopped && exitedWithFailure
    case _ => false
  }

  function DoCheck(s: System, svc: Service, seen: Observation): System {
    if s.pending.Some? || !Managed(svc) then s
    else if seen.active then
      s.(breaker := Cleared(s.breaker, svc.unit), log := s.log + [BreakerReset(svc.unit)])
    else if !ShouldRestart(svc, s.userStopped, seen.exitedWithFailure) then s
    else
      var t := s.(breaker := Touched(s.breaker, svc.unit));
      if Open(s.breaker, svc.unit, s.clock) || !seen.mountsPresent then t
      else t.(pending := Some(svc))
  }

  function DoReserve(s: System): System {
    match s.pending
    case None => s
    case Some(svc) =>
      var t := s.(pending := None);
      if svc.unit in s.inFlight then t
      else t.(inFlight := s.inFlight + {svc.unit}, workers := s.workers + [Worker(svc, Dispatched)])
  }

  function Move(s: System, w: nat, phase: Phase): System
    requires w < |s.workers|
  {
    s.(workers := s.workers[w := s.workers[w].(phase := phase)])
  }

  // The goroutine returns and its deferred delete releases the unit.
  function Finish(s: System, w: nat): System
    requires w < |s.workers|
  {
    Move(s, w, Done).(inFlight := s.inFlight - {s.workers[w].svc.unit})
  }

  function FinishFailed(s: System, w: nat): System
    requires w < |s.workers|
  {
    var unit := s.workers[w].svc.unit;
    Finish(s, w).(breaker := Failed(s.breaker, unit, s.clock),
                  log := s.log + [FailureRecorded(unit, s.clock)])
  }

  function FinishSettled(s: System, w: nat): System
    requires w < |s.workers|
  {
    var unit := s.workers[w].svc.unit;
    Finish(s, w).(breaker := Cleared(s.breaker, unit), log := s.log + [BreakerReset(unit)])
  }

  // What the goroutine sleeps before it starts the unit.
  function Delay(svc: Service): (d: int)
    ensures d >= 0
  {
    if svc.restartDelay > 0 then Seconds(svc.restartDelay) else 0
  }

  function DoProgress(s: System, w: nat, ok: bool): System
    requires w < |s.workers|
  {
    var svc := s.workers[w].svc;
    match s.workers[w].phase
    case Dispatched =>
      if !ok then Finish(s, w)
      else Move(s, w, Delaying(s.clock + Delay(svc)))
    case Delaying(until) =>
      if s.clock < until then s
      else if !ok then Finish(s, w)
      else Move(s, w, Starting).(log := s.log + [StartIssued(svc.unit)])
    case Starting =>
      if !ok then FinishFailed(s, w) else Move(s, w, Settling(s.clock + SETTLE))
    case Settling(until) =>
      if s.clock < until then s
      else if !ok then FinishFailed(s, w)
      else FinishSettled(s, w)
    case Done => s
  }

  function Apply(s: System, a: Action): System {
    match a
    case Advance(d) => s.(clock := s.clock + d)
    case Check(svc, seen) => DoCheck(s, svc, seen)
    case Reserve => DoReserve(s)
    case Evaluate(svc, seen) => if s.pending.Some? then s else DoReserve(DoCheck(s, svc, seen))
    case Progress(w, ok) => if w < |s.workers| then DoProgress(s, w, ok) else s
    case Cancel(w) =>
      if w < |s.workers| && (s.workers[w].phase.Delaying? || s.workers[w].phase.Settling?)
      then Finish(s, w) else s
    case UserStop(units) => s.(userStopped := s.userStopped + units)
    case UserStart(units) => s.(userStopped := s.userStopped - units)
    case Enable(unit) =>
      s.(userStopped := s.userStopped - {unit}, breaker := Cleared(s.breaker, unit),
         log := s.log + [BreakerReset(unit)])
    case DaemonRestart(known) =>
      s.(userStopped := s.userStopped * known, breaker := map[], pending := None,
         inFlight := {}, workers := [], log := s.log + [ProcessStarted])
  }

  function Run(s: System, run: seq<Action>): System {
    if run == [] then s else Apply(Run(s, run[..|run| - 1]), run[|run| - 1])
  }

  // ---- What the history says ------------------------------------------------

  // Instants of the failures recorded for a unit since its last reset.
  function Streak(log: seq<Event>, unit: string): seq<Time> {
    if log == [] then [] else Extend(Streak(log[..|log| - 1], unit), log[|log| - 1], unit)
  }

  function Extend(failures: seq<Time>, e: Event, unit: string): seq<Time> {
    match e
    case FailureRecorded(u, at) => if u == unit then failures + [at] else failures
    case BreakerReset(u) => if u == unit then [] else failures
    case ProcessStarted => []
    case StartIssued(_) => failures
  }

  lemma StreakSnoc(log: seq<Event>, e: Event, unit: string)
    ensures Streak(log + [e], unit) == Extend(Streak(log, unit), e, unit)
  {
    assert (log + [e])[..|log|] == log;
  }

  // The earliest instant at which the next attempt may follow these failures.
  function RetryAt(failures: seq<Time>): Time {
    if |failures| <= 1 then ZERO_TIME else failures[|failures| - 1] + Backoff(|failures|)
  }

  // How many starts of the unit the monitor has issued.
  function Starts(log: seq<Event>, unit: string): nat {
    if log == [] then 0
    else Starts(log[..|log| - 1], unit) + if log[|log| - 1] == StartIssued(unit) then 1 else 0
  }

  lemma StartsSnoc(log: seq<Event>, e: Event, unit: string)
    ensures Starts(log + [e], unit) == Starts(log, unit) + if e == StartIssued(unit) then 1 else 0
  {
    assert (log + [e])[..|log|] == log;
  }

  // ---- Invariants of every run ----------------------------------------------

  predicate Live(w: Worker) { !w.phase.Done? }

  // One restart goroutine per unit, and exactly the reserved units have one.
  ghost predicate SingleFlight(s: System) {
    && (forall i :: 0 <= i < |s.workers| && Live(s.workers[i]) ==> s.workers[i].svc.unit in s.inFlight)
    && (forall u :: u in s.inFlight ==>
          exists i :: 0 <= i < |s.workers| && Live(s.workers[i]) && s.workers[i].svc.unit == u)
    && (forall i, j :: 0 <= i < j < |s.workers| && Live(s.workers[i]) && Live(s.workers[j]) ==>
          s.workers[i].svc.unit != s.workers[j].svc.unit)
  }

  // A breaker entry holds what the failures of the history say.
  ghost predicate Agrees(e: UnitBreaker, failures: seq<Time>, now: Time) {
    && e == UnitBreaker(|failures|, RetryAt(failures))
    && (forall i, j :: 0 <= i < j < |failures| ==> failures[i] <= failures[j])
    && (forall i :: 0 <= i < |failures| ==> 0 <= failures[i] <= now)
  }

  ghost predicate BreakerAgrees(s: System, unit: string) {
    Agrees(Entry(s.breaker, unit), Streak(s.log, unit), s.clock)
  }

  ghost predicate Inv(s: System) {
    && s.clock >= 0
    && SingleFlight(s)
    && forall u :: BreakerAgrees(s, u)
  }

  lemma InitInv(now: nat)
    ensures Inv(Init(now))
  {}

  lemma DispatchKeepsSingleFlight(s: System)
    requires SingleFlight(s)
    ensures SingleFlight(DoReserve(s))
  {
    var t := DoReserve(s);
    if s.pending.Some? && s.pending.value.unit !in s.inFlight {
      forall u | u in t.inFlight
        ensures exists i :: 0 <= i < |t.workers| && Live(t.workers[i]) && t.workers[i].svc.unit == u
      {
        if u in s.inFlight {
          var i :| 0 <= i < |s.workers| && Live(s.workers[i]) && s.workers[i].svc.unit == u;
          assert t.workers[i] == s.workers[i];
        } else {
          assert Live(t.workers[|s.workers|]);
        }
      }
    }
  }

  lemma MoveKeepsSingleFlight(s: System, w: nat, phase: Phase)
    requires SingleFlight(s) && w < |s.workers| && Live(s.workers[w]) && !phase.Done?
    ensures SingleFlight(Move(s, w, phase))
  {
    var t := Move(s, w, phase);
    forall u | u in t.inFlight
      ensures exists i :: 0 <= i < |t.workers| && Live(t.workers[i]) && t.workers[i].svc.unit == u
    {
      var i :| 0 <= i < |s.workers| && Live(s.workers[i]) && s.workers[i].svc.unit == u;
      assert Live(t.workers[i]) && t.workers[i].svc == s.workers[i].svc;
    }
  }

  lemma FinishKeepsSingleFlight(s: System, w: nat)
    requires SingleFlight(s) && w < |s.workers| && Live(s.workers[w])
    ensures SingleFlight(Finish(s, w))
  {
    var t := Finish(s, w);
    forall u | u in t.inFlight
      ensures exists i :: 0 <= i < |t.workers| && Live(t.workers[i]) && t.workers[i].svc.unit == u
    {
      var i :| 0 <= i < |s.workers| && Live(s.workers[i]) && s.workers[i].svc.unit == u;
      assert i != w && t.workers[i] == s.workers[i];
    }
  }

  // Only goroutine w moves, and the unit is released exactly when it is done.
  lemma ProgressMovesOne(s: System, w: nat, ok: bool)
    requires w < |s.workers|
    ensures var t := DoProgress(s, w, ok);
      || (t.workers == s.workers && t.inFlight == s.inFlight)
      || (Live(s.workers[w]) && |t.workers| == |s.workers|
          && t.workers == Move(s, w, t.workers[w].phase).workers
          && t.inFlight == if Live(t.workers[w]) then s.inFlight else s.inFlight - {s.workers[w].svc.unit})
  {}

  lemma ProgressKeepsSingleFlight(s: System, w: nat, ok: bool)
    requires SingleFlight(s) && w < |s.workers|
    ensures SingleFlight(DoProgress(s, w, ok))
  {
    ProgressMovesOne(s, w, ok);
    MovedKeepsSingleFlight(s, w, DoProgress(s, w, ok));
  }

  lemma MovedKeepsSingleFlight(s: System, w: nat, t: System)
    requires SingleFlight(s) && w < |s.workers|
    requires
      || (t.workers == s.workers && t.inFlight == s.inFlight)
      || (Live(s.workers[w]) && |t.workers| == |s.workers|
          && t.workers == Move(s, w, t.workers[w].phase).workers
          && t.inFlight == if Live(t.workers[w]) then s.inFlight else s.inFlight - {s.workers[w].svc.unit})
    ensures SingleFlight(t)
  {
    if t.workers == s.workers && t.inFlight == s.inFlight {
      SameFlight(s, t);
    } else if Live(t.workers[w]) {
      MoveKeepsSingleFlight(s, w, t.workers[w].phase);
      SameFlight(Move(s, w, t.workers[w].phase), t);
    } else {
      FinishKeepsSingleFlight(s, w);
      SameFlight(Finish(s, w), t);
    }
  }

  lemma SameFlight(s: System, t: System)
    requires SingleFlight(s) && t.workers == s.workers && t.inFlight == s.inFlight
    ensures SingleFlight(t)
  {}

  lemma SingleFlightKept(s: System, a: Action)
    requires SingleFlight(s)
    ensures SingleFlight(Apply(s, a))
  {
    var t := Apply(s, a);
    if a.Reserve? {
      DispatchKeepsSingleFlight(s);
    } else if a.Evaluate? && s.pending.None? {
      SameFlight(s, DoCheck(s, a.svc, a.seen));
      DispatchKeepsSingleFlight(DoCheck(s, a.svc, a.seen));
    } else if a.Progress? && a.w < |s.workers| {
      ProgressKeepsSingleFlight(s, a.w, a.ok);
    } else if a.Cancel? && t != s {
      FinishKeepsSingleFlight(s, a.w);
    } else if !a.DaemonRestart? {
      SameFlight(s, t);
    }
  }

  lemma FailureKeepsAgreement(t: Table, failing: string, log: seq<Event>, unit: string, now: Time)
    requires now >= 0 && Agrees(Entry(t, unit), Streak(log, unit), now)
    ensures Agrees(Entry(Failed(t, failing, now), unit), Streak(log + [FailureRecorded(failing, now)], unit), now)
  {
    StreakSnoc(log, FailureRecorded(failing, now), unit);
  }

  lemma ResetKeepsAgreement(t: Table, cleared: string, log: seq<Event>, unit: string, now: Time)
    requires Agrees(Entry(t, unit), Streak(log, unit), now)
    ensures Agrees(Entry(Cleared(t, cleared), unit), Streak(log + [BreakerReset(cleared)], unit), now)
  {
    StreakSnoc(log, BreakerReset(cleared), unit);
  }

  // A step that ends no attempt: at most a start is issued.
  predicate EndsNoAttempt(s: System, w: nat, t: System)
    requires w < |s.workers|
  {
    && (t.log == s.log || t.log == s.log + [StartIssued(s.workers[w].svc.unit)])
    && t.inFlight <= s.inFlight && t.clock == s.clock && t.pending == s.pending && t.breaker == s.breaker
  }

  lemma ProgressCases(s: System, w: nat, ok: bool)
    requires w < |s.workers|
    ensures var t := DoProgress(s, w, ok);
      || (Live(s.workers[w]) && t == FinishFailed(s, w))
      || (Live(s.workers[w]) && t == FinishSettled(s, w))
      || EndsNoAttempt(s, w, t)
  {}

  lemma ProgressKeepsAgreement(s: System, w: nat, ok: bool, unit: string)
    requires s.clock >= 0 && BreakerAgrees(s, unit) && w < |s.workers|
    ensures BreakerAgrees(DoProgress(s, w, ok), unit)
  {
    ProgressCases(s, w, ok);
    ProgressAgrees(s, w, DoProgress(s, w, ok), unit);
  }

  lemma ProgressAgrees(s: System, w: nat, t: System, unit: string)
    requires s.clock >= 0 && BreakerAgrees(s, unit) && w < |s.workers|
    requires t == FinishFailed(s, w) || t == FinishSettled(s, w) || EndsNoAttempt(s, w, t)
    ensures BreakerAgrees(t, unit)
  {
    var u := s.workers[w].svc.unit;
    if EndsNoAttempt(s, w, t) { StreakSnoc(s.log, StartIssued(u), unit); }
    else if t == FinishFailed(s, w) { FailureKeepsAgreement(s.breaker, u, s.log, unit, s.clock); }
    else { ResetKeepsAgreement(s.breaker, u, s.log, unit, s.clock); }
  }

  lemma CheckKeepsAgreement(s: System, svc: Service, seen: Observation, unit: string)
    requires BreakerAgrees(s, unit)
    ensures BreakerAgrees(DoCheck(s, svc, seen), unit)
  {
    ResetKeepsAgreement(s.breaker, svc.unit, s.log, unit, s.clock);
  }

  lemma BreakerAgreementKept(s: System, a: Action, unit: string)
    requires s.clock >= 0 && BreakerAgrees(s, unit)
    ensures BreakerAgrees(Apply(s, a), unit)
  {
    match a
    case Check(svc, seen) => CheckKeepsAgreement(s, svc, seen, unit);
    case Evaluate(svc, seen) => CheckKeepsAgreement(s, svc, seen, unit);
    case Enable(u) => ResetKeepsAgreement(s.breaker, u, s.log, unit, s.clock);
    case Progress(w, ok) =>
      if w < |s.workers| { ProgressKeepsAgreement(s, w, ok, unit); }
    case DaemonRestart(known) => StreakSnoc(s.log, ProcessStarted, unit);
    case _ =>
  }

  lemma InvKept(s: System, a: Action)
    requires Inv(s)
    ensures Inv(Apply(s, a))
  {
    SingleFlightKept(s, a);
    forall u ensures BreakerAgrees(Apply(s, a), u) { BreakerAgreementKept(s, a, u); }
  }

  lemma {:induction false} InvAlways(now: nat, run: seq<Action>)
    ensures Inv(Run(Init(now), run))
  {
    if run == [] {
      InitInv(now);
    } else {
      InvAlways(now, run[..|run| - 1]);
      InvKept(Run(Init(now), run[..|run| - 1]), run[|run| - 1]);
    }
  }
}
