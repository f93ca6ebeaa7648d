// What each step of the supervisor does to the record of a unit, to its starts, to its reservation and to the user's
// marks, and how long a restart sleeps (cmd/daemon/monitor.go, lines 444-582; cmd/daemon/api.go, lines 313-391 and
// 448-457).
module StepEffects {
  import opened Domain
  import opened Breaker
  import opened Supervisor

  // ---- The record of failures ------------------------------------------------------------

  predicate IsWorkerOf(s: System, w: nat, unit: string) {
    w < |s.workers| && s.workers[w].svc.unit == unit
  }

  // The sleep of a settling goroutine is over.
  predicate HasSettled(s: System, w: nat)
    requires w < |s.workers|
  {
    s.workers[w].phase.Settling? && s.workers[w].phase.until <= s.clock
  }

  // A start that fails, or a unit that is down once settled.
  predicate Records(s: System, a: Action, unit: string) {
    a.Progress? && !a.ok && IsWorkerOf(s, a.w, unit) && (s.workers[a.w].phase == Starting || HasSettled(s, a.w))
  }

  // The monitor reads a managed entry of the unit and sees it active.
  predicate SeesActive(s: System, a: Action, unit: string) {
    (a.Check? || a.Evaluate?) && s.pending.None? && a.seen.active
    && a.svc.unit == unit && a.svc.enabled && a.svc.restart in {OnFailure, UnlessStopped, Always}
  }

  predicate Forgets(s: System, a: Action, unit: string) {
    || SeesActive(s, a, unit)
    || (a.Progress? && a.ok && IsWorkerOf(s, a.w, unit) && HasSettled(s, a.w))
    || a == Enable(unit)
    || a.DaemonRestart?
  }

  // The one event that a step adds to the history, if any.
  function Logged(s: System, a: Action): Option<Event> {
    match a
    case Check(svc, _) => if SeesActive(s, a, svc.unit) then Some(BreakerReset(svc.unit)) else None
    case Evaluate(svc, _) => if SeesActive(s, a, svc.unit) then Some(BreakerReset(svc.unit)) else None
    case Progress(w, ok) =>
      if w >= |s.workers| then None
      else
        var u := s.workers[w].svc.unit;
        if Issues(s, a, u) then Some(StartIssued(u))
        else if Records(s, a, u) then Some(FailureRecorded(u, s.clock))
        else if ok && HasSettled(s, w) then Some(BreakerReset(u))
        else None
    case Enable(u) => Some(BreakerReset(u))
    case DaemonRestart(_) => Some(ProcessStarted)
    case _ => None
  }

  lemma LogAfter(s: System, a: Action)
    ensures Apply(s, a).log == match Logged(s, a) case Some(e) => s.log + [e] case None => s.log
  {
    if a.Progress? && a.w < |s.workers| { LogAfterProgress(s, a.w, a.ok); }
  }

  lemma LogAfterProgress(s: System, w: nat, ok: bool)
    requires w < |s.workers|
    ensures DoProgress(s, w, ok).log ==
      match Logged(s, Progress(w, ok)) case Some(e) => s.log + [e] case None => s.log
  {}

  lemma LoggedSays(s: System, a: Action, unit: string, failures: seq<Time>)
    ensures Logged(s, a).None? ==> !Records(s, a, unit) && !Forgets(s, a, unit)
    ensures Logged(s, a).Some? ==>
      Extend(failures, Logged(s, a).value, unit) ==
        if Records(s, a, unit) then failures + [s.clock]
        else if Forgets(s, a, unit) then []
        else failures
  {}

  // The whole effect of a step on the record of a unit.
  lemma RecordAfter(s: System, a: Action, unit: string)
    ensures Streak(Apply(s, a).log, unit) ==
      if Records(s, a, unit) then Streak(s.log, unit) + [s.clock]
      else if Forgets(s, a, unit) then []
      else Streak(s.log, unit)
  {
    LogAfter(s, a);
    LoggedSays(s, a, unit, Streak(s.log, unit));
    if Logged(s, a).Some? { StreakSnoc(s.log, Logged(s, a).value, unit); }
  }

  // A record is forgotten exactly when the unit is seen active, settles or is enabled, or the daemon restarts.
  lemma RecordForgottenExactlyWhen(s: System, a: Action, unit: string)
    requires Streak(s.log, unit) != []
    ensures Streak(Apply(s, a).log, unit) == [] <==>
      || ((a.Check? || a.Evaluate?) && s.pending.None? && a.seen.active
          && a.svc.unit == unit && a.svc.enabled && a.svc.restart != Unset && a.svc.restart != No)
      || (a.Progress? && a.ok && IsWorkerOf(s, a.w, unit) && HasSettled(s, a.w))
      || a == Enable(unit)
      || a.DaemonRestart?
  {
    RecordAfter(s, a, unit);
  }

  ghost predicate NothingRecorded(s: System, run: seq<Action>, unit: string) {
    run != [] ==>
      var before := run[..|run| - 1];
      NothingRecorded(s, before, unit) && !Records(Run(s, before), run[|run| - 1], unit)
  }

  lemma {:induction false} EmptyRecordStays(s: System, run: seq<Action>, unit: string)
    requires Streak(s.log, unit) == [] && NothingRecorded(s, run, unit)
    ensures Streak(Run(s, run).log, unit) == []
  {
    if run != [] {
      var before := run[..|run| - 1];
      EmptyRecordStays(s, before, unit);
      RecordAfter(Run(s, before), run[|run| - 1], unit);
    }
  }

  lemma {:induction false} InvOverRun(s: System, run: seq<Action>)
    requires Inv(s)
    ensures Inv(Run(s, run))
  {
    if run != [] {
      InvOverRun(s, run[..|run| - 1]);
      InvKept(Run(s, run[..|run| - 1]), run[|run| - 1]);
    }
  }

  // The first failure after the record was forgotten is failure 1, and imposes no wait.
  lemma FirstFailureAfterReset(s: System, reset: Action, run: seq<Action>, failure: Action, unit: string)
    requires Inv(s) && Forgets(s, reset, unit)
    requires NothingRecorded(Apply(s, reset), run, unit) && Records(Run(Apply(s, reset), run), failure, unit)
    ensures var t := Run(Apply(s, reset), run); var u := Apply(t, failure);
      && Streak(u.log, unit) == [t.clock]
      && Entry(u.breaker, unit) == UnitBreaker(1, 0)
  {
    var t := Run(Apply(s, reset), run);
    RecordAfter(s, reset, unit);
    EmptyRecordStays(Apply(s, reset), run, unit);
    RecordAfter(t, failure, unit);
    InvKept(s, reset);
    InvOverRun(Apply(s, reset), run);
    InvKept(t, failure);
    assert BreakerAgrees(Apply(t, failure), unit);
  }

  // ---- Starts --------------------------------------------------------------------------------

  // A goroutine whose delay is over and whose dependencies are up.
  predicate Issues(s: System, a: Action, unit: string) {
    a.Progress? && a.ok && IsWorkerOf(s, a.w, unit)
    && s.workers[a.w].phase.Delaying? && s.workers[a.w].phase.until <= s.clock
  }

  lemma StartIsLogged(s: System, a: Action, unit: string)
    ensures Logged(s, a) == Some(StartIssued(unit)) <==> Issues(s, a, unit)
  {}

  lemma StartIssuedExactlyWhen(s: System, a: Action, unit: string)
    ensures Starts(Apply(s, a).log, unit) == Starts(s.log, unit) + if Issues(s, a, unit) then 1 else 0
  {
    LogAfter(s, a);
    StartIsLogged(s, a, unit);
    if Logged(s, a).Some? { StartsSnoc(s.log, Logged(s, a).value, unit); }
  }

  // ---- Reservations ----------------------------------------------------------------------------

  // The wait that these failures impose is over; the first one imposes none.
  predicate IsOver(failures: seq<Time>, now: Time) {
    |failures| <= 1 || now >= failures[|failures| - 1] + Backoff(|failures|)
  }

  // A check lets an entry through exactly when it is managed and down, its policy allows a restart, the recorded
  // wait is over and the mounts are there; whether a restart is in flight is asked by the reservation.
  lemma CheckPassesExactlyWhen(s: System, svc: Service, seen: Observation)
    requires Inv(s) && s.pending.None?
    ensures var t := Apply(s, Check(svc, seen));
      && t.workers == s.workers && t.inFlight == s.inFlight
      && t.pending == if
           && svc.enabled && !seen.active && seen.mountsPresent
           && (|| svc.restart == Always
               || (svc.restart == UnlessStopped && svc.unit !in s.userStopped)
               || (svc.restart == OnFailure && svc.unit !in s.userStopped && seen.exitedWithFailure))
           && IsOver(Streak(s.log, svc.unit), s.clock)
         then Some(svc) else None
  {
    assert BreakerAgrees(s, svc.unit);
  }

  lemma ReservationDispatchesExactlyWhen(s: System)
    ensures var t := Apply(s, Reserve);
      && t.pending == None && t.log == s.log
      && (if s.pending.Some? && s.pending.value.unit !in s.inFlight
          then
            && t.workers == s.workers + [Worker(s.pending.value, Dispatched)]
            && t.inFlight == s.inFlight + {s.pending.value.unit}
          else t.workers == s.workers && t.inFlight == s.inFlight)
  {}

  // The goroutine ends with this step: a dependency is down, its start fails, or it has settled.
  predicate Ends(s: System, w: nat, ok: bool)
    requires w < |s.workers|
  {
    match s.workers[w].phase
    case Dispatched => !ok
    case Delaying(until) => until <= s.clock && !ok
    case Starting => !ok
    case Settling(until) => until <= s.clock
    case Done => false
  }

  predicate Releases(s: System, a: Action, unit: string) {
    || (a.Progress? && IsWorkerOf(s, a.w, unit) && Ends(s, a.w, a.ok))
    || (a.Cancel? && IsWorkerOf(s, a.w, unit)
        && (s.workers[a.w].phase.Delaying? || s.workers[a.w].phase.Settling?))
    || a.DaemonRestart?
  }

  // A unit is released exactly when its goroutine ends, is cancelled in its sleep, or the daemon restarts; a
  // dependency that is down ends it without a record.
  lemma ReleasedExactlyWhen(s: System, a: Action, unit: string)
    requires unit in s.inFlight
    ensures unit !in Apply(s, a).inFlight <==> Releases(s, a, unit)
  {}

  lemma EndedIsDone(s: System, w: nat, ok: bool)
    requires w < |s.workers|
    ensures var t := Apply(s, Progress(w, ok));
      && |t.workers| == |s.workers|
      && (Live(s.workers[w]) ==> (t.workers[w].phase == Done <==> Ends(s, w, ok)))
      && forall i :: 0 <= i < |s.workers| && i != w ==> t.workers[i] == s.workers[i]
  {}

  // A reservation is made by a check, used up by the reservation, and lost with the process.
  lemma PendingAfter(s: System, a: Action)
    requires !a.Check?
    ensures Apply(s, a).pending == if a.Reserve? || a.DaemonRestart? then None else s.pending
  {}

  // A new process knows nothing of restarts under way or of failures.
  lemma NothingSurvivesRestart(s: System, known: set<string>, unit: string)
    ensures var t := Apply(s, DaemonRestart(known));
      && t.workers == [] && t.inFlight == {} && t.pending == None
      && Streak(t.log, unit) == [] && Entry(t.breaker, unit) == UnitBreaker(0, 0)
  {
    RecordAfter(s, DaemonRestart(known), unit);
  }

  // ---- Marks and the clock -----------------------------------------------------------------------

  lemma MarksAfter(s: System, a: Action, unit: string)
    ensures unit in Apply(s, a).userStopped <==>
      match a
      case UserStop(units) => unit in units || unit in s.userStopped
      case UserStart(units) => unit in s.userStopped && unit !in units
      case Enable(u) => unit in s.userStopped && unit != u
      case DaemonRestart(known) => unit in s.userStopped && unit in known
      case _ => unit in s.userStopped
    ensures Apply(s, a).clock == s.clock + if a.Advance? then a.d else 0
  {}

  // ---- How long a restart sleeps -------------------------------------------------------------------

  const NANOSECONDS: int := 1_000_000_000

  // Where goroutine w can be, once its first dependency check has passed at that instant.
  ghost predicate SleptSince(s: System, w: nat, svc: Service, from: Time) {
    w < |s.workers| && s.workers[w].svc == svc && from <= s.clock
    && var over := from + if svc.restartDelay > 0 then svc.restartDelay * NANOSECONDS else 0;
    match s.workers[w].phase
    case Dispatched => false
    case Delaying(until) => until == over
    case Starting => over <= s.clock
    case Settling(until) => over + 10 * NANOSECONDS <= until
    case Done => true
  }

  lemma SleepGoesOn(s: System, a: Action, w: nat, svc: Service, from: Time)
    requires SleptSince(s, w, svc, from) && !a.DaemonRestart?
    ensures SleptSince(Apply(s, a), w, svc, from)
    ensures Issues(s, a, svc.unit) && a.w == w ==>
      s.clock >= from + (if svc.restartDelay > 0 then svc.restartDelay * NANOSECONDS else 0)
    ensures a.Progress? && a.w == w && s.workers[w].phase.Settling? && Apply(s, a).workers[w].phase == Done ==>
      s.clock >= from + (if svc.restartDelay > 0 then svc.restartDelay * NANOSECONDS else 0) + 10 * NANOSECONDS
  {
    if a.Progress? && a.w < |s.workers| && a.w != w { EndedIsDone(s, a.w, a.ok); }
  }

  lemma {:induction false} SleepLasts(s: System, run: seq<Action>, w: nat, svc: Service, from: Time)
    requires SleptSince(s, w, svc, from) && forall a <- run :: !a.DaemonRestart?
    ensures SleptSince(Run(s, run), w, svc, from)
  {
    if run != [] {
      var before, last := run[..|run| - 1], run[|run| - 1];
      assert last in run;
      SleepLasts(s, before, w, svc, from);
      SleepGoesOn(Run(s, before), last, w, svc, from);
    }
  }

  // Over every run a goroutine issues its start no earlier than its restart delay after its first dependency check,
  // and judges the unit no earlier than ten seconds after that.
  lemma RestartSleeps(s: System, w: nat, run: seq<Action>, a: Action)
    requires w < |s.workers| && s.workers[w].phase == Dispatched
    requires (forall b <- run :: !b.DaemonRestart?) && a.Progress? && a.w == w
    ensures var svc := s.workers[w].svc; var t := Run(Apply(s, Progress(w, true)), run);
      var over := s.clock + if svc.restartDelay > 0 then svc.restartDelay * NANOSECONDS else 0;
      && w < |t.workers| && t.workers[w].svc == svc
      && (Issues(t, a, svc.unit) ==> t.clock >= over)
      && (t.workers[w].phase.Delaying? && t.clock >= over && a.ok ==> Issues(t, a, svc.unit))
      && (t.workers[w].phase.Settling? && Ends(t, w, a.ok) ==> t.clock >= over + 10 * NANOSECONDS)
  {
    var svc, t := s.workers[w].svc, Apply(s, Progress(w, true));
    assert SleptSince(t, w, svc, s.clock);
    SleepLasts(t, run, w, svc, s.clock);
  }

  // The start is judged as soon as ten seconds have passed since systemctl returned.
  lemma {:induction false} SettlesForTenSeconds(s: System, w: nat, run: seq<Action>, ok: bool)
    requires w < |s.workers| && s.workers[w].phase == Starting && forall a <- run :: !a.DaemonRestart?
    ensures var t := Run(Apply(s, Progress(w, true)), run);
      && w < |t.workers|
      && (t.workers[w].phase == Settling(s.clock + 10 * NANOSECONDS) || t.workers[w].phase == Done)
      && (Live(t.workers[w]) ==> (Ends(t, w, ok) <==> t.clock >= s.clock + 10 * NANOSECONDS))
  {
    if run != [] {
      var before, last := run[..|run| - 1], run[|run| - 1];
      assert last in run && forall a <- before :: a in run;
      SettlesForTenSeconds(s, w, before, ok);
      SettlingGoesOn(Run(Apply(s, Progress(w, true)), before), last, w, s.clock + 10 * NANOSECONDS);
    }
  }

  lemma SettlingGoesOn(s: System, a: Action, w: nat, until: Time)
    requires w < |s.workers| && !a.DaemonRestart?
    requires s.workers[w].phase == Settling(until) || s.workers[w].phase == Done
    ensures var t := Apply(s, a);
      w < |t.workers| && (t.workers[w].phase == Settling(until) || t.workers[w].phase == Done)
  {
    if a.Progress? && a.w < |s.workers| && a.w != w { EndedIsDone(s, a.w, a.ok); }
  }
}
