// A stop command against the monitor of the same host (cmd/daemon/api.go, lines 313-327 and 367-391;
// cmd/daemon/monitor.go, lines 444-550): stop and stop-all, with API commands, boot, reloads and the monitor going on.
module StoppedHost {
  import opened Domain
  import opened Supervisor
  import opened UserStop
  import opened MonitoredHost
  import C = Commands
  import CommandEffects

  // Both sides read one set of marks, and restarts fly one at a time.
  ghost predicate Linked(j: Joint) {
    j.host.userStopped == j.sys.userStopped && SingleFlight(j.sys)
  }

  lemma TakeKeepsLinked(j: Joint, s: Step)
    requires Linked(j)
    ensures Linked(Take(j, s))
  {
    match s
    case Monitor(a) => SingleFlightKept(j.sys, a);
    case Command(c) => SameFlight(j.sys, Take(j, s).sys);
    case _ =>
  }

  lemma {:induction false} RunIsLinked(host: C.Host, now: nat, steps: seq<Step>)
    ensures Linked(MonitoredHost.Run(Begin(host, now), steps))
  {
    if steps != [] {
      var before := steps[..|steps| - 1];
      RunIsLinked(host, now, before);
      TakeKeepsLinked(MonitoredHost.Run(Begin(host, now), before), steps[|steps| - 1]);
    }
  }

  // No entry of the unit is restarted whatever the user did.
  ghost predicate NeverAlways(services: seq<Service>, unit: string) {
    forall svc <- services :: svc.unit == unit ==> svc.restart != Always
  }

  // The unit is not started again by a command, and no configuration unlists it or restarts it always.
  ghost predicate LeavesStopped(s: Step, unit: string) {
    match s
    case Command(c) => !c.StartEverything? && !(c.StartUnit? && c.unit == unit)
    case Monitor(a) => a.DaemonRestart? ==> unit in a.known
    case Reload(config, _) => NeverAlways(config, unit)
    case _ => true
  }

  ghost predicate IsStopped(j: Joint, unit: string) {
    Linked(j) && unit in j.sys.userStopped && NeverAlways(j.host.services, unit)
  }

  lemma TakeKeepsStopped(j: Joint, s: Step, unit: string)
    requires IsStopped(j, unit) && LeavesStopped(s, unit)
    ensures IsStopped(Take(j, s), unit)
    ensures Committed(Take(j, s).sys, unit) <= Committed(j.sys, unit)
  {
    TakeKeepsLinked(j, s);
    match s
    case Monitor(a) => if Truthful(j.host, a) { UserStop.QuietStep(j.sys, a, unit); }
    case Command(c) => CommandEffects.MarkedAfter(j.host, c, unit);
    case _ =>
  }

  lemma {:induction false} RunKeepsStopped(j: Joint, steps: seq<Step>, unit: string)
    requires IsStopped(j, unit) && forall s <- steps :: LeavesStopped(s, unit)
    ensures IsStopped(MonitoredHost.Run(j, steps), unit)
    ensures Committed(MonitoredHost.Run(j, steps).sys, unit) <= Committed(j.sys, unit)
  {
    if steps != [] {
      var before, last := steps[..|steps| - 1], steps[|steps| - 1];
      assert last in steps;
      RunKeepsStopped(j, before, unit);
      TakeKeepsStopped(MonitoredHost.Run(j, before), last, unit);
    }
  }

  // A stop by the unit's full name, or a stop-all that has an enabled entry of the unit.
  ghost predicate Stops(services: seq<Service>, c: C.Command, unit: string) {
    || (c.StopUnit? && c.unit == unit && CommandEffects.HasEntry(services, C.FullName(unit)))
    || (c.StopEverything? && CommandEffects.HasEnabledEntry(services, unit))
  }

  // After a stop or stop-all, wherever it falls in the history of the host, the monitor issues no more starts of the
  // unit than there are restarts of it still before their start: at most a goroutine and a pending reservation.
  lemma StopCommandEndsRestarts(host: C.Host, now: nat, past: seq<Step>, stop: C.Command, rest: seq<Step>, unit: string)
    requires var before := MonitoredHost.Run(Begin(host, now), past).host.services;
      Stops(before, stop, unit) && NeverAlways(before, unit)
    requires forall s <- rest :: LeavesStopped(s, unit)
    ensures var j := Take(MonitoredHost.Run(Begin(host, now), past), Command(stop));
      var t := MonitoredHost.Run(j, rest);
      && unit in t.host.userStopped
      && Starts(t.sys.log, unit) - Starts(j.sys.log, unit)
           <= BeforeStart(j.sys.workers, unit) + Reserving(j.sys.pending, unit)
      && BeforeStart(j.sys.workers, unit) <= 1 && Reserving(j.sys.pending, unit) <= 1
  {
    var k := MonitoredHost.Run(Begin(host, now), past);
    var j := Take(k, Command(stop));
    RunIsLinked(host, now, past);
    TakeKeepsLinked(k, Command(stop));
    CommandEffects.MarkedAfter(k.host, stop, unit);
    assert IsStopped(j, unit);
    RunKeepsStopped(j, rest, unit);
    BeforeStartAtMostOne(j.sys.workers, unit);
  }

  // A unit that is down, with policy unless-stopped and nothing else in its way, is restarted exactly when no stop
  // has marked it.
  lemma MarkDecidesExactlyWhen(j: Joint, svc: Service, seen: Observation)
    requires Supervisor.Inv(j.sys) && Linked(j) && Sees(j.host, svc, seen)
    requires svc.enabled && svc.restart == UnlessStopped && !seen.active && seen.mountsPresent
    requires j.sys.pending.None? && svc.unit !in j.sys.inFlight
    requires j.sys.clock >= RetryAt(Streak(j.sys.log, svc.unit))
    ensures var t := Take(j, Monitor(Evaluate(svc, seen)));
      t.sys.workers == j.sys.workers + if svc.unit in j.host.userStopped then [] else [Worker(svc, Dispatched)]
  {
    assert BreakerAgrees(j.sys, svc.unit);
  }
}
