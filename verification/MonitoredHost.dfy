// Mount safety with the monitor and boot at work (cmd/daemon/monitor.go, lines 340-399 and 444-582;
// cmd/daemon/api.go, lines 282-408 and 764-819; cmd/daemon/main.go, lines 294-310): API commands, the monitor with its
// restart goroutines, boot, configuration reloads, and units that stop by themselves, in any order.
//
// A restart checks the mounts when it is evaluated, boot before its delay, and neither again before it starts the unit.
module MonitoredHost {
  import opened Domain
  import opened Supervisor
  import C = Commands

  datatype MountEvent = Mounted(path: string) | Unmounted(path: string)

  // boot: the service that boot has checked and not started yet. history: the mounts and unmounts so far; pendingSince,
  // since and bootSince: how many of them there were when the pending evaluation, that of each goroutine and boot
  // saw their mounts.
  datatype Joint = Joint(
    host: C.Host,
    sys: System,
    history: seq<MountEvent>,
    pendingSince: nat,
    since: seq<nat>,
    boot: Option<Service>,
    bootSince: nat)

  datatype Step =
    | Command(c: C.Command)
    | Monitor(a: Action)
    | UnitStops(unit: string)
    | BootChecks(svc: Service)
    | BootStarts(ok: bool)
    | BootSkips
    | Reload(config: seq<Service>, works: set<nat>)

  function Begin(host: C.Host, now: nat): Joint {
    Joint(host, Init(now).(userStopped := host.userStopped), [], 0, [], None, 0)
  }

  // The monitor sees what is there. What users do comes as a command.
  predicate Truthful(h: C.Host, a: Action) {
    match a
    case Check(svc, seen) => Sees(h, svc, seen)
    case Evaluate(svc, seen) => Sees(h, svc, seen)
    case UserStop(_) => false
    case UserStart(_) => false
    case Enable(_) => false
    case _ => true
  }

  predicate Sees(h: C.Host, svc: Service, seen: Observation) {
    svc in h.services && seen.active == C.IsActive(h, svc.unit) && seen.mountsPresent == C.MountsHeld(svc, h.mounts)
  }

  // systemctl start returns, and the unit is up.
  predicate Activates(s: System, a: Action) {
    a.Progress? && a.ok && a.w < |s.workers| && s.workers[a.w].phase == Starting
  }

  function Changes(before: C.Host, after: C.Host, c: C.Command): seq<MountEvent> {
    if before.mounts == after.mounts then []
    else if c.MountPath? then [Mounted(c.mount)]
    else if c.UnmountPath? then [Unmounted(c.target)]
    else []
  }

  function Take(j: Joint, s: Step): Joint {
    match s
    case Command(c) =>
      var h := C.Exec(j.host, c);
      j.(host := h, sys := j.sys.(userStopped := h.userStopped), history := j.history + Changes(j.host, h, c))
    case UnitStops(unit) => j.(host := j.host.(active := j.host.active - {C.FullName(unit)}))
    case Monitor(a) => if Truthful(j.host, a) then Monitored(j, a) else j
    case BootChecks(svc) =>
      if j.boot.None? && C.MountsHeld(svc, j.host.mounts) then j.(boot := Some(svc), bootSince := |j.history|) else j
    case BootStarts(ok) =>
      if j.boot.Some? && ok
      then j.(boot := None, host := j.host.(active := j.host.active + {C.FullName(j.boot.value.unit)}))
      else j.(boot := None)
    case BootSkips => j.(boot := None)
    case Reload(config, works) => j.(host := C.Reloaded(j.host, config, works))
  }

  function Monitored(j: Joint, a: Action): Joint {
    var t := Apply(j.sys, a);
    var started := if Activates(j.sys, a) then {C.FullName(j.sys.workers[a.w].svc.unit)} else {};
    Joint(
      j.host.(active := j.host.active + started, userStopped := t.userStopped),
      t,
      j.history,
      if j.sys.pending.None? then |j.history| else j.pendingSince,
      if a.DaemonRestart? then []
      else if |t.workers| > |j.sys.workers| then j.since + [if a.Reserve? then j.pendingSince else |j.history|]
      else j.since,
      if a.DaemonRestart? then None else j.boot,
      j.bootSince)
  }

  function Run(j: Joint, steps: seq<Step>): Joint {
    if steps == [] then j else Take(Run(j, steps[..|steps| - 1]), steps[|steps| - 1])
  }

  // What each step does to what runs; a step of the monitor or of boot adds the one unit whose start returns.
  lemma RunningAfter(j: Joint, s: Step, name: string)
    ensures name in Take(j, s).host.active <==>
      match s
      case Command(c) => name in C.Exec(j.host, c).active
      case UnitStops(unit) => name in j.host.active && name != C.FullName(unit)
      case Monitor(a) =>
        name in j.host.active || (Truthful(j.host, a) && a.Progress? && a.ok && a.w < |j.sys.workers|
          && j.sys.workers[a.w].phase == Starting && name == C.FullName(j.sys.workers[a.w].svc.unit))
      case BootStarts(ok) =>
        name in j.host.active || (ok && j.boot.Some? && name == C.FullName(j.boot.value.unit))
      case Reload(config, works) => name in C.Reloaded(j.host, config, works).active
      case _ => name in j.host.active
  {}

  // Boot holds one checked service at a time, until it starts it, gives it up or ends with the process.
  lemma BootAfter(j: Joint, s: Step)
    ensures Take(j, s).boot ==
      if s.BootChecks? && j.boot.None? && C.MountsHeld(s.svc, j.host.mounts) then Some(s.svc)
      else if s.BootStarts? || s.BootSkips? || (s.Monitor? && s.a.DaemonRestart?) then None
      else j.boot
  {}

  // ---- What has happened to a mount since an evaluation ----------------------------------

  // It was unmounted, and not mounted again.
  ghost predicate Gone(history: seq<MountEvent>, from: nat, m: string) {
    exists k :: from <= k < |history| && history[k] == Unmounted(m)
      && forall i :: k < i < |history| ==> history[i] != Mounted(m)
  }

  lemma GoneSnoc(history: seq<MountEvent>, e: MountEvent, from: nat, m: string)
    requires from <= |history|
    ensures Gone(history + [e], from, m) <==> e == Unmounted(m) || (Gone(history, from, m) && e != Mounted(m))
  {
    var longer := history + [e];
    if e == Unmounted(m) { assert longer[|history|] == Unmounted(m); }
    if Gone(history, from, m) && e != Mounted(m) {
      var k :| from <= k < |history| && history[k] == Unmounted(m)
        && forall i :: k < i < |history| ==> history[i] != Mounted(m);
      assert longer[k] == Unmounted(m);
    }
    if Gone(longer, from, m) && e != Unmounted(m) {
      var k :| from <= k < |longer| && longer[k] == Unmounted(m)
        && forall i :: k < i < |longer| ==> longer[i] != Mounted(m);
      assert history[k] == Unmounted(m) && longer[|history|] == e;
      forall i | k < i < |history| ensures history[i] != Mounted(m) { assert longer[i] == history[i]; }
    }
  }

  // An entry whose mounts were all there at that point of the history.
  ghost predicate Checked(mounts: set<string>, history: seq<MountEvent>, svc: Service, from: nat) {
    from <= |history| && forall m :: m in svc.requiresMounts ==> (m in mounts <==> !Gone(history, from, m))
  }

  ghost predicate Inv(j: Joint) {
    && C.WellNamed(j.host.services)
    && |j.since| == |j.sys.workers|
    && (forall w :: 0 <= w < |j.since| ==>
          Checked(j.host.mounts, j.history, j.sys.workers[w].svc, j.since[w]))
    && (j.sys.pending.Some? ==> Checked(j.host.mounts, j.history, j.sys.pending.value, j.pendingSince))
    && (j.boot.Some? ==> Checked(j.host.mounts, j.history, j.boot.value, j.bootSince))
  }

  lemma CheckedNow(h: C.Host, history: seq<MountEvent>, svc: Service)
    requires C.MountsHeld(svc, h.mounts)
    ensures Checked(h.mounts, history, svc, |history|)
  {}

  lemma CheckedLater(j: Joint, c: C.Command, svc: Service, from: nat)
    requires Checked(j.host.mounts, j.history, svc, from)
    ensures var t := Take(j, Command(c)); Checked(t.host.mounts, t.history, svc, from)
  {
    var t := Take(j, Command(c));
    var changes := Changes(j.host, t.host, c);
    if changes == [] {
      assert t.history == j.history;
    } else {
      forall m | m in svc.requiresMounts ensures m in t.host.mounts <==> !Gone(t.history, from, m) {
        GoneSnoc(j.history, changes[0], from, m);
      }
    }
  }

  lemma CommandKeepsInv(j: Joint, c: C.Command)
    requires Inv(j)
    ensures Inv(Take(j, Command(c)))
  {
    forall w | 0 <= w < |j.since| { CheckedLater(j, c, j.sys.workers[w].svc, j.since[w]); }
    if j.sys.pending.Some? { CheckedLater(j, c, j.sys.pending.value, j.pendingSince); }
    if j.boot.Some? { CheckedLater(j, c, j.boot.value, j.bootSince); }
  }

  // A goroutine keeps its entry, and a new one has the entry that was evaluated.
  lemma EntriesKept(s: System, a: Action)
    ensures var t := Apply(s, a);
      && (!a.DaemonRestart? ==> |s.workers| <= |t.workers| <= |s.workers| + 1)
      && (forall w :: 0 <= w < |t.workers| && w < |s.workers| ==> t.workers[w].svc == s.workers[w].svc)
      && (!a.DaemonRestart? && |t.workers| > |s.workers| ==>
            || (a.Reserve? && s.pending == Some(t.workers[|s.workers|].svc))
            || (a.Evaluate? && a.svc == t.workers[|s.workers|].svc && a.seen.mountsPresent))
      && (t.pending.Some? ==>
            || t.pending == s.pending
            || (a.Check? && s.pending.None? && t.pending.value == a.svc && a.seen.mountsPresent))
  {}

  lemma MonitorKeepsInv(j: Joint, a: Action)
    requires Inv(j) && Truthful(j.host, a)
    ensures Inv(Monitored(j, a))
  {
    var t := Monitored(j, a);
    EntriesKept(j.sys, a);
    if a.Check? || a.Evaluate? {
      if a.seen.mountsPresent { CheckedNow(j.host, j.history, a.svc); }
    }
    forall w | 0 <= w < |t.since|
      ensures Checked(t.host.mounts, t.history, t.sys.workers[w].svc, t.since[w])
    {
      if w < |j.since| { assert t.since[w] == j.since[w]; }
    }
  }

  lemma TakeKeepsInv(j: Joint, s: Step)
    requires Inv(j) && (s.Reload? ==> C.WellNamed(s.config))
    ensures Inv(Take(j, s))
  {
    match s
    case Command(c) => CommandKeepsInv(j, c);
    case Monitor(a) => if Truthful(j.host, a) { MonitorKeepsInv(j, a); }
    case BootChecks(svc) => if C.MountsHeld(svc, j.host.mounts) { CheckedNow(j.host, j.history, svc); }
    case _ =>
  }

  // ---- Mount safety ------------------------------------------------------------------------

  // The service that the step starts, as it was checked, and the time of that check.
  function StartedBy(j: Joint, s: Step): Option<(Service, nat)>
    requires |j.since| == |j.sys.workers|
  {
    match s
    case Monitor(a) => if Activates(j.sys, a) then Some((j.sys.workers[a.w].svc, j.since[a.w])) else None
    case BootStarts(ok) => if j.boot.Some? && ok then Some((j.boot.value, j.bootSince)) else None
    case _ => None
  }

  // A mount of the service has gone since that check, or it is missing and a reload has added it to the entry since.
  ghost predicate IsTooLate(j: Joint, svc: Service, from: nat) {
    exists entry, m :: entry in j.host.services && entry.unit == C.FullName(svc.unit) && m in entry.requiresMounts
      && if m in svc.requiresMounts then Gone(j.history, from, m) else m !in j.host.mounts
  }

  ghost predicate StartsTooLate(j: Joint, s: Step)
    requires |j.since| == |j.sys.workers|
  {
    var started := StartedBy(j, s);
    started.Some? && IsTooLate(j, started.value.0, started.value.1)
  }

  // A restart or boot starts a service without one of the mounts it was checked for exactly when that mount has gone
  // since the check.
  lemma StartLacksMountsExactlyWhen(j: Joint, s: Step)
    requires Inv(j) && StartedBy(j, s).Some?
    ensures var (svc, from) := StartedBy(j, s).value; var t := Take(j, s);
      && C.IsActive(t.host, svc.unit)
      && (!C.MountsHeld(svc, t.host.mounts) <==> exists m :: m in svc.requiresMounts && Gone(j.history, from, m))
  {
    var (svc, from) := StartedBy(j, s).value;
    assert Checked(j.host.mounts, j.history, svc, from);
  }

  lemma TooLateMeansLacking(j: Joint, svc: Service, from: nat)
    requires C.WellNamed(j.host.services) && Checked(j.host.mounts, j.history, svc, from)
    ensures var entry := C.Addressed(j.host, svc.unit);
      IsTooLate(j, svc, from) <==> entry.Some? && !C.MountsHeld(entry.value, j.host.mounts)
  {
    var found := C.Addressed(j.host, svc.unit);
    forall entry | entry in j.host.services && entry.unit == C.FullName(svc.unit) ensures found == Some(entry) {
      C.FindIsTheEntry(j.host.services, entry);
    }
  }

  lemma StartKeepsMountSafetyExactlyWhen(j: Joint, s: Step)
    requires Inv(j) && C.MountSafe(j.host) && StartedBy(j, s).Some?
    ensures C.MountSafe(Take(j, s).host) <==> !StartsTooLate(j, s)
  {
    var (svc, from) := StartedBy(j, s).value;
    var t := Take(j, s);
    assert Checked(j.host.mounts, j.history, svc, from);
    C.ActivatingOne(j.host, svc.unit);
    TooLateMeansLacking(j, svc, from);
    SameUnits(j.host.(active := j.host.active + {C.FullName(svc.unit)}), t.host);
  }

  ghost predicate Unsafe(j: Joint, s: Step)
    requires |j.since| == |j.sys.workers|
  {
    StartsTooLate(j, s) || (s.Reload? && C.ReloadLeaves(j.host, s.config, s.works))
  }

  // Requests use the names and paths of the configuration, and configurations distinct full names.
  ghost predicate Regular(s: Step) {
    (s.Command? ==> C.Direct(s.c)) && (s.Reload? ==> C.WellNamed(s.config))
  }

  // Of all steps only such a start, or a reload that leaves a violation running, breaks mount safety.
  lemma TakeKeepsMountSafetyExactlyWhen(j: Joint, s: Step)
    requires Inv(j) && C.MountSafe(j.host) && Regular(s)
    ensures C.MountSafe(Take(j, s).host) <==> !Unsafe(j, s)
  {
    if StartedBy(j, s).Some? {
      StartKeepsMountSafetyExactlyWhen(j, s);
    } else if s.Command? {
      C.CommandKeepsMountSafety(j.host, s.c);
    } else if s.Reload? {
      C.ReloadKeepsMountSafetyExactlyWhen(j.host, s.config, s.works);
    } else if !s.UnitStops? {
      SameUnits(j.host, Take(j, s).host);
    }
  }

  lemma SameUnits(h: C.Host, k: C.Host)
    requires h.services == k.services && h.active == k.active && h.mounts == k.mounts
    ensures C.MountSafe(h) <==> C.MountSafe(k)
  {
    assert forall svc: Service :: C.IsActive(h, svc.unit) <==> C.IsActive(k, svc.unit);
  }

  ghost predicate SafeThroughout(j: Joint, steps: seq<Step>) {
    C.MountSafe(Run(j, steps).host) && (steps != [] ==> SafeThroughout(j, steps[..|steps| - 1]))
  }

  ghost predicate NeverUnsafe(j: Joint, steps: seq<Step>) {
    steps != [] ==>
      var before := steps[..|steps| - 1];
      var k := Run(j, before);
      NeverUnsafe(j, before) && |k.since| == |k.sys.workers| && !Unsafe(k, steps[|steps| - 1])
  }

  // Over every interleaving of commands, monitor, goroutines, boot, reloads and units that stop: no active managed
  // service ever lacks a mount it requires, exactly when no start comes too late and no reload leaves a violation
  // running.
  lemma {:induction false} MountSafetyExactlyWhen(host: C.Host, now: nat, steps: seq<Step>)
    requires C.WellNamed(host.services) && C.MountSafe(host)
    requires forall s :: s in steps ==> Regular(s)
    ensures Inv(Run(Begin(host, now), steps))
    ensures SafeThroughout(Begin(host, now), steps) <==> NeverUnsafe(Begin(host, now), steps)
  {
    if steps != [] {
      var before, last := steps[..|steps| - 1], steps[|steps| - 1];
      MountSafetyExactlyWhen(host, now, before);
      assert last in steps;
      TakeKeepsInv(Run(Begin(host, now), before), last);
      if SafeThroughout(Begin(host, now), before) {
        TakeKeepsMountSafetyExactlyWhen(Run(Begin(host, now), before), last);
      }
    }
  }

  // ---- Such a history -----------------------------------------------------------------------

  // The restart of "a.service" is on its way to systemctl when "/m", which nothing running requires, is unmounted.
  function LateUnmount(svc: Service): seq<Step> {
    [Monitor(Evaluate(svc, Observation(false, true, true))), Monitor(Progress(0, true)), Monitor(Progress(0, true)),
     Command(C.UnmountPath("/m", "/m", true)), Monitor(Progress(0, true))]
  }

  lemma RunSnoc(j: Joint, steps: seq<Step>, s: Step)
    ensures Run(j, steps + [s]) == Take(Run(j, steps), s)
  {
    assert (steps + [s])[..|steps|] == steps;
  }

  lemma RunFive(j: Joint, steps: seq<Step>)
    requires |steps| == 5
    ensures Run(j, steps) == Take(Take(Take(Take(Take(j, steps[0]), steps[1]), steps[2]), steps[3]), steps[4])
  {
    RunSnoc(j, [], steps[0]);
    RunSnoc(j, steps[..1], steps[1]);
    RunSnoc(j, steps[..2], steps[2]);
    RunSnoc(j, steps[..3], steps[3]);
    RunSnoc(j, steps[..4], steps[4]);
    assert [] + [steps[0]] == steps[..1] && steps[..1] + [steps[1]] == steps[..2];
    assert steps[..2] + [steps[2]] == steps[..3];
    assert steps[..3] + [steps[3]] == steps[..4] && steps[..4] + [steps[4]] == steps;
  }

  // A host in the middle of a restart: one goroutine, at this phase.
  ghost predicate Restarting(j: Joint, h: C.Host, phase: Phase) {
    j.host == h && |h.services| == 1 && j.sys.workers == [Worker(h.services[0], phase)]
  }

  lemma UnmountDuringRestart(now: nat)
    ensures var h := C.Sample({}, {"/m"});
      C.MountSafe(h) && !C.MountSafe(Run(Begin(h, now), LateUnmount(h.services[0])).host)
  {
    var h := C.Sample({}, {"/m"});
    var svc := h.services[0];
    C.NameOfA();
    assert svc.unit == "a.service" && svc.requiresMounts == ["/m"] && svc in h.services;
    RunFive(Begin(h, now), LateUnmount(svc));
    var j := Take(Begin(h, now), Monitor(Evaluate(svc, Observation(false, true, true))));
    RestartBegins(h, now);
    RestartGoesOn(j, h);
    var l := Take(Take(j, Monitor(Progress(0, true))), Monitor(Progress(0, true)));
    UnmountThenStart(l, h);
  }

  lemma RestartBegins(h: C.Host, now: nat)
    requires h == C.Sample({}, {"/m"})
    ensures var evaluate := Evaluate(h.services[0], Observation(false, true, true));
      Restarting(Take(Begin(h, now), Monitor(evaluate)), h, Dispatched)
  {
    var svc := h.services[0];
    assert svc in h.services && svc.requiresMounts == ["/m"];
    assert Truthful(h, Evaluate(svc, Observation(false, true, true)));
  }

  lemma RestartGoesOn(j: Joint, h: C.Host)
    requires Restarting(j, h, Dispatched) && h == C.Sample({}, {"/m"}) && j.sys.userStopped == h.userStopped
    ensures Restarting(Take(Take(j, Monitor(Progress(0, true))), Monitor(Progress(0, true))), h, Starting)
  {
    var k := Take(j, Monitor(Progress(0, true)));
    assert Restarting(k, h, Delaying(j.sys.clock)) && k.sys.clock == j.sys.clock;
  }

  lemma UnmountThenStart(j: Joint, h: C.Host)
    requires h == C.Sample({}, {"/m"}) && Restarting(j, h, Starting)
    ensures !C.MountSafe(Take(Take(j, Command(C.UnmountPath("/m", "/m", true))), Monitor(Progress(0, true))).host)
  {
    var svc := h.services[0];
    var k := Take(j, Command(C.UnmountPath("/m", "/m", true)));
    assert forall other :: other in h.services ==> !C.NeededBy(h, "/m", other);
    assert k.host.mounts == {} && k.host.services == h.services;
    var l := Take(k, Monitor(Progress(0, true)));
    assert C.IsActive(l.host, svc.unit) && "/m" in svc.requiresMounts && svc in l.host.services;
  }

  // The same during the delay of boot.
  lemma UnmountDuringBootDelay(now: nat)
    ensures var h := C.Sample({}, {"/m"});
      var j := Take(Begin(h, now), BootChecks(h.services[0]));
      var k := Take(j, Command(C.UnmountPath("/m", "/m", true)));
      C.MountSafe(k.host) && !C.MountSafe(Take(k, BootStarts(true)).host)
  {
    var h := C.Sample({}, {"/m"});
    var svc := h.services[0];
    assert svc in h.services && "/m" in svc.requiresMounts;
    var j := Take(Begin(h, now), BootChecks(svc));
    assert j.host == h && j.boot == Some(svc);
    assert forall other :: other in h.services ==> !C.NeededBy(h, "/m", other);
    var k := Take(j, Command(C.UnmountPath("/m", "/m", true)));
    assert k.host.mounts == {} && k.host.active == {};
    assert C.IsActive(Take(k, BootStarts(true)).host, svc.unit);
  }
}
