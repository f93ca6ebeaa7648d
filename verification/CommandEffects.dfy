// What each command does to every mark, unit and mount, told entry by entry
// (cmd/daemon/api.go, lines 282-408 and 764-819; cmd/daemon/monitor.go, lines 168-202).
module CommandEffects {
  import opened Domain
  import opened Commands

  predicate HasEntry(services: seq<Service>, unit: string) {
    exists svc <- services :: svc.unit == unit
  }

  predicate HasEnabledEntry(services: seq<Service>, unit: string) {
    exists svc <- services :: svc.unit == unit && svc.enabled
  }

  // The first entry with exactly this name lacks a mount.
  predicate LacksMountAt(services: seq<Service>, mounts: set<string>, unit: string, i: nat)
    requires i < |services|
  {
    && services[i].unit == unit && (forall j :: 0 <= j < i ==> services[j].unit != unit)
    && exists m <- services[i].requiresMounts :: m !in mounts
  }

  predicate Refused(services: seq<Service>, mounts: set<string>, unit: string) {
    exists i :: 0 <= i < |services| && LacksMountAt(services, mounts, unit, i)
  }

  lemma {:induction false} FindIsFirst(services: seq<Service>, unit: string, i: nat)
    requires i < |services| && services[i].unit == unit && forall j :: 0 <= j < i ==> services[j].unit != unit
    ensures Find(services, unit) == Some(services[i])
  {
    if i > 0 {
      assert forall j :: 0 <= j < i ==> services[1..][j] == services[j + 1];
      FindIsFirst(services[1..], unit, i - 1);
    }
  }

  lemma {:induction false} FoundFirst(services: seq<Service>, unit: string) returns (i: nat)
    requires Find(services, unit).Some?
    ensures i < |services| && services[i].unit == unit && forall j :: 0 <= j < i ==> services[j].unit != unit
  {
    if services[0].unit == unit {
      i := 0;
    } else {
      var k := FoundFirst(services[1..], unit);
      assert forall j :: 0 <= j < k ==> services[1..][j] == services[j + 1];
      i := k + 1;
    }
  }

  lemma RefusedIs(services: seq<Service>, mounts: set<string>, unit: string)
    ensures Refused(services, mounts, unit) <==> !Allowed(services, mounts, unit)
  {
    if Find(services, unit).Some? {
      var i := FoundFirst(services, unit);
      FindIsFirst(services, unit, i);
      forall k | 0 <= k < |services| && LacksMountAt(services, mounts, unit, k)
        ensures Find(services, unit) == Some(services[k])
      {
        FindIsFirst(services, unit, k);
      }
      if !Allowed(services, mounts, unit) { assert LacksMountAt(services, mounts, unit, i); }
    }
  }

  lemma ManagedIs(services: seq<Service>, unit: string)
    ensures IsManagedSpec(services, unit) <==> HasEntry(services, FullName(unit))
  {
    if HasEntry(services, FullName(unit)) {
      var svc :| svc in services && svc.unit == FullName(unit);
      var i :| 0 <= i < |services| && services[i] == svc;
      assert services[i].unit == FullName(unit);
    }
  }

  // ---- The list a bulk command works through, and its report ------------------------------

  predicate Ascending(at: seq<nat>) { forall j, k :: 0 <= j < k < |at| ==> at[j] < at[k] }

  predicate IsNameAt(services: seq<Service>, name: string, i: nat) {
    i < |services| && services[i].enabled && services[i].unit == name
  }

  ghost predicate AreEnabledAt(services: seq<Service>, names: seq<string>, at: seq<nat>) {
    && Ascending(at) && |at| == |names|
    && (forall k :: 0 <= k < |at| ==> IsNameAt(services, names[k], at[k]))
    && forall i :: 0 <= i < |services| && services[i].enabled ==> i in at
  }

  // The names of all enabled entries, in the order of the configuration.
  lemma {:induction false} EnabledNamesAre(services: seq<Service>) returns (at: seq<nat>)
    ensures AreEnabledAt(services, EnabledNames(services), at)
  {
    at := [];
    if services != [] {
      var before, last := services[..|services| - 1], services[|services| - 1];
      at := EnabledNamesAre(before);
      assert services == before + [last];
      OneMoreEntry(before, last, EnabledNames(before), at);
      if last.enabled { at := at + [|before|]; }
    }
  }

  lemma OneMoreEntry(before: seq<Service>, last: Service, names: seq<string>, at: seq<nat>)
    requires AreEnabledAt(before, names, at)
    ensures if last.enabled then AreEnabledAt(before + [last], names + [last.unit], at + [|before|])
            else AreEnabledAt(before + [last], names, at)
  {
    var services := before + [last];
    forall k | 0 <= k < |at| ensures IsNameAt(services, names[k], at[k]) { assert IsNameAt(before, names[k], at[k]); }
    forall i | 0 <= i < |services| && services[i].enabled ensures i == |before| || i in at {
      if i < |before| { assert before[i].enabled; }
    }
  }

  // The report counts the positions of the units that were not reached.
  lemma {:induction false} MissedCounts(units: seq<string>, reached: set<string>)
    ensures Missed(units, reached) == |set i | 0 <= i < |units| && units[i] !in reached|
  {
    if units != [] {
      var n := |units| - 1;
      MissedCounts(units[..n], reached);
      var before := set i | 0 <= i < n && units[..n][i] !in reached;
      var now := set i | 0 <= i < |units| && units[i] !in reached;
      assert now == before + if units[n] in reached then {} else {n};
    }
  }

  // ---- The user's marks --------------------------------------------------------------------

  // A start or stop request marks the name it was sent, and start-all and stop-all exactly the enabled entries.
  lemma MarkedAfter(h: Host, c: Command, u: string)
    ensures u in Exec(h, c).userStopped <==>
      match c
      case StartUnit(unit, _) => u in h.userStopped && !(u == unit && HasEntry(h.services, FullName(unit)))
      case StopUnit(unit, _) => u in h.userStopped || (u == unit && HasEntry(h.services, FullName(unit)))
      case StartEverything(_) => u in h.userStopped && !HasEnabledEntry(h.services, u)
      case StopEverything(_) => u in h.userStopped || HasEnabledEntry(h.services, u)
      case _ => u in h.userStopped
    ensures Exec(h, c).services == h.services
  {
    if c.StartUnit? || c.StopUnit? { ManagedIs(h.services, c.unit); }
  }

  lemma RestartMarks(h: Host, unit: string, works: bool, u: string)
    ensures u in Restarted(h, unit, works).userStopped <==>
      u in h.userStopped && !(u == unit && HasEntry(h.services, FullName(unit)))
  {
    ManagedIs(h.services, unit);
  }

  // ---- What runs -----------------------------------------------------------------------------

  // A bulk command reaches this unit: an enabled entry completes to it and its systemctl call works.
  predicate Reaches(services: seq<Service>, works: set<string>, name: string) {
    exists svc <- services :: svc.enabled && svc.unit in works && FullName(svc.unit) == name
  }

  predicate ReachesAllowed(h: Host, works: set<string>, name: string) {
    exists svc <- h.services ::
      svc.enabled && svc.unit in works && FullName(svc.unit) == name && !Refused(h.services, h.mounts, svc.unit)
  }

  lemma RunningAfterOne(h: Host, unit: string, works: bool, name: string)
    ensures name in Started(h, unit, works).active <==>
      name in h.active ||
      (name == FullName(unit) && works && HasEntry(h.services, name) && !Refused(h.services, h.mounts, unit))
    ensures name in Stopped(h, unit, works).active <==>
      name in h.active && !(name == FullName(unit) && works && HasEntry(h.services, name))
    ensures name in Restarted(h, unit, works).active <==>
      name in h.active || (name == FullName(unit) && works && HasEntry(h.services, name))
  {
    ManagedIs(h.services, unit);
    RefusedIs(h.services, h.mounts, unit);
  }

  lemma RunningAfterAll(h: Host, works: set<string>, name: string)
    ensures name in StartedAll(h, works).active <==> name in h.active || ReachesAllowed(h, works, name)
    ensures name in StoppedAll(h, works).active <==> name in h.active && !Reaches(h.services, works, name)
  {
    forall unit ensures Refused(h.services, h.mounts, unit) <==> !Allowed(h.services, h.mounts, unit) {
      RefusedIs(h.services, h.mounts, unit);
    }
    if ReachesAllowed(h, works, name) {
      var svc :| svc in h.services && svc.enabled && svc.unit in works && FullName(svc.unit) == name
        && !Refused(h.services, h.mounts, svc.unit);
      assert svc.unit in EnabledSpec(h.services);
    }
    if Reaches(h.services, works, name) {
      var svc :| svc in h.services && svc.enabled && svc.unit in works && FullName(svc.unit) == name;
      assert svc.unit in EnabledSpec(h.services);
    }
  }

  // ---- Mounts ----------------------------------------------------------------------------------

  lemma MountedAfter(h: Host, c: Command, m: string)
    ensures m in Exec(h, c).mounts <==>
      match c
      case MountPath(mount, works) => m in h.mounts || (works && m == mount)
      case UnmountPath(mount, target, works) =>
        m in h.mounts && !(works && m == target &&
          forall svc <- h.services :: mount in svc.requiresMounts ==> FullName(svc.unit) !in h.active)
      case _ => m in h.mounts
    ensures c.MountPath? || c.UnmountPath? ==> Exec(h, c).active == h.active
  {}

  // ---- Reload ------------------------------------------------------------------------------------

  predicate VerificationStops(config: seq<Service>, mounts: set<string>, works: set<nat>, name: string) {
    exists i :: 0 <= i < |config| && i in works && config[i].enabled && FullName(config[i].unit) == name
      && exists m <- config[i].requiresMounts :: m !in mounts
  }

  lemma ReloadedIs(h: Host, config: seq<Service>, works: set<nat>, name: string)
    ensures var t := Reloaded(h, config, works);
      && t.services == config && t.userStopped == h.userStopped && t.mounts == h.mounts
      && (name in t.active <==> name in h.active && !VerificationStops(config, h.mounts, works, name))
  {
    var k := h.(services := config);
    if VerificationStops(config, h.mounts, works, name) && name in h.active {
      var i :| 0 <= i < |config| && i in works && config[i].enabled && FullName(config[i].unit) == name
        && exists m <- config[i].requiresMounts :: m !in h.mounts;
      assert Unsound(k, config[i]);
    }
  }
}
