// API commands that start and stop units, and mount safety
// (cmd/daemon/api.go, lines 282-408 and 764-819; cmd/daemon/monitor.go, lines 168-202).
//
// A handler is one atomic step. Which systemctl and mount calls succeed is a
// parameter; a call that fails changes no unit and no mount.
module Commands {
  import opened Domain
  import opened Text

  datatype Host = Host(
    services: seq<Service>,
    userStopped: set<string>,
    active: set<string>,   // full unit names
    mounts: set<string>)

  // systemctl completes a bare name, which is also what isManaged assumes.
  function FullName(unit: string): (name: string)
    ensures HasSuffix(name, ".service")
  {
    if HasSuffix(unit, ".service") then unit else unit + ".service"
  }

  predicate IsActive(h: Host, unit: string) { FullName(unit) in h.active }

  predicate MountsHeld(svc: Service, mounts: set<string>) {
    forall m :: m in svc.requiresMounts ==> m in mounts
  }

  function IsManagedSpec(services: seq<Service>, unit: string): bool {
    exists i :: 0 <= i < |services| && services[i].unit == FullName(unit)
  }

  // The first entry with exactly this name, which is the one the handlers check.
  function Find(services: seq<Service>, unit: string): (r: Option<Service>)
    ensures r.None? ==> forall i :: 0 <= i < |services| ==> services[i].unit != unit
    ensures r.Some? ==> r.value in services && r.value.unit == unit
  {
    if services == [] then None
    else if services[0].unit == unit then Some(services[0])
    else Find(services[1..], unit)
  }

  function EnabledNames(services: seq<Service>): seq<string> {
    if services == [] then []
    else
      EnabledNames(services[..|services| - 1])
      + if services[|services| - 1].enabled then [services[|services| - 1].unit] else []
  }

  function EnabledSpec(services: seq<Service>): set<string> {
    set svc | svc in services && svc.enabled :: svc.unit
  }

  lemma {:induction false} EnabledNamesElements(services: seq<Service>)
    ensures Elements(EnabledNames(services)) == EnabledSpec(services)
  {
    if services != [] {
      EnabledNamesElements(services[..|services| - 1]);
      var init, last := services[..|services| - 1], services[|services| - 1];
      assert services == init + [last];
      assert EnabledSpec(services) == EnabledSpec(init) + if last.enabled then {last.unit} else {};
      assert EnabledNames(services) == EnabledNames(init) + if last.enabled then [last.unit] else [];
    }
  }

  // How many units of the list are outside the given set.
  function Missed(units: seq<string>, reached: set<string>): nat {
    if units == [] then 0
    else Missed(units[..|units| - 1], reached) + if units[|units| - 1] in reached then 0 else 1
  }

  lemma MissedStep(units: seq<string>, i: nat, reached: set<string>)
    requires i < |units|
    ensures Missed(units[..i + 1], reached) == Missed(units[..i], reached) + if units[i] in reached then 0 else 1
    ensures Elements(units[..i + 1]) == Elements(units[..i]) + {units[i]}
  {
    assert units[..i + 1][..i] == units[..i];
  }

  function Reachable(services: seq<Service>, mounts: set<string>, works: set<string>): set<string> {
    set u | u in works && Allowed(services, mounts, u)
  }

  predicate Allowed(services: seq<Service>, mounts: set<string>, unit: string) {
    var svc := Find(services, unit);
    svc.None? || MountsHeld(svc.value, mounts)
  }

  // The units of a list that a bulk start reaches, and those a bulk stop reaches.
  function Startable(services: seq<Service>, mounts: set<string>, units: set<string>, works: set<string>): set<string> {
    set u | u in units && u in works && Allowed(services, mounts, u) :: FullName(u)
  }

  function Stoppable(units: set<string>, works: set<string>): set<string> {
    set u | u in units && u in works :: FullName(u)
  }

  // Full names of those units of a list that are in the given set, one unit after the other.
  function Names(units: seq<string>, reached: set<string>): set<string> {
    if units == [] then {}
    else
      var last := units[|units| - 1];
      Names(units[..|units| - 1], reached) + if last in reached then {FullName(last)} else {}
  }

  lemma NamesStep(units: seq<string>, i: nat, reached: set<string>)
    requires i < |units|
    ensures Names(units[..i + 1], reached) ==
      Names(units[..i], reached) + if units[i] in reached then {FullName(units[i])} else {}
  {
    assert units[..i + 1][..i] == units[..i];
  }

  lemma StoppableStep(units: seq<string>, i: nat, reached: set<string>)
    requires i < |units|
    ensures Stoppable(Elements(units[..i + 1]), reached) ==
      Stoppable(Elements(units[..i]), reached) + if units[i] in reached then {FullName(units[i])} else {}
  {
    MissedStep(units, i, reached);
    StoppableMore(Elements(units[..i]), units[i], reached);
  }

  lemma StoppableMore(units: set<string>, unit: string, reached: set<string>)
    ensures Stoppable(units + {unit}, reached) ==
      Stoppable(units, reached) + if unit in reached then {FullName(unit)} else {}
  {}

  lemma {:induction false} NamesAre(units: seq<string>, i: nat, reached: set<string>)
    requires i <= |units|
    ensures Names(units[..i], reached) == Stoppable(Elements(units[..i]), reached)
  {
    if i > 0 {
      NamesAre(units, i - 1, reached);
      NamesStep(units, i - 1, reached);
      StoppableStep(units, i - 1, reached);
    }
  }

  lemma NamesAreStartable(services: seq<Service>, mounts: set<string>, units: seq<string>, works: set<string>)
    ensures Names(units, Reachable(services, mounts, works)) == Startable(services, mounts, Elements(units), works)
  {
    NamesAre(units, |units|, Reachable(services, mounts, works));
    assert units[..|units|] == units;
    StartableIs(services, mounts, Elements(units), works);
  }

  lemma StartableIs(services: seq<Service>, mounts: set<string>, units: set<string>, works: set<string>)
    ensures Startable(services, mounts, units, works) == Stoppable(units, Reachable(services, mounts, works))
  {}

  // ---- Effects ------------------------------------------------------------------

  function Started(h: Host, unit: string, works: bool): Host {
    if !IsManagedSpec(h.services, unit) then h
    else
      var cleared := h.(userStopped := h.userStopped - {unit});
      if Allowed(h.services, h.mounts, unit) && works then cleared.(active := h.active + {FullName(unit)}) else cleared
  }

  function Stopped(h: Host, unit: string, works: bool): Host {
    if !IsManagedSpec(h.services, unit) then h
    else h.(userStopped := h.userStopped + {unit},
            active := if works then h.active - {FullName(unit)} else h.active)
  }

  function Restarted(h: Host, unit: string, works: bool): Host {
    if !IsManagedSpec(h.services, unit) then h
    else h.(userStopped := h.userStopped - {unit},
            active := if works then h.active + {FullName(unit)} else h.active)
  }

  function StartedAll(h: Host, works: set<string>): Host {
    h.(userStopped := h.userStopped - EnabledSpec(h.services),
       active := h.active + Startable(h.services, h.mounts, EnabledSpec(h.services), works))
  }

  function StoppedAll(h: Host, works: set<string>): Host {
    h.(userStopped := h.userStopped + EnabledSpec(h.services),
       active := h.active - Stoppable(EnabledSpec(h.services), works))
  }

  predicate NeededBy(h: Host, mount: string, svc: Service) {
    mount in svc.requiresMounts && IsActive(h, svc.unit)
  }

  // mount is the path of the request; target is the mount that umount resolves it to, which differs for a device or
  // another spelling of the path.
  function Unmounted(h: Host, mount: string, target: string, works: bool): Host {
    if works && forall svc :: svc in h.services ==> !NeededBy(h, mount, svc)
    then h.(mounts := h.mounts - {target}) else h
  }

  // An enabled running service that misses a mount.
  predicate Unsound(h: Host, svc: Service) {
    svc.enabled && IsActive(h, svc.unit) && !MountsHeld(svc, h.mounts)
  }

  // ---- The handlers ---------------------------------------------------------------

  class Api {
    var services: seq<Service>
    var userStopped: set<string>
    var active: set<string>
    var mounts: set<string>

    function View(): Host
      reads this
    {
      Host(services, userStopped, active, mounts)
    }

    constructor (h: Host)
      ensures View() == h
    {
      services, userStopped, active, mounts := h.services, h.userStopped, h.active, h.mounts;
    }

    method IsManaged(unit: string) returns (managed: bool)
      ensures managed == IsManagedSpec(services, unit)
    {
      var name := if !HasSuffix(unit, ".service") then unit + ".service" else unit;
      for i := 0 to |services|
        invariant forall j :: 0 <= j < i ==> services[j].unit != name
      {
        if services[i].unit == name { return true; }
      }
      managed := false;
    }

    method EnabledUnits() returns (units: seq<string>)
      ensures units == EnabledNames(services)
    {
      units := [];
      for i := 0 to |services|
        invariant units == EnabledNames(services[..i])
      {
        assert services[..i + 1][..i] == services[..i];
        if services[i].enabled { units := units + [services[i].unit]; }
      }
      assert services[..|services|] == services;
    }

    method CheckConstraints(svc: Service) returns (ok: bool)
      ensures ok == MountsHeld(svc, mounts)
    {
      for i := 0 to |svc.requiresMounts|
        invariant forall j :: 0 <= j < i ==> svc.requiresMounts[j] in mounts
      {
        if svc.requiresMounts[i] !in mounts { return false; }
      }
      ok := true;
    }

    // The constraint loop shared by start and start-all.
    method CheckUnit(unit: string) returns (ok: bool)
      ensures ok == Allowed(services, mounts, unit)
    {
      for i := 0 to |services|
        invariant Find(services, unit) == Find(services[i..], unit)
      {
        if services[i].unit == unit {
          ok := CheckConstraints(services[i]);
          return;
        }
      }
      ok := true;
    }

    method StartUnit(unit: string, works: bool) returns (ok: bool)
      modifies this`active
      ensures ok <==> Allowed(services, mounts, unit) && works
      ensures active == old(active) + if ok then {FullName(unit)} else {}
    {
      ok := CheckUnit(unit);
      if !ok { return false; }
      if works { active := active + {FullName(unit)}; }
      ok := works;
    }

    method Start(unit: string, works: bool) returns (success: bool)
      modifies this
      ensures View() == Started(old(View()), unit, works)
      ensures success <==> IsManagedSpec(services, unit) && Allowed(services, mounts, unit) && works
    {
      var managed := IsManaged(unit);
      if !managed { return false; }
      userStopped := userStopped - {unit};
      success := StartUnit(unit, works);
    }

    method Stop(unit: string, works: bool) returns (success: bool)
      modifies this
      ensures View() == Stopped(old(View()), unit, works)
      ensures success <==> IsManagedSpec(services, unit) && works
    {
      var managed := IsManaged(unit);
      if !managed { return false; }
      userStopped := userStopped + {unit};
      if works { active := active - {FullName(unit)}; }
      success := works;
    }

    method Restart(unit: string, works: bool) returns (success: bool)
      modifies this
      ensures View() == Restarted(old(View()), unit, works)
      ensures success <==> IsManagedSpec(services, unit) && works
    {
      var managed := IsManaged(unit);
      if !managed { return false; }
      userStopped := userStopped - {unit};
      if works { active := active + {FullName(unit)}; }
      success := works;
    }

    method StartAll(works: set<string>) returns (total: nat, failed: nat)
      modifies this
      ensures View() == StartedAll(old(View()), works)
      ensures total == |EnabledNames(services)|
      ensures failed == Missed(EnabledNames(services), Reachable(services, mounts, works))
    {
      var units := EnabledUnits();
      total, failed := |units|, 0;
      userStopped := userStopped - Elements(units);
      EnabledNamesElements(services);
      ghost var before := active;
      ghost var reached := Reachable(services, mounts, works);
      for i := 0 to |units|
        modifies this`active
        invariant active == before + Names(units[..i], reached)
        invariant failed == Missed(units[..i], reached)
      {
        NamesStep(units, i, reached);
        MissedStep(units, i, reached);
        var ok := StartUnit(units[i], units[i] in works);
        assert ok <==> units[i] in reached;
        if !ok { failed := failed + 1; }
      }
      assert units[..|units|] == units;
      NamesAreStartable(services, mounts, units, works);
    }

    method StopAll(works: set<string>) returns (total: nat, failed: nat)
      modifies this
      ensures View() == StoppedAll(old(View()), works)
      ensures total == |EnabledNames(services)|
      ensures failed == Missed(EnabledNames(services), works)
    {
      var units := EnabledUnits();
      total, failed := |units|, 0;
      userStopped := userStopped + Elements(units);
      EnabledNamesElements(services);
      ghost var before := active;
      for i := 0 to |units|
        modifies this`active
        invariant active == before - Names(units[..i], works)
        invariant failed == Missed(units[..i], works)
      {
        NamesStep(units, i, works);
        MissedStep(units, i, works);
        if units[i] in works {
          active := active - {FullName(units[i])};
        } else {
          failed := failed + 1;
        }
      }
      assert units[..|units|] == units;
      NamesAre(units, |units|, works);
    }

    method Mount(mount: string, works: bool)
      modifies this
      ensures View() == old(View()).(mounts := old(mounts) + if works then {mount} else {})
    {
      if works { mounts := mounts + {mount}; }
    }

    // Refused while a running service requires the mount; the services are reported.
    method Unmount(mount: string, target: string, works: bool) returns (activeDeps: seq<string>)
      modifies this
      ensures View() == Unmounted(old(View()), mount, target, works)
      ensures forall u :: u in activeDeps <==>
        exists svc :: svc in services && svc.unit == u && NeededBy(old(View()), mount, svc)
    {
      activeDeps := [];
      for i := 0 to |services|
        invariant View() == old(View())
        invariant forall u :: u in activeDeps <==>
          exists j :: 0 <= j < i && services[j].unit == u && NeededBy(View(), mount, services[j])
      {
        if mount in services[i].requiresMounts && FullName(services[i].unit) in active {
          activeDeps := activeDeps + [services[i].unit];
        }
      }
      if activeDeps != [] {
        assert activeDeps[0] in activeDeps;
        return;
      }
      forall svc | svc in services ensures !NeededBy(View(), mount, svc) {
        assert svc.unit !in activeDeps;
      }
      if works { mounts := mounts - {target}; }
    }

    // Entries in works are those whose systemctl stop succeeds.
    method VerifyRunningServices(works: set<nat>) returns (stopped: nat)
      modifies this
      ensures services == old(services) && mounts == old(mounts) && userStopped == old(userStopped)
      ensures active == old(active) - StoppedByVerify(old(View()), |services|, works)
      ensures stopped == |StoppedByVerify(old(View()), |services|, works)|
    {
      stopped := 0;
      ghost var h := View();
      ghost var gone: set<string> := {};
      for i := 0 to |services|
        modifies this`active
        invariant gone == StoppedByVerify(h, i, works) && stopped == |gone|
        invariant active == h.active - gone
      {
        VerifyOneMore(h, i, works, gone);
        var svc := services[i];
        if svc.enabled && FullName(svc.unit) in active {
          var ok := CheckConstraints(svc);
          if !ok && i in works {
            active := active - {FullName(svc.unit)};
            stopped := stopped + 1;
            gone := gone + {FullName(svc.unit)};
          }
        }
      }
    }

    // config is what loadConfig returns, unless it fails.
    method Reload(config: Option<seq<Service>>, works: set<nat>) returns (success: bool, stopped: nat)
      modifies this
      ensures success == config.Some?
      ensures config.None? ==> View() == old(View()) && stopped == 0
      ensures config.Some? ==> View() == Reloaded(old(View()), config.value, works)
      ensures config.Some? ==>
        stopped == |StoppedByVerify(old(View()).(services := config.value), |config.value|, works)|
    {
      if config.None? { return false, 0; }
      services := config.value;
      stopped := VerifyRunningServices(works);
      success := true;
    }
  }

  // Units among the first n entries that verification stops.
  function StoppedByVerify(h: Host, n: nat, works: set<nat>): set<string>
    requires n <= |h.services|
  {
    set i: nat | i < n && Unsound(h, h.services[i]) && i in works :: FullName(h.services[i].unit)
  }

  lemma StoppedByVerifyStep(h: Host, i: nat, works: set<nat>)
    requires i < |h.services|
    ensures var svc := h.services[i];
      StoppedByVerify(h, i + 1, works) ==
        StoppedByVerify(h, i, works) + if Unsound(h, svc) && i in works then {FullName(svc.unit)} else {}
  {}

  lemma VerifyOneMore(h: Host, i: nat, works: set<nat>, gone: set<string>)
    requires i < |h.services| && gone == StoppedByVerify(h, i, works)
    ensures var svc := h.services[i];
      var stops := svc.enabled && FullName(svc.unit) in h.active - gone && !MountsHeld(svc, h.mounts) && i in works;
      && StoppedByVerify(h, i + 1, works) == (if stops then gone + {FullName(svc.unit)} else gone)
      && (stops ==> FullName(svc.unit) !in gone)
  {
    StoppedByVerifyStep(h, i, works);
  }

  // ---- Mount safety ---------------------------------------------------------------

  // No active managed service lacks a required mount.
  ghost predicate MountSafe(h: Host) {
    forall svc :: svc in h.services && IsActive(h, svc.unit) ==> MountsHeld(svc, h.mounts)
  }

  // As Nix generates it: distinct full names.
  ghost predicate WellNamed(services: seq<Service>) {
    && Distinct(Units(services))
    && forall svc :: svc in services ==> HasSuffix(svc.unit, ".service")
  }

  datatype Command =
    | StartUnit(unit: string, works: bool)
    | StopUnit(unit: string, works: bool)
    | StartEverything(reached: set<string>)
    | StopEverything(reached: set<string>)
    | MountPath(mount: string, works: bool)
    | UnmountPath(mount: string, target: string, works: bool)

  function Exec(h: Host, c: Command): Host {
    match c
    case StartUnit(unit, works) => Started(h, unit, works)
    case StopUnit(unit, works) => Stopped(h, unit, works)
    case StartEverything(reached) => StartedAll(h, reached)
    case StopEverything(reached) => StoppedAll(h, reached)
    case MountPath(mount, works) => if works then h.(mounts := h.mounts + {mount}) else h
    case UnmountPath(mount, target, works) => Unmounted(h, mount, target, works)
  }

  function ExecAll(h: Host, commands: seq<Command>): Host
    decreases |commands|
  {
    if commands == [] then h else ExecAll(Exec(h, commands[0]), commands[1..])
  }

  lemma FindIsTheEntry(services: seq<Service>, svc: Service)
    requires WellNamed(services) && svc in services
    ensures Find(services, svc.unit) == Some(svc)
  {
    var i :| 0 <= i < |services| && services[i] == svc;
    assert Units(services)[i] == svc.unit;
    var found := Find(services, svc.unit).value;
    var j :| 0 <= j < |services| && services[j] == found;
    assert Units(services)[j] == Units(services)[i];
  }

  // The entry a request addresses once its name is completed.
  function Addressed(h: Host, unit: string): (r: Option<Service>) {
    Find(h.services, FullName(unit))
  }

  lemma ManagedMeansAddressed(h: Host, unit: string)
    ensures IsManagedSpec(h.services, unit) <==> Addressed(h, unit).Some?
  {
    if IsManagedSpec(h.services, unit) {
      var i :| 0 <= i < |h.services| && h.services[i].unit == FullName(unit);
      assert Units(h.services)[i] == FullName(unit);
    }
  }

  // Activating one unit keeps mount safety exactly when its own mounts are there.
  lemma ActivatingOne(h: Host, unit: string)
    requires WellNamed(h.services) && MountSafe(h)
    ensures MountSafe(h.(active := h.active + {FullName(unit)})) <==>
      Addressed(h, unit).None? || MountsHeld(Addressed(h, unit).value, h.mounts)
  {
    var t := h.(active := h.active + {FullName(unit)});
    var svc := Addressed(h, unit);
    if svc.Some? && !MountsHeld(svc.value, h.mounts) {
      assert IsActive(t, svc.value.unit);
    } else {
      forall other | other in t.services && IsActive(t, other.unit) ensures MountsHeld(other, t.mounts) {
        if other.unit == FullName(unit) { FindIsTheEntry(h.services, other); }
      }
    }
  }

  lemma BareNameFindsNothing(services: seq<Service>, unit: string)
    requires WellNamed(services) && !HasSuffix(unit, ".service")
    ensures Find(services, unit).None?
  {
    var found := Find(services, unit);
  }

  // A start request keeps mount safety exactly when it uses a full name or the mounts
  // are there anyway: a bare name passes isManaged but finds no entry to check.
  lemma StartKeepsMountSafetyExactlyWhen(h: Host, unit: string)
    requires WellNamed(h.services) && MountSafe(h) && IsManagedSpec(h.services, unit)
    ensures MountSafe(Started(h, unit, true)) <==>
      HasSuffix(unit, ".service") || MountsHeld(Addressed(h, unit).value, h.mounts)
  {
    ManagedMeansAddressed(h, unit);
    ActivatingOne(h, unit);
    var t := h.(active := h.active + {FullName(unit)});
    assert MountSafe(Started(h, unit, true)) <==> MountSafe(if Allowed(h.services, h.mounts, unit) then t else h);
    if !HasSuffix(unit, ".service") { BareNameFindsNothing(h.services, unit); }
  }

  // The restart handler checks no mounts at all.
  lemma RestartKeepsMountSafetyExactlyWhen(h: Host, unit: string)
    requires WellNamed(h.services) && MountSafe(h) && IsManagedSpec(h.services, unit)
    ensures MountSafe(Restarted(h, unit, true)) <==> MountsHeld(Addressed(h, unit).value, h.mounts)
  {
    ManagedMeansAddressed(h, unit);
    ActivatingOne(h, unit);
    var t := h.(active := h.active + {FullName(unit)});
    assert MountSafe(Restarted(h, unit, true)) <==> MountSafe(t);
  }

  // A stop request marks the unit the monitor knows exactly when it uses its full name.
  lemma StopMarksTheUnitExactlyWhen(h: Host, unit: string, works: bool)
    requires IsManagedSpec(h.services, unit) && FullName(unit) !in h.userStopped
    ensures FullName(unit) in Stopped(h, unit, works).userStopped <==> HasSuffix(unit, ".service")
  {}

  // A start request lifts a stop of the unit exactly when it uses the full name.
  lemma StartLiftsTheStopExactlyWhen(h: Host, unit: string, works: bool)
    requires IsManagedSpec(h.services, unit) && FullName(unit) in h.userStopped
    ensures FullName(unit) !in Started(h, unit, works).userStopped <==> HasSuffix(unit, ".service")
  {}

  lemma StartAllKeepsMountSafety(h: Host, works: set<string>)
    requires WellNamed(h.services) && MountSafe(h)
    ensures MountSafe(StartedAll(h, works))
  {
    var t := StartedAll(h, works);
    forall svc | svc in t.services && IsActive(t, svc.unit) ensures MountsHeld(svc, t.mounts) {
      FindIsTheEntry(h.services, svc);
      if !IsActive(h, svc.unit) {
        var u :| u in EnabledSpec(h.services) && u in works && Allowed(h.services, h.mounts, u)
          && FullName(u) == FullName(svc.unit);
        var other :| other in h.services && other.unit == u;
        assert HasSuffix(other.unit, ".service") && HasSuffix(svc.unit, ".service");
      }
    }
  }

  // An unmount that is not refused keeps mount safety exactly when no running service requires what is unmounted.
  lemma UnmountKeepsMountSafetyExactlyWhen(h: Host, mount: string, target: string)
    requires MountSafe(h)
    ensures MountSafe(Unmounted(h, mount, target, true)) <==>
      || (exists svc :: svc in h.services && NeededBy(h, mount, svc))
      || (forall svc :: svc in h.services ==> !NeededBy(h, target, svc))
  {
    var t := Unmounted(h, mount, target, true);
    if forall svc :: svc in h.services ==> !NeededBy(h, mount, svc) {
      forall svc | svc in h.services && IsActive(h, svc.unit)
        ensures MountsHeld(svc, t.mounts) <==> target !in svc.requiresMounts
      {
        assert MountsHeld(svc, h.mounts);
        assert target in svc.requiresMounts ==> target !in t.mounts;
      }
    }
  }

  // The request uses the name and the path that the configuration uses.
  predicate Direct(c: Command) {
    match c
    case StartUnit(unit, _) => HasSuffix(unit, ".service")
    case UnmountPath(mount, target, _) => target == mount
    case _ => true
  }

  lemma CommandKeepsMountSafety(h: Host, c: Command)
    requires WellNamed(h.services) && MountSafe(h)
    requires Direct(c)
    ensures MountSafe(Exec(h, c)) && Exec(h, c).services == h.services
  {
    match c
    case StartUnit(unit, works) =>
      if IsManagedSpec(h.services, unit) && works { StartKeepsMountSafetyExactlyWhen(h, unit); }
    case StartEverything(reached) => StartAllKeepsMountSafety(h, reached);
    case UnmountPath(mount, target, works) =>
      if works { UnmountKeepsMountSafetyExactlyWhen(h, mount, target); }
    case _ =>
  }

  // No sequence of start, stop, start-all, stop-all, mount and unmount commands leaves
  // an active managed service without a mount it requires.
  lemma {:induction false} CommandsKeepMountSafety(h: Host, commands: seq<Command>)
    requires WellNamed(h.services) && MountSafe(h)
    requires forall c :: c in commands ==> Direct(c)
    ensures MountSafe(ExecAll(h, commands))
    decreases |commands|
  {
    if commands != [] {
      CommandKeepsMountSafety(h, commands[0]);
      CommandsKeepMountSafety(Exec(h, commands[0]), commands[1..]);
    }
  }

  // After verification an enabled service still violates its mounts exactly when it did
  // before and no entry of its name could be stopped.
  lemma VerificationRestoresSafety(h: Host, works: set<nat>, svc: Service)
    requires svc in h.services
    ensures var t := h.(active := h.active - StoppedByVerify(h, |h.services|, works));
      Unsound(t, svc) <==> Unsound(h, svc) && forall i: nat ::
        i < |h.services| && Unsound(h, h.services[i]) && FullName(h.services[i].unit) == FullName(svc.unit) ==>
          i !in works
  {}

  // ---- Reload --------------------------------------------------------------------------------

  function Reloaded(h: Host, config: seq<Service>, works: set<nat>): Host {
    var k := h.(services := config);
    k.(active := h.active - StoppedByVerify(k, |config|, works))
  }

  // A running service that the new configuration requires a missing mount of, and that verification does not stop:
  // it is disabled, or its stop fails.
  ghost predicate ReloadLeaves(h: Host, config: seq<Service>, works: set<nat>) {
    exists i :: 0 <= i < |config| && IsActive(h, config[i].unit) && !MountsHeld(config[i], h.mounts)
      && (!config[i].enabled || i !in works)
  }

  lemma StoppedIffItself(h: Host, config: seq<Service>, works: set<nat>, i: nat)
    requires WellNamed(config) && h.services == config && i < |config|
    ensures FullName(config[i].unit) in StoppedByVerify(h, |config|, works) <==> Unsound(h, config[i]) && i in works
  {
    forall k | 0 <= k < |config| && FullName(config[k].unit) == FullName(config[i].unit) ensures k == i {
      assert config[k] in config && config[i] in config;
      assert Units(config)[k] == Units(config)[i];
    }
  }

  lemma ReloadKeepsMountSafetyExactlyWhen(h: Host, config: seq<Service>, works: set<nat>)
    requires WellNamed(config)
    ensures MountSafe(Reloaded(h, config, works)) <==> !ReloadLeaves(h, config, works)
  {
    var k := h.(services := config);
    var t := Reloaded(h, config, works);
    forall i | 0 <= i < |config|
      ensures IsActive(t, config[i].unit) <==>
        IsActive(h, config[i].unit) && !(Unsound(k, config[i]) && i in works)
    {
      StoppedIffItself(k, config, works, i);
    }
    if ReloadLeaves(h, config, works) {
      var i :| 0 <= i < |config| && IsActive(h, config[i].unit) && !MountsHeld(config[i], h.mounts)
        && (!config[i].enabled || i !in works);
      assert config[i] in t.services && IsActive(t, config[i].unit);
    } else {
      forall svc | svc in t.services && IsActive(t, svc.unit) ensures MountsHeld(svc, t.mounts) {
        var i :| 0 <= i < |config| && config[i] == svc;
        assert IsActive(t, config[i].unit);
      }
    }
  }

  // ---- Requests for which it fails --------------------------------------------------------

  function Sample(active: set<string>, mounts: set<string>): (h: Host)
    ensures WellNamed(h.services) && (active == {} || "/m" in mounts ==> MountSafe(h))
  {
    Host([Service("a.service", true, 0, 0, [], ["/m"], Always, 0, "", "")], {}, active, mounts)
  }

  // Starting "a" where "a.service" lacks its mount; the full name is refused.
  lemma BareStartBreaksMountSafety()
    ensures var h := Sample({}, {});
      MountSafe(h) && !MountSafe(Started(h, "a", true)) && MountSafe(Started(h, "a.service", true))
  {
    var h := Sample({}, {});
    NameOfA();
    assert h.services[0].unit == "a.service";
    assert IsManagedSpec(h.services, "a") && IsManagedSpec(h.services, "a.service");
    StartKeepsMountSafetyExactlyWhen(h, "a");
    StartKeepsMountSafetyExactlyWhen(h, "a.service");
    assert "/m" in Addressed(h, "a").value.requiresMounts;
  }

  lemma RestartBreaksMountSafety()
    ensures var h := Sample({}, {}); MountSafe(h) && !MountSafe(Restarted(h, "a.service", true))
  {
    var h := Sample({}, {});
    NameOfA();
    assert h.services[0].unit == "a.service" && IsManagedSpec(h.services, "a.service");
    RestartKeepsMountSafetyExactlyWhen(h, "a.service");
    assert "/m" in Addressed(h, "a.service").value.requiresMounts;
  }

  // Stopping "a" stops the unit but marks a name that nobody looks up.
  lemma BareStopIsForgotten()
    ensures var h := Stopped(Sample({"a.service"}, {"/m"}), "a", true);
      h.active == {} && "a.service" !in h.userStopped
  {
    var h := Sample({"a.service"}, {"/m"});
    NameOfA();
    assert h.services[0].unit == "a.service" && IsManagedSpec(h.services, "a");
  }

  // "/m/" passes the check and unmounts "/m".
  lemma AliasUnmountBreaksMountSafety()
    ensures var h := Sample({"a.service"}, {"/m"}); MountSafe(h) && !MountSafe(Unmounted(h, "/m/", "/m", true))
  {
    var h := Sample({"a.service"}, {"/m"});
    NameOfA();
    var svc := h.services[0];
    assert svc in h.services && NeededBy(h, "/m", svc);
    UnmountKeepsMountSafetyExactlyWhen(h, "/m/", "/m");
    forall other | other in h.services ensures !NeededBy(h, "/m/", other) { assert |"/m/"| != |"/m"|; }
  }

  lemma NameOfA()
    ensures FullName("a") == FullName("a.service") == "a.service" && !HasSuffix("a", ".service")
  {
    assert "a.service"[1..] == ".service";
  }
}
