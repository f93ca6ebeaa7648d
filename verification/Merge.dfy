// Merging Nix-generated defaults into the user's configuration
// (cmd/daemon/merge.go, lines 49-132 and 210-221; cmd/daemon/config.go, lines 147-159).
module Merge {
  import opened Domain
  import Rounds

  const CURRENT_SCHEMA_VERSION: int := 1

  datatype Backup = Backup(
    unit: string,
    enabled: bool,
    schedule: string,
    dependsOn: seq<string>,
    requiresMounts: seq<string>,
    healthcheckUUID: string,
    pauseService: string)

  datatype Qui = Qui(enabled: bool, url: string)

  // rest stands for the sections that the merge never touches.
  datatype Config = Config(version: int, qui: Qui, services: seq<Service>, backups: seq<Backup>, rest: string)

  function ServiceName(s: Service): string { s.unit }
  function BackupName(b: Backup): string { b.unit }

  // The fields Nix owns are taken from the default, all others are kept.
  function SyncedService(s: Service, d: Service): Service {
    s.(requiresMounts := d.requiresMounts, dependsOn := d.dependsOn, iconURL := d.iconURL, homepageURL := d.homepageURL)
  }

  function SyncedBackup(b: Backup, d: Backup): Backup {
    b.(requiresMounts := d.requiresMounts, dependsOn := d.dependsOn)
  }

  function MergedServices(services: seq<Service>, defaults: seq<Service>): seq<Service> {
    Rounds.Merged(ServiceName, SyncedService, services, defaults)
  }

  function MergedBackups(backups: seq<Backup>, defaults: seq<Backup>): seq<Backup> {
    Rounds.Merged(BackupName, SyncedBackup, backups, defaults)
  }

  function Migrated(c: Config): Config {
    c.(version := if c.version < CURRENT_SCHEMA_VERSION then CURRENT_SCHEMA_VERSION else c.version)
  }

  function Merged(c: Config, d: Config): Config {
    Migrated(c.(qui := d.qui, services := MergedServices(c.services, d.services),
                 backups := MergedBackups(c.backups, d.backups)))
  }

  ghost predicate DistinctUnits(c: Config) {
    && Distinct(Rounds.Names(ServiceName, c.services))
    && Distinct(Rounds.Names(BackupName, c.backups))
  }

  // ---- The in-place merge -----------------------------------------------------------

  method StringSlicesEqual(a: seq<string>, b: seq<string>) returns (equal: bool)
    ensures equal == (a == b)
  {
    if |a| != |b| { return false; }
    for i := 0 to |a|
      invariant a[..i] == b[..i]
    {
      if a[i] != b[i] { return false; }
      assert a[..i + 1] == a[..i] + [a[i]] && b[..i + 1] == b[..i] + [b[i]];
    }
    assert a[..|a|] == a && b[..|b|] == b;
    equal := true;
  }

  // The lookup map built before each loop.
  method IndexOf(names: seq<string>) returns (index: map<string, nat>)
    ensures Rounds.Indexes(index, names)
  {
    index := map[];
    for i := 0 to |names|
      invariant Rounds.Indexes(index, names[..i])
    {
      assert names[..i + 1][..i] == names[..i];
      index := index[names[i] := i];
    }
    assert names[..|names|] == names;
  }

  // Whether one of the loops reports a change, or one of the two other steps.
  ghost predicate Reports(c: Config, d: Config) {
    || Rounds.SomeRoundChanges(ServiceName, SyncedService, c.services, d.services, |d.services|)
    || Rounds.SomeRoundChanges(BackupName, SyncedBackup, c.backups, d.backups, |d.backups|)
    || c.qui != d.qui || Migrated(c) != c
  }

  ghost predicate ServiceDisagrees(c: Config, d: Config) {
    exists s :: s in d.services && !Rounds.Agrees(ServiceName, SyncedService, c.services, s)
  }

  ghost predicate BackupDisagrees(c: Config, d: Config) {
    exists b :: b in d.backups && !Rounds.Agrees(BackupName, SyncedBackup, c.backups, b)
  }

  // Whatever is listed how often: the flag is wrong exactly when the configuration is already what the last default
  // of every unit asks for, and an earlier default of some unit disagrees.
  lemma FlagIsWrongExactlyWhen(c: Config, d: Config)
    ensures Reports(c, d) != (Merged(c, d) != c) <==>
      && Rounds.Unmoved(ServiceName, SyncedService, c.services, d.services)
      && Rounds.Unmoved(BackupName, SyncedBackup, c.backups, d.backups)
      && c.qui == d.qui && c.version >= CURRENT_SCHEMA_VERSION
      && (ServiceDisagrees(c, d) || BackupDisagrees(c, d))
  {
    Rounds.FlagIsWrongExactlyWhen(ServiceName, SyncedService, c.services, d.services);
    Rounds.OutcomeIs(ServiceName, SyncedService, c.services, d.services);
    Rounds.FlagIsWrongExactlyWhen(BackupName, SyncedBackup, c.backups, d.backups);
    Rounds.OutcomeIs(BackupName, SyncedBackup, c.backups, d.backups);
  }

  lemma FlagIsExact(c: Config, d: Config)
    requires DistinctUnits(d)
    ensures Reports(c, d) <==> Merged(c, d) != c
  {
    Rounds.FlagIsExact(ServiceName, SyncedService, c.services, d.services);
    Rounds.FlagIsExact(BackupName, SyncedBackup, c.backups, d.backups);
  }

  class ConfigCell {
    var version: int
    var qui: Qui
    var services: seq<Service>
    var backups: seq<Backup>
    const rest: string

    function View(): Config
      reads this
    {
      Config(version, qui, services, backups, rest)
    }

    constructor (c: Config)
      ensures View() == c
    {
      version, qui, services, backups, rest := c.version, c.qui, c.services, c.backups, c.rest;
    }

    method Migrate() returns (modified: bool)
      modifies this
      ensures View() == Migrated(old(View()))
      ensures modified == (View() != old(View()))
    {
      modified := false;
      if version < 1 {
        version := 1;
        modified := true;
      }
    }

    method SyncService(i: nat, d: Service) returns (modified: bool)
      requires i < |services|
      modifies this`services
      ensures services == old(services)[i := SyncedService(old(services)[i], d)]
      ensures modified == (services[i] != old(services)[i])
    {
      modified := false;
      var equal := StringSlicesEqual(services[i].requiresMounts, d.requiresMounts);
      if !equal {
        services := services[i := services[i].(requiresMounts := d.requiresMounts)];
        modified := true;
      }
      equal := StringSlicesEqual(services[i].dependsOn, d.dependsOn);
      if !equal {
        services := services[i := services[i].(dependsOn := d.dependsOn)];
        modified := true;
      }
      if services[i].iconURL != d.iconURL {
        services := services[i := services[i].(iconURL := d.iconURL)];
        modified := true;
      }
      if services[i].homepageURL != d.homepageURL {
        services := services[i := services[i].(homepageURL := d.homepageURL)];
        modified := true;
      }
    }

    method SyncBackup(i: nat, d: Backup) returns (modified: bool)
      requires i < |backups|
      modifies this`backups
      ensures backups == old(backups)[i := SyncedBackup(old(backups)[i], d)]
      ensures modified == (backups[i] != old(backups)[i])
    {
      modified := false;
      var equal := StringSlicesEqual(backups[i].requiresMounts, d.requiresMounts);
      if !equal {
        backups := backups[i := backups[i].(requiresMounts := d.requiresMounts)];
        modified := true;
      }
      equal := StringSlicesEqual(backups[i].dependsOn, d.dependsOn);
      if !equal {
        backups := backups[i := backups[i].(dependsOn := d.dependsOn)];
        modified := true;
      }
    }

    // The body of the loop over the default services.
    method ServiceRound(index: map<string, nat>, d: Service, ghost names: seq<string>) returns (changed: bool)
      requires Rounds.Indexes(index, names) && |names| <= |services|
      modifies this`services
      ensures services == Rounds.Round(ServiceName, SyncedService, names, old(services), d)
      ensures changed == (services != old(services))
    {
      if d.unit in index {
        changed := SyncService(index[d.unit], d);
      } else {
        services := services + [d];
        changed := true;
      }
    }

    method MergeServices(defaults: seq<Service>) returns (modified: bool)
      modifies this`services
      ensures services == MergedServices(old(services), defaults)
      ensures modified == Rounds.SomeRoundChanges(ServiceName, SyncedService, old(services), defaults, |defaults|)
    {
      ghost var before := services;
      ghost var names := Rounds.Names(ServiceName, services);
      var index := IndexOf(Rounds.Names(ServiceName, services));
      modified := false;
      for k := 0 to |defaults|
        invariant services == MergedServices(before, defaults[..k])
        invariant modified == Rounds.SomeRoundChanges(ServiceName, SyncedService, before, defaults, k)
      {
        var changed := ServiceRound(index, defaults[k], names);
        Rounds.MergedStep(ServiceName, SyncedService, before, defaults, k);
        Rounds.OneMoreRound(ServiceName, SyncedService, before, defaults, k);
        modified := modified || changed;
      }
      assert defaults[..|defaults|] == defaults;
    }

    // The body of the loop over the default backups.
    method BackupRound(index: map<string, nat>, d: Backup, ghost names: seq<string>) returns (changed: bool)
      requires Rounds.Indexes(index, names) && |names| <= |backups|
      modifies this`backups
      ensures backups == Rounds.Round(BackupName, SyncedBackup, names, old(backups), d)
      ensures changed == (backups != old(backups))
    {
      if d.unit in index {
        changed := SyncBackup(index[d.unit], d);
      } else {
        backups := backups + [d];
        changed := true;
      }
    }

    method MergeBackups(defaults: seq<Backup>) returns (modified: bool)
      modifies this`backups
      ensures backups == MergedBackups(old(backups), defaults)
      ensures modified == Rounds.SomeRoundChanges(BackupName, SyncedBackup, old(backups), defaults, |defaults|)
    {
      ghost var before := backups;
      ghost var names := Rounds.Names(BackupName, backups);
      var index := IndexOf(Rounds.Names(BackupName, backups));
      modified := false;
      for k := 0 to |defaults|
        invariant backups == MergedBackups(before, defaults[..k])
        invariant modified == Rounds.SomeRoundChanges(BackupName, SyncedBackup, before, defaults, k)
      {
        var changed := BackupRound(index, defaults[k], names);
        Rounds.MergedStep(BackupName, SyncedBackup, before, defaults, k);
        Rounds.OneMoreRound(BackupName, SyncedBackup, before, defaults, k);
        modified := modified || changed;
      }
      assert defaults[..|defaults|] == defaults;
    }

    // The merge; the flag is exact unless a unit is listed twice among the defaults.
    method Merge(d: Config) returns (modified: bool)
      modifies this
      ensures View() == Merged(old(View()), d)
      ensures modified == Reports(old(View()), d)
      ensures DistinctUnits(d) ==> modified == (View() != old(View()))
    {
      ghost var before := View();
      var inServices := MergeServices(d.services);
      var inBackups := MergeBackups(d.backups);
      modified := inServices || inBackups;
      if qui != d.qui {
        qui := d.qui;
        modified := true;
      }
      var migrated := Migrate();
      modified := modified || migrated;
      if DistinctUnits(d) { FlagIsExact(before, d); }
    }
  }

  // ---- What the merge guarantees -------------------------------------------------------

  // Merging the same defaults again changes nothing, even if they or the configuration list a
  // unit twice; no unit that was not is listed twice afterwards.
  lemma MergeIsAFixpoint(c: Config, d: Config)
    ensures Merged(Merged(c, d), d) == Merged(c, d)
    ensures DistinctUnits(c) && DistinctUnits(d) ==> DistinctUnits(Merged(c, d))
  {
    Rounds.MergedTwice(ServiceName, SyncedService, c.services, d.services);
    Rounds.MergedTwice(BackupName, SyncedBackup, c.backups, d.backups);
    if DistinctUnits(c) && DistinctUnits(d) {
      Rounds.MergedNames(ServiceName, SyncedService, c.services, d.services);
      Rounds.MergedNames(BackupName, SyncedBackup, c.backups, d.backups);
    }
  }

  // The second merge leaves the file alone.
  method MergeTwice(cell: ConfigCell, d: Config) returns (first: bool, second: bool)
    requires DistinctUnits(d)
    modifies cell
    ensures cell.View() == Merged(old(cell.View()), d) && !second
    ensures first == (cell.View() != old(cell.View()))
  {
    MergeIsAFixpoint(cell.View(), d);
    first := cell.Merge(d);
    second := cell.Merge(d);
  }

  // What else the merge leaves behind: Nix's qui section, the user's other sections, and at least version 1.
  lemma OtherSectionsAre(c: Config, d: Config)
    ensures var m := Merged(c, d);
      && m.qui == d.qui && m.rest == c.rest
      && m.version == if c.version < 1 then 1 else c.version
  {}

  // What the user owns in a service: everything but the fields taken from Nix.
  predicate SameUserFields(a: Service, b: Service) {
    && a.unit == b.unit && a.enabled == b.enabled && a.order == b.order
    && a.bootDelay == b.bootDelay && a.restart == b.restart && a.restartDelay == b.restartDelay
  }

  predicate SameNixFields(a: Service, b: Service) {
    && a.requiresMounts == b.requiresMounts && a.dependsOn == b.dependsOn
    && a.iconURL == b.iconURL && a.homepageURL == b.homepageURL
  }

  // The old units keep their places, and the units are exactly the union.
  lemma UnitsAreTheUnion(c: Config, d: Config)
    requires DistinctUnits(c) && DistinctUnits(d)
    ensures Units(c.services) <= Units(Merged(c, d).services)
    ensures forall u :: u in Units(Merged(c, d).services) <==> u in Units(c.services) || u in Units(d.services)
  {
    Rounds.MergedNames(ServiceName, SyncedService, c.services, d.services);
    NamesAreUnits(c.services);
    NamesAreUnits(Merged(c, d).services);
    NamesAreUnits(d.services);
  }

  lemma UnlistedHasNoDefault(ds: seq<Service>, unit: string)
    requires unit !in Units(ds)
    ensures Rounds.DefaultFor(ServiceName, ds, unit) == None
  {
    forall k | 0 <= k < |ds| ensures ServiceName(ds[k]) != unit {
      assert Units(ds)[k] in Units(ds);
    }
    Rounds.NoDefault(ServiceName, ds, unit);
  }

  lemma OldServiceKept(c: Config, d: Config, i: nat)
    requires DistinctUnits(c) && i < |c.services|
    ensures i < |Merged(c, d).services| && SameUserFields(Merged(c, d).services[i], c.services[i])
    ensures c.services[i].unit !in Units(d.services) ==> Merged(c, d).services[i] == c.services[i]
  {
    Rounds.MergedIs(ServiceName, SyncedService, c.services, d.services);
    if c.services[i].unit !in Units(d.services) { UnlistedHasNoDefault(d.services, c.services[i].unit); }
  }

  lemma NewServiceIsDefault(c: Config, d: Config, i: nat)
    requires DistinctUnits(c) && |c.services| <= i < |Merged(c, d).services|
    ensures Merged(c, d).services[i] in d.services
  {
    Rounds.NewEntryIsDefault(ServiceName, SyncedService, c.services, d.services, i);
  }

  // Existing services keep the user's fields, and those that Nix does not list stay
  // entirely as they are; what follows comes from Nix.
  lemma UserOwnershipIsRespected(c: Config, d: Config, i: nat)
    requires DistinctUnits(c) && DistinctUnits(d) && i < |Merged(c, d).services|
    ensures var after := Merged(c, d).services[i];
      if i < |c.services| then
        && SameUserFields(after, c.services[i])
        && (c.services[i].unit !in Units(d.services) ==> after == c.services[i])
      else after in d.services
  {
    if i < |c.services| { OldServiceKept(c, d, i); } else { NewServiceIsDefault(c, d, i); }
  }

  lemma NamesAreUnits(services: seq<Service>)
    ensures Rounds.Names(ServiceName, services) == Units(services)
  {}

  // Every service that Nix lists ends with its Nix fields.
  lemma NixOwnershipIsRespected(c: Config, d: Config, i: nat, k: nat)
    requires DistinctUnits(c) && DistinctUnits(d)
    requires i < |Merged(c, d).services| && k < |d.services| && Merged(c, d).services[i].unit == d.services[k].unit
    ensures SameNixFields(Merged(c, d).services[i], d.services[k])
  {
    var after := Merged(c, d).services;
    Rounds.OnlyDefault(ServiceName, d.services, k);
    Rounds.EntryIsSettled(ServiceName, SyncedService, c.services, d.services, i);
    assert Rounds.Entry(ServiceName, SyncedService, after[i], d.services) == SyncedService(after[i], d.services[k]);
  }

  lemma BackupOwnershipIsRespected(c: Config, d: Config)
    requires DistinctUnits(c) && DistinctUnits(d)
    ensures var before, after := c.backups, Merged(c, d).backups;
      && |before| <= |after|
      && (forall i :: 0 <= i < |before| ==>
            after[i] == before[i].(requiresMounts := after[i].requiresMounts, dependsOn := after[i].dependsOn))
      && (forall i, k :: 0 <= i < |after| && 0 <= k < |d.backups| && after[i].unit == d.backups[k].unit ==>
            after[i].requiresMounts == d.backups[k].requiresMounts && after[i].dependsOn == d.backups[k].dependsOn)
      && (forall i :: 0 <= i < |before| && before[i].unit !in Rounds.Names(BackupName, d.backups) ==>
            after[i] == before[i])
  {
    var before, after := c.backups, Merged(c, d).backups;
    Rounds.MergedIs(BackupName, SyncedBackup, before, d.backups);
    forall i, k | 0 <= i < |after| && 0 <= k < |d.backups| && after[i].unit == d.backups[k].unit
      ensures after[i].requiresMounts == d.backups[k].requiresMounts && after[i].dependsOn == d.backups[k].dependsOn
    {
      Rounds.OnlyDefault(BackupName, d.backups, k);
      Rounds.EntryIsSettled(BackupName, SyncedBackup, before, d.backups, i);
      assert Rounds.Entry(BackupName, SyncedBackup, after[i], d.backups) == SyncedBackup(after[i], d.backups[k]);
    }
    forall i | 0 <= i < |before| && before[i].unit !in Rounds.Names(BackupName, d.backups)
      ensures after[i] == before[i]
    {
      forall k | 0 <= k < |d.backups| ensures BackupName(d.backups[k]) != before[i].unit {
        assert Rounds.Names(BackupName, d.backups)[k] in Rounds.Names(BackupName, d.backups);
      }
      Rounds.NoDefault(BackupName, d.backups, before[i].unit);
    }
  }

  // The old backups keep their places, the units are exactly the union, and what follows comes from Nix.
  lemma BackupUnitsAreTheUnion(c: Config, d: Config)
    requires DistinctUnits(c) && DistinctUnits(d)
    ensures var before, after := c.backups, Merged(c, d).backups;
      && Rounds.Names(BackupName, before) <= Rounds.Names(BackupName, after)
      && (forall u :: u in Rounds.Names(BackupName, after) <==>
            u in Rounds.Names(BackupName, before) || u in Rounds.Names(BackupName, d.backups))
      && forall i :: |before| <= i < |after| ==> after[i] in d.backups
  {
    var before, after := c.backups, Merged(c, d).backups;
    Rounds.MergedNames(BackupName, SyncedBackup, before, d.backups);
    forall i | |before| <= i < |after| ensures after[i] in d.backups {
      Rounds.NewEntryIsDefault(BackupName, SyncedBackup, before, d.backups, i);
    }
  }

  // With a unit listed twice among the defaults the flag can be set although the
  // configuration ends as it began.
  lemma DuplicateDefaultsFoolTheFlag(s: Service, other: seq<string>)
    requires other != s.dependsOn
    ensures var ds := [s.(dependsOn := other), s];
      && MergedServices([s], ds) == [s]
      && Rounds.SomeRoundChanges(ServiceName, SyncedService, [s], ds, 2)
  {
    var ds := [s.(dependsOn := other), s];
    assert Rounds.Names(ServiceName, [s]) == [s.unit];
    assert ds[..1] == [ds[0]] && ds[..0] == [] && ds[..1][..0] == [] && ds[..|ds| - 1] == ds[..1];
    assert MergedServices([s], ds[..0]) == [s];
    assert MergedServices([s], ds[..1]) == [SyncedService(s, ds[0])];
    assert ds[..0 + 1] == ds[..1];
  }
}
