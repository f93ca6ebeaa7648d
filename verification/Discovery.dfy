// Grouping disks into bcachefs pools (internal/storage/bcachefs/bcachefs.go, lines 153-280 and 431-457).
module Discovery {
  import opened Domain
  import opened Superblock
  import opened SuperLines
  import opened Text

  // tag, dataTarget and metadataTarget are filled in by the discovery.
  datatype Disk = Disk(
    name: string,
    path: string,
    fsType: string,
    mountpoint: string,
    tag: string,
    dataTarget: string,
    metadataTarget: string)

  datatype Pool = Pool(
    uuid: string,
    mounted: bool,
    mountdir: string,
    tag: string,
    dataReplicas: int,
    metadataReplicas: int,
    disks: seq<Disk>)

  // What show-super prints for a path, if it succeeds, and the content of /proc/mounts.
  datatype Env = Env(showSuper: string -> Option<string>, mounts: string)

  // ---- The canonical mount of a device ---------------------------------------------

  predicate MountsDevice(line: string, device: string) {
    var fields := Fields(line);
    |fields| >= 3 && fields[2] == "bcachefs" && device in Split(fields[0], ':')
  }

  // The line mounts the device there.
  predicate MountsAt(line: string, device: string, dir: string) {
    MountsDevice(line, device) && Fields(line)[1] == dir
  }

  predicate MountsFirst(lines: seq<string>, device: string, i: nat)
    requires i < |lines|
  {
    MountsDevice(lines[i], device) && forall j :: 0 <= j < i ==> !MountsDevice(lines[j], device)
  }

  // Second field of the first line that mounts the device.
  function FirstMount(lines: seq<string>, device: string): (dir: string)
    ensures dir == "" <==> forall line <- lines :: !MountsDevice(line, device)
  {
    if lines == [] then ""
    else if MountsDevice(lines[0], device) then Fields(lines[0])[1]
    else FirstMount(lines[1..], device)
  }

  lemma {:induction false} FirstMountIs(lines: seq<string>, device: string, i: nat)
    requires i < |lines| && MountsFirst(lines, device, i)
    ensures MountsAt(lines[i], device, FirstMount(lines, device))
  {
    if i > 0 {
      assert forall j :: 0 <= j < i ==> lines[1..][j] == lines[j + 1];
      FirstMountIs(lines[1..], device, i - 1);
    }
  }

  method FindBcachefsMount(mounts: string, device: string) returns (dir: string)
    ensures dir == FirstMount(Split(mounts, '\n'), device)
  {
    var lines := Split(mounts, '\n');
    for i := 0 to |lines|
      invariant FirstMount(lines, device) == FirstMount(lines[i..], device)
    {
      assert lines[i..][1..] == lines[i + 1..];
      var fields := Fields(lines[i]);
      if |fields| >= 3 && fields[2] == "bcachefs" {
        var listed := Lists(Split(fields[0], ':'), device);
        if listed { return fields[1]; }
      }
    }
    return "";
  }

  method Lists(devices: seq<string>, device: string) returns (listed: bool)
    ensures listed <==> device in devices
  {
    for i := 0 to |devices|
      invariant device !in devices[..i]
    {
      if devices[i] == device { return true; }
    }
    assert devices[..|devices|] == devices;
    return false;
  }

  // A line of the table for these devices, as the kernel writes it, mounts exactly them.
  lemma MountLineMountsItsDevices(devices: seq<string>, dir: string, options: string, device: string)
    requires devices != [] && (forall d <- devices :: ':' !in d && IsWord(d)) && IsWord(dir)
    ensures var line := Join(devices, ':') + " " + (dir + " " + ("bcachefs" + " " + options));
      && Fields(line) == [Join(devices, ':'), dir, "bcachefs"] + Fields(options)
      && (MountsDevice(line, device) <==> device in devices)
  {
    JoinIsAWord(devices);
    ThreeFields(Join(devices, ':'), dir, "bcachefs", options);
    SplitJoins(devices, ':');
    var line := Join(devices, ':') + " " + (dir + " " + ("bcachefs" + " " + options));
    MountsByFields(line, [Join(devices, ':'), dir, "bcachefs"], Fields(options), device);
  }

  lemma MountsByFields(line: string, three: seq<string>, others: seq<string>, device: string)
    requires Fields(line) == three + others && |three| == 3 && three[2] == "bcachefs"
    ensures MountsDevice(line, device) <==> device in Split(three[0], ':')
  {}

  lemma {:induction false} JoinIsAWord(devices: seq<string>)
    requires devices != [] && forall d <- devices :: IsWord(d)
    ensures IsWord(Join(devices, ':'))
  {
    assert devices[0] in devices;
    if |devices| > 1 {
      forall d <- devices[1..] ensures IsWord(d) { assert d in devices; }
      JoinIsAWord(devices[1..]);
    }
  }

  // The mount a member reports: the canonical one, else what lsblk gave.
  function MountOf(env: Env, d: Disk): (mount: Option<string>)
    ensures mount.None? <==>
      d.mountpoint == "" && forall line <- Split(env.mounts, '\n') :: !MountsDevice(line, d.path)
    ensures (forall line <- Split(env.mounts, '\n') :: !MountsDevice(line, d.path)) ==> mount.Or("") == d.mountpoint
    ensures (exists line <- Split(env.mounts, '\n') :: MountsDevice(line, d.path)) ==>
      mount == Some(FirstMount(Split(env.mounts, '\n'), d.path))
  {
    var canonical := FirstMount(Split(env.mounts, '\n'), d.path);
    if canonical != "" then Some(canonical) else if d.mountpoint != "" then Some(d.mountpoint) else None
  }

  // ---- Targets -------------------------------------------------------------------------

  // The part of a label before its first dot.
  function Group(diskLabel: string): (group: string)
    ensures group <= diskLabel && '.' !in group
    ensures group == diskLabel || diskLabel[|group|] == '.'
  {
    var dot := Index(diskLabel, ".");
    assert forall j :: 0 <= j < |diskLabel| ==> (diskLabel[j] == '.' <==> MatchesAt(diskLabel, ".", j));
    if dot == -1 then diskLabel else diskLabel[..dot]
  }

  // The header sends this group of disks to that target, which no header does for the empty name.
  predicate Names(target: string, diskLabel: string) {
    diskLabel != "" && target != "" && Group(diskLabel) == target
  }

  // Hard disks behind a foreground target of solid-state ones.
  predicate IsColdTier(diskLabel: string, header: Header) {
    header.foregroundTarget == "ssd" && Group(diskLabel) == "hdd"
  }

  function DetermineDiskTargets(diskLabel: string, header: Header): (targets: (string, string))
    ensures targets.0 in {"", "foreground", "background"} && targets.1 in {"", "foreground", "background"}
    ensures targets.0 == "foreground" <==> Names(header.foregroundTarget, diskLabel)
    ensures targets.0 == "background" <==>
      && !Names(header.foregroundTarget, diskLabel)
      && (Names(header.backgroundTarget, diskLabel) || IsColdTier(diskLabel, header))
    ensures targets.1 == "foreground" <==> Names(header.metadataTarget, diskLabel)
    ensures targets.1 == "background" <==>
      !Names(header.metadataTarget, diskLabel) && IsColdTier(diskLabel, header)
  {
    var group := Group(diskLabel);
    var fg, meta, bg := header.foregroundTarget, header.metadataTarget, header.backgroundTarget;
    if diskLabel == "" then ("", "")
    else
      (if fg != "" && group == fg then "foreground"
       else if bg != "" && group == bg then "background"
       else if fg == "ssd" && group == "hdd" then "background"
       else "",
       if meta != "" && group == meta then "foreground"
       else if fg == "ssd" && group == "hdd" then "background"
       else "")
  }

  // ---- Matching a disk with the devices of a superblock ------------------------------------

  predicate CacheMatches(d: Disk, dev: Device) {
    || d.path == dev.path
    || HasSuffix(d.path, dev.path)
    || (dev.path != "" && HasSuffix(dev.path, d.name))
  }

  predicate LabelMatches(d: Disk, dev: Device) {
    || d.path == dev.path
    || (dev.path != "" && HasSuffix(d.path, dev.path))
    || (d.name != "" && HasSuffix(dev.path, d.name))
  }

  // The two matches differ exactly for a device without a path, and for a disk without a name: there the cache is
  // hit, and no label is given. Otherwise the label match follows the cache match.
  lemma MatchesDifferExactlyWhen(d: Disk, dev: Device)
    ensures LabelMatches(d, dev) ==> CacheMatches(d, dev)
    ensures (CacheMatches(d, dev) && !LabelMatches(d, dev)) <==>
      (dev.path == "" && d.path != "") || (dev.path != "" && d.name == "" && !HasSuffix(d.path, dev.path))
  {
    assert d.path[|d.path|..] == "" && dev.path[|dev.path|..] == "";
    assert HasSuffix(d.path, d.path) by { assert d.path[0..] == d.path; }
  }

  // A path in the superblock that is one: the label match is on the end of the disk's path, or on its name.
  lemma MatchesOnSuffixes(d: Disk, dev: Device)
    requires dev.path != ""
    ensures LabelMatches(d, dev) <==>
      HasSuffix(d.path, dev.path) || (d.name != "" && HasSuffix(dev.path, d.name))
  {
    assert HasSuffix(d.path, d.path) by { assert d.path[0..] == d.path; }
  }

  predicate Hits(super: Super, d: Disk) {
    exists dev <- super.devices :: CacheMatches(d, dev)
  }

  method IsListed(super: Super, d: Disk) returns (found: bool)
    ensures found <==> Hits(super, d)
  {
    found := false;
    for i := 0 to |super.devices|
      invariant !found && forall j :: 0 <= j < i ==> !CacheMatches(d, super.devices[j])
    {
      if CacheMatches(d, super.devices[i]) { return true; }
    }
  }

  // The disk with label and targets of the first device that matches it.
  function Placed(d: Disk, header: Header, devices: seq<Device>): Disk {
    if devices == [] then d
    else if LabelMatches(d, devices[0]) then
      var (data, metadata) := DetermineDiskTargets(devices[0].tag, header);
      d.(tag := devices[0].tag, dataTarget := data, metadataTarget := metadata)
    else Placed(d, header, devices[1..])
  }

  function InPool(d: Disk, super: Super): Disk { Placed(d, super.header, super.devices) }

  lemma {:induction false} PlacedKeeps(d: Disk, header: Header, devices: seq<Device>)
    ensures var e := Placed(d, header, devices); e.path == d.path && e.name == d.name && e.mountpoint == d.mountpoint
  {
    if devices != [] { PlacedKeeps(d, header, devices[1..]); }
  }

  predicate MatchesFirst(d: Disk, devices: seq<Device>, k: nat)
    requires k < |devices|
  {
    LabelMatches(d, devices[k]) && forall j :: 0 <= j < k ==> !LabelMatches(d, devices[j])
  }

  predicate IsPlacedBy(e: Disk, header: Header, dev: Device) {
    var (data, metadata) := DetermineDiskTargets(dev.tag, header);
    e.tag == dev.tag && e.dataTarget == data && e.metadataTarget == metadata
  }

  // Label and targets come from the first matching device, and from no device if none matches.
  lemma {:induction false} PlacedIs(d: Disk, header: Header, devices: seq<Device>)
    ensures (forall dev <- devices :: !LabelMatches(d, dev)) ==> Placed(d, header, devices) == d
    ensures forall k :: 0 <= k < |devices| && MatchesFirst(d, devices, k) ==>
      IsPlacedBy(Placed(d, header, devices), header, devices[k])
  {
    if devices != [] {
      PlacedIs(d, header, devices[1..]);
      forall k | 0 < k < |devices| && MatchesFirst(d, devices, k)
        ensures IsPlacedBy(Placed(d, header, devices), header, devices[k])
      {
        assert forall j :: 0 <= j < k ==> devices[1..][j] == devices[j + 1];
        assert MatchesFirst(d, devices[1..], k - 1);
      }
    }
  }

  method PlaceDisk(d: Disk, super: Super) returns (placed: Disk)
    ensures placed == InPool(d, super)
  {
    placed := d;
    for i := 0 to |super.devices|
      invariant placed == d && InPool(d, super) == Placed(d, super.header, super.devices[i..])
    {
      var dev := super.devices[i];
      assert super.devices[i..][1..] == super.devices[i + 1..];
      if LabelMatches(d, dev) {
        var (data, metadata) := DetermineDiskTargets(dev.tag, super.header);
        return d.(tag := dev.tag, dataTarget := data, metadataTarget := metadata);
      }
    }
  }

  // ---- Pools that a superblock per disk gives ---------------------------------------------

  function NewPool(header: Header): Pool {
    Pool(header.uuid, false, "", header.tag, header.dataReplicas, header.metadataReplicas, [])
  }

  function Joined(env: Env, pools: map<string, Pool>, d: Disk, super: Super): map<string, Pool> {
    var u := super.header.uuid;
    var pool := if u in pools then pools[u] else NewPool(super.header);
    var mount := MountOf(env, d);
    pools[u := pool.(mounted := pool.mounted || mount.Some?, mountdir := mount.Or(pool.mountdir),
                     disks := pool.disks + [InPool(d, super)])]
  }

  function PoolsOf(env: Env, disks: seq<Disk>, supers: seq<Option<Super>>): map<string, Pool>
    requires |supers| == |disks|
  {
    if disks == [] then map[]
    else
      var n := |disks| - 1;
      var before := PoolsOf(env, disks[..n], supers[..n]);
      if supers[n].Some? then Joined(env, before, disks[n], supers[n].value) else before
  }

  // ---- A fresh superblock for every disk ------------------------------------------------

  predicate Qualifies(d: Disk) { d.fsType == "bcachefs" || d.fsType == "" }

  function Fresh(env: Env, d: Disk): Option<Super> {
    match env.showSuper(d.path)
    case Some(output) => if Qualifies(d) && Parsed(output).header.uuid != "" then Some(Parsed(output)) else None
    case None => None
  }

  function FreshSupers(env: Env, disks: seq<Disk>): (supers: seq<Option<Super>>)
    ensures |supers| == |disks| && forall i :: 0 <= i < |disks| ==> supers[i] == Fresh(env, disks[i])
  {
    seq(|disks|, i requires 0 <= i < |disks| => Fresh(env, disks[i]))
  }

  // ---- The superblock of the last probe, reused for its members ---------------------------

  // The superblock used for the disk, and the one cached after it.
  function Next(env: Env, cache: Option<Super>, d: Disk): (Option<Super>, Option<Super>) {
    if !Qualifies(d) then (None, cache)
    else if cache.Some? && Hits(cache.value, d) then (cache, cache)
    else (Fresh(env, d), Fresh(env, d))
  }

  function Cache(env: Env, disks: seq<Disk>): Option<Super> {
    if disks == [] then None else Next(env, Cache(env, disks[..|disks| - 1]), disks[|disks| - 1]).1
  }

  function CachedSupers(env: Env, disks: seq<Disk>): (supers: seq<Option<Super>>)
    ensures |supers| == |disks|
  {
    if disks == [] then []
    else
      var before, d := disks[..|disks| - 1], disks[|disks| - 1];
      CachedSupers(env, before) + [Next(env, Cache(env, before), d).0]
  }

  function CachedPools(env: Env, disks: seq<Disk>): map<string, Pool> {
    PoolsOf(env, disks, CachedSupers(env, disks))
  }

  function FreshPools(env: Env, disks: seq<Disk>): map<string, Pool> {
    PoolsOf(env, disks, FreshSupers(env, disks))
  }

  method JoinPool(env: Env, pools: map<string, Pool>, d: Disk, super: Super) returns (joined: map<string, Pool>)
    ensures joined == Joined(env, pools, d, super)
  {
    var u := super.header.uuid;
    var pool := if u in pools then pools[u] else NewPool(super.header);
    var placed := PlaceDisk(d, super);
    var canonical := FindBcachefsMount(env.mounts, d.path);
    if canonical != "" {
      pool := pool.(mounted := true, mountdir := canonical);
    } else if d.mountpoint != "" {
      pool := pool.(mounted := true, mountdir := d.mountpoint);
    }
    joined := pools[u := pool.(disks := pool.disks + [placed])];
  }

  lemma CachedSnoc(env: Env, disks: seq<Disk>, i: nat)
    requires i < |disks|
    ensures var (used, cache) := Next(env, Cache(env, disks[..i]), disks[i]);
      && Cache(env, disks[..i + 1]) == cache
      && CachedPools(env, disks[..i + 1]) ==
           if used.Some? then Joined(env, CachedPools(env, disks[..i]), disks[i], used.value)
           else CachedPools(env, disks[..i])
  {
    var now := disks[..i + 1];
    assert now[..|now| - 1] == disks[..i];
    assert CachedSupers(env, now)[..i] == CachedSupers(env, disks[..i]);
  }

  method DiscoverPools(env: Env, disks: seq<Disk>) returns (pools: map<string, Pool>)
    ensures pools == CachedPools(env, disks)
  {
    pools := map[];
    var super := Super(EMPTY, []);
    var superValid := false;
    for i := 0 to |disks|
      invariant pools == CachedPools(env, disks[..i])
      invariant Cache(env, disks[..i]) == if superValid then Some(super) else None
    {
      var d := disks[i];
      CachedSnoc(env, disks, i);
      if d.fsType != "bcachefs" && d.fsType != "" { continue; }
      if superValid {
        superValid := IsListed(super, d);
      }
      if !superValid {
        var output := env.showSuper(d.path);
        if output.None? { continue; }
        super := ParseSuper(output.value);
        if super.header.uuid == "" { continue; }
        superValid := true;
      }
      pools := JoinPool(env, pools, d, super);
    }
    assert disks[..|disks|] == disks;
  }
}
