// What the pools are, and when the cached pass gives the same ones as probing every disk
// (internal/storage/bcachefs/bcachefs.go, lines 192-272).
module CachedDiscovery {
  import opened Domain
  import opened Superblock
  import opened SuperLines
  import opened Discovery

  // ---- The pools, one by one ----------------------------------------------------------

  predicate Uses(super: Option<Super>, u: string) { super.Some? && super.value.header.uuid == u }

  // The disks that use a superblock with this UUID, in order, each with label and targets from it.
  function Members(u: string, disks: seq<Disk>, supers: seq<Option<Super>>): seq<Disk>
    requires |supers| == |disks|
  {
    if disks == [] then []
    else
      var n := |disks| - 1;
      Members(u, disks[..n], supers[..n]) + if Uses(supers[n], u) then [InPool(disks[n], supers[n].value)] else []
  }

  // Header of the first superblock with this UUID.
  function FirstHeader(u: string, supers: seq<Option<Super>>): Option<Header> {
    if supers == [] then None
    else if Uses(supers[0], u) then Some(supers[0].value.header)
    else FirstHeader(u, supers[1..])
  }

  // Mount of the last member that has one.
  function LastMount(env: Env, u: string, disks: seq<Disk>, supers: seq<Option<Super>>): Option<string>
    requires |supers| == |disks|
  {
    if disks == [] then None
    else
      var n := |disks| - 1;
      var mount := MountOf(env, disks[n]);
      if Uses(supers[n], u) && mount.Some? then mount else LastMount(env, u, disks[..n], supers[..n])
  }

  ghost predicate IsPool(pool: Pool, env: Env, u: string, disks: seq<Disk>, supers: seq<Option<Super>>)
    requires |supers| == |disks|
  {
    var mount := LastMount(env, u, disks, supers);
    var header := FirstHeader(u, supers);
    && pool.disks == Members(u, disks, supers) != []
    && header.Some?
    && header.value.uuid == u
    && pool.uuid == u && pool.tag == header.value.tag
    && pool.dataReplicas == header.value.dataReplicas && pool.metadataReplicas == header.value.metadataReplicas
    && pool.mounted == mount.Some? && pool.mountdir == (if mount.Some? then mount.value else "")
  }

  lemma {:induction false} FirstHeaderSnoc(u: string, supers: seq<Option<Super>>, last: Option<Super>)
    ensures FirstHeader(u, supers + [last]) ==
      match FirstHeader(u, supers)
      case Some(h) => Some(h)
      case None => if Uses(last, u) then Some(last.value.header) else None
  {
    if supers == [] {
      assert supers + [last] == [last];
    } else {
      FirstHeaderSnoc(u, supers[1..], last);
      assert (supers + [last])[1..] == supers[1..] + [last];
    }
  }

  // For every UUID: a pool exactly if a disk uses it, with these members, this header and this mount.
  lemma {:induction false} PoolsAre(env: Env, u: string, disks: seq<Disk>, supers: seq<Option<Super>>)
    requires |supers| == |disks|
    ensures u in PoolsOf(env, disks, supers) ==> IsPool(PoolsOf(env, disks, supers)[u], env, u, disks, supers)
    ensures u !in PoolsOf(env, disks, supers) ==>
      Members(u, disks, supers) == [] && FirstHeader(u, supers) == None && LastMount(env, u, disks, supers) == None
  {
    if disks != [] {
      var n := |disks| - 1;
      PoolsAre(env, u, disks[..n], supers[..n]);
      FirstHeaderSnoc(u, supers[..n], supers[n]);
      assert supers == supers[..n] + [supers[n]];
    }
  }

  lemma {:induction false} MembersHave(u: string, disks: seq<Disk>, supers: seq<Option<Super>>, e: Disk)
    requires |supers| == |disks|
    ensures e in Members(u, disks, supers) <==>
      exists i :: 0 <= i < |disks| && Uses(supers[i], u) && e == InPool(disks[i], supers[i].value)
  {
    if disks != [] {
      var n := |disks| - 1;
      MembersHave(u, disks[..n], supers[..n], e);
      assert forall i :: 0 <= i < n ==> disks[..n][i] == disks[i] && supers[..n][i] == supers[i];
    }
  }

  function PathOf(d: Disk): string { d.path }

  ghost predicate DistinctPaths(disks: seq<Disk>) {
    forall i, j :: 0 <= i < j < |disks| ==> PathOf(disks[i]) != PathOf(disks[j])
  }

  ghost predicate HasPath(disks: seq<Disk>, path: string) {
    exists e <- disks :: PathOf(e) == path
  }

  // A disk that uses a superblock is in the pool of its UUID and in no other one; any other disk is in none.
  lemma ExactlyOnePool(env: Env, disks: seq<Disk>, supers: seq<Option<Super>>, i: nat, u: string)
    requires |supers| == |disks| && i < |disks| && DistinctPaths(disks)
    ensures var pools := PoolsOf(env, disks, supers);
      (u in pools && HasPath(pools[u].disks, disks[i].path)) <==> Uses(supers[i], u)
  {
    PoolsAre(env, u, disks, supers);
    var members := Members(u, disks, supers);
    if Uses(supers[i], u) {
      MembersHave(u, disks, supers, InPool(disks[i], supers[i].value));
      PlacedKeeps(disks[i], supers[i].value.header, supers[i].value.devices);
    }
    if HasPath(members, disks[i].path) {
      var e :| e in members && PathOf(e) == disks[i].path;
      UsesOfMember(u, disks, supers, e, i);
    }
  }

  lemma UsesOfMember(u: string, disks: seq<Disk>, supers: seq<Option<Super>>, e: Disk, i: nat)
    requires |supers| == |disks| && i < |disks| && DistinctPaths(disks)
    requires e in Members(u, disks, supers) && PathOf(e) == PathOf(disks[i])
    ensures Uses(supers[i], u) && e == InPool(disks[i], supers[i].value)
  {
    MembersHave(u, disks, supers, e);
    var j :| 0 <= j < |disks| && Uses(supers[j], u) && e == InPool(disks[j], supers[j].value);
    PlacedKeeps(disks[j], supers[j].value.header, supers[j].value.devices);
    assert PathOf(disks[j]) == PathOf(disks[i]);
  }

  // With a probe of its own for every disk, a disk is in the pool of a UUID exactly when lsblk says bcachefs or
  // nothing of it and show-super succeeds on it and gives this UUID.
  lemma FreshPoolExactlyWhen(env: Env, disks: seq<Disk>, i: nat, u: string)
    requires i < |disks| && DistinctPaths(disks)
    ensures var pools := FreshPools(env, disks); var output := env.showSuper(disks[i].path);
      (u in pools && HasPath(pools[u].disks, disks[i].path)) <==>
        && (disks[i].fsType == "bcachefs" || disks[i].fsType == "")
        && output.Some? && Parsed(output.value).header.uuid == u && u != ""
  {
    ExactlyOnePool(env, disks, FreshSupers(env, disks), i, u);
  }

  // ---- When the cache is harmless -----------------------------------------------------

  // Another superblock with the same effect on the disk.
  predicate Agrees(d: Disk, a: Option<Super>, b: Option<Super>) {
    if a.None? then b.None?
    else b.Some? && a.value.header.uuid == b.value.header.uuid && InPool(d, a.value) == InPool(d, b.value)
  }

  // Every disk found among the devices of the cached superblock is a member of that pool, and show-super of the
  // disk itself gives it the same label and targets.
  ghost predicate HitsAreMembers(env: Env, disks: seq<Disk>) {
    forall i :: 0 <= i < |disks| ==> HitIsMember(env, disks, i)
  }

  predicate HitIsMember(env: Env, disks: seq<Disk>, i: nat)
    requires i < |disks|
  {
    var cache := Cache(env, disks[..i]);
    Qualifies(disks[i]) && cache.Some? && Hits(cache.value, disks[i]) ==> Agrees(disks[i], cache, Fresh(env, disks[i]))
  }

  lemma {:induction false} CachedPrefix(env: Env, disks: seq<Disk>, i: nat)
    requires i < |disks|
    ensures CachedSupers(env, disks)[i] == Next(env, Cache(env, disks[..i]), disks[i]).0
  {
    if i < |disks| - 1 {
      CachedPrefix(env, disks[..|disks| - 1], i);
      assert disks[..|disks| - 1][..i] == disks[..i];
    }
  }

  // The last disk before this one that qualifies.
  predicate IsLastBefore(disks: seq<Disk>, j: nat, i: nat) {
    j < i <= |disks| && Qualifies(disks[j]) && forall k :: j < k < i ==> !Qualifies(disks[k])
  }

  lemma {:induction false} CacheIsWhatWasUsed(env: Env, disks: seq<Disk>, j: nat, i: nat)
    requires IsLastBefore(disks, j, i)
    ensures Cache(env, disks[..i]) == CachedSupers(env, disks)[j]
  {
    assert disks[..i][..i - 1] == disks[..i - 1];
    if i == j + 1 {
      CachedPrefix(env, disks, j);
    } else {
      CacheIsWhatWasUsed(env, disks, j, i - 1);
    }
  }

  lemma {:induction false} NothingCached(env: Env, disks: seq<Disk>, i: nat)
    requires i <= |disks| && forall k :: 0 <= k < i ==> !Qualifies(disks[k])
    ensures Cache(env, disks[..i]) == None
  {
    if i > 0 {
      assert disks[..i][..i - 1] == disks[..i - 1];
      NothingCached(env, disks, i - 1);
    }
  }

  // A disk that lsblk calls something else uses no superblock. Any other one uses that of the last disk that
  // qualified if it is listed there, and else what show-super gives for itself: a failed probe empties the cache.
  lemma SupersFollow(env: Env, disks: seq<Disk>, i: nat)
    requires i < |disks|
    ensures !Qualifies(disks[i]) ==> CachedSupers(env, disks)[i] == None
    ensures Qualifies(disks[i]) && (forall k :: 0 <= k < i ==> !Qualifies(disks[k])) ==>
      CachedSupers(env, disks)[i] == Fresh(env, disks[i])
    ensures forall j :: 0 <= j < i && IsLastBefore(disks, j, i) && Qualifies(disks[i]) ==>
      var before := CachedSupers(env, disks)[j];
      CachedSupers(env, disks)[i] ==
        if before.Some? && Hits(before.value, disks[i]) then before else Fresh(env, disks[i])
  {
    CachedPrefix(env, disks, i);
    if forall k :: 0 <= k < i ==> !Qualifies(disks[k]) { NothingCached(env, disks, i); }
    forall j | 0 <= j < i && IsLastBefore(disks, j, i)
      ensures Cache(env, disks[..i]) == CachedSupers(env, disks)[j]
    {
      CacheIsWhatWasUsed(env, disks, j, i);
    }
  }

  // The pool of the cached superblock has been made by then.
  lemma {:induction false} CachedPoolExists(env: Env, disks: seq<Disk>)
    ensures var cache := Cache(env, disks); cache.Some? ==> cache.value.header.uuid in CachedPools(env, disks)
  {
    if disks != [] {
      var n := |disks| - 1;
      CachedPoolExists(env, disks[..n]);
      CachedSnoc(env, disks, n);
      assert disks[..n + 1] == disks;
    }
  }

  lemma FreshSnoc(env: Env, disks: seq<Disk>, i: nat)
    requires i < |disks|
    ensures var probed := Fresh(env, disks[i]);
      FreshPools(env, disks[..i + 1]) ==
        if probed.Some? then Joined(env, FreshPools(env, disks[..i]), disks[i], probed.value)
        else FreshPools(env, disks[..i])
  {
    var now := disks[..i + 1];
    assert now[..i] == disks[..i];
    assert FreshSupers(env, now)[..i] == FreshSupers(env, disks[..i]);
  }

  lemma {:induction false} HarmlessPrefix(env: Env, disks: seq<Disk>, n: nat)
    requires n <= |disks| && forall i :: 0 <= i < n ==> HitIsMember(env, disks, i)
    ensures CachedPools(env, disks[..n]) == FreshPools(env, disks[..n])
  {
    if n > 0 {
      HarmlessPrefix(env, disks, n - 1);
      HarmlessStep(env, disks, n - 1);
    }
  }

  lemma HarmlessStep(env: Env, disks: seq<Disk>, n: nat)
    requires n < |disks| && HitIsMember(env, disks, n)
    requires CachedPools(env, disks[..n]) == FreshPools(env, disks[..n])
    ensures CachedPools(env, disks[..n + 1]) == FreshPools(env, disks[..n + 1])
  {
    var used := Next(env, Cache(env, disks[..n]), disks[n]).0;
    CachedPoolExists(env, disks[..n]);
    CachedSnoc(env, disks, n);
    FreshSnoc(env, disks, n);
    if used.Some? && used != Fresh(env, disks[n]) {
      JoinedAlike(env, FreshPools(env, disks[..n]), disks[n], used.value, Fresh(env, disks[n]).value);
    }
  }

  lemma JoinedAlike(env: Env, pools: map<string, Pool>, d: Disk, a: Super, b: Super)
    requires Agrees(d, Some(a), Some(b)) && a.header.uuid in pools
    ensures Joined(env, pools, d, a) == Joined(env, pools, d, b)
  {}

  lemma HarmlessCache(env: Env, disks: seq<Disk>)
    requires HitsAreMembers(env, disks)
    ensures CachedPools(env, disks) == FreshPools(env, disks)
  {
    HarmlessPrefix(env, disks, |disks|);
    assert disks[..|disks|] == disks;
  }

  lemma SamePoolsSameUse(env: Env, disks: seq<Disk>, a: seq<Option<Super>>, b: seq<Option<Super>>, i: nat)
    requires |a| == |b| == |disks| && DistinctPaths(disks) && i < |disks| && a[i].Some?
    requires PoolsOf(env, disks, a) == PoolsOf(env, disks, b)
    ensures Agrees(disks[i], a[i], b[i])
  {
    var u, e := a[i].value.header.uuid, InPool(disks[i], a[i].value);
    PoolsAre(env, u, disks, a);
    PoolsAre(env, u, disks, b);
    MembersHave(u, disks, a, e);
    PlacedKeeps(disks[i], a[i].value.header, a[i].value.devices);
    UsesOfMember(u, disks, b, e, i);
  }

  // The cached pass gives the pools of probing every disk exactly when every cache hit is a member.
  lemma CachedIsFreshExactlyWhen(env: Env, disks: seq<Disk>)
    requires DistinctPaths(disks)
    ensures CachedPools(env, disks) == FreshPools(env, disks) <==> HitsAreMembers(env, disks)
  {
    if HitsAreMembers(env, disks) { HarmlessCache(env, disks); }
    if CachedPools(env, disks) == FreshPools(env, disks) {
      forall i | 0 <= i < |disks| ensures HitIsMember(env, disks, i) {
        CachedPrefix(env, disks, i);
        if CachedSupers(env, disks)[i].Some? {
          SamePoolsSameUse(env, disks, CachedSupers(env, disks), FreshSupers(env, disks), i);
        }
      }
    }
  }

  // ---- Two families of inputs -------------------------------------------------------------

  lemma {:induction false} CacheIsFromADisk(env: Env, disks: seq<Disk>)
    ensures var cache := Cache(env, disks); cache.Some? ==> exists e <- disks :: Fresh(env, e) == cache
  {
    if disks != [] { CacheIsFromADisk(env, disks[..|disks| - 1]); }
  }

  // show-super prints the same for all members, and only members match its device list.
  ghost predicate MembersAgree(env: Env, disks: seq<Disk>) {
    forall e, d :: e in disks && d in disks && Fresh(env, e).Some? && Qualifies(d) && Hits(Fresh(env, e).value, d) ==>
      Fresh(env, d) == Fresh(env, e)
  }

  lemma CachedIsFreshWhenMembersAgree(env: Env, disks: seq<Disk>)
    requires MembersAgree(env, disks)
    ensures CachedPools(env, disks) == FreshPools(env, disks)
  {
    forall i | 0 <= i < |disks| ensures HitIsMember(env, disks, i) {
      CacheIsFromADisk(env, disks[..i]);
    }
    HarmlessCache(env, disks);
  }

  // A device line without a path matches every disk while the superblock is cached, so a disk that is no member of
  // any pool joins this one.
  lemma EmptyPathAdmitsOutsiders(env: Env, member: Disk, dev: Device, outsider: Disk)
    requires Fresh(env, member).Some? && dev in Fresh(env, member).value.devices && dev.path == ""
    requires Qualifies(outsider) && Fresh(env, outsider) == None && outsider.path != member.path
    ensures CachedPools(env, [member, outsider]) != FreshPools(env, [member, outsider])
    ensures var u := Fresh(env, member).value.header.uuid;
      && u in CachedPools(env, [member, outsider])
      && HasPath(CachedPools(env, [member, outsider])[u].disks, outsider.path)
  {
    var disks, super := [member, outsider], Fresh(env, member);
    CacheAfterOne(env, disks);
    OutsiderHits(env, super.value, dev, outsider);
    assert !HitIsMember(env, disks, 1);
    CachedPrefix(env, disks, 1);
    CachedIsFreshExactlyWhen(env, disks);
    ExactlyOnePool(env, disks, CachedSupers(env, disks), 1, super.value.header.uuid);
  }

  lemma CacheAfterOne(env: Env, disks: seq<Disk>)
    requires |disks| > 0 && Fresh(env, disks[0]).Some?
    ensures Cache(env, disks[..1]) == Fresh(env, disks[0])
  {
    var one := disks[..1];
    assert one[..0] == [] && one[0] == disks[0];
    assert Cache(env, one) == Next(env, Cache(env, []), disks[0]).1;
  }

  lemma OutsiderHits(env: Env, super: Super, dev: Device, outsider: Disk)
    requires dev in super.devices && dev.path == "" && Qualifies(outsider) && Fresh(env, outsider) == None
    ensures Next(env, Some(super), outsider).0 == Some(super) && !Agrees(outsider, Some(super), Fresh(env, outsider))
    ensures Hits(super, outsider)
  {
    assert CacheMatches(outsider, dev);
  }

  const SDA := Disk("sda", "/dev/sda", "bcachefs", "", "", "", "")
  const SR0 := Disk("sr0", "/dev/sr0", "", "", "", "", "")

  // An optical drive joins the pool of a member whose superblock lists a device without a path.
  lemma PathlessDeviceAdmitsADrive()
    ensures var env := Env(path => if path == "/dev/sda" then Some(PATHLESS) else None, "");
      var member, drive := SDA, SR0;
      && CachedPools(env, [member, drive]) != FreshPools(env, [member, drive])
      && "u" in CachedPools(env, [member, drive])
      && HasPath(CachedPools(env, [member, drive])["u"].disks, "/dev/sr0")
  {
    var env := Env(path => if path == "/dev/sda" then Some(PATHLESS) else None, "");
    var member, drive := SDA, SR0;
    PathlessIsParsed();
    assert env.showSuper("/dev/sda") == Some(PATHLESS) && env.showSuper("/dev/sr0") == None;
    var super := Parsed(PATHLESS);
    assert Fresh(env, member) == Some(super) && super.devices[0] in super.devices;
    EmptyPathAdmitsOutsiders(env, member, super.devices[0], drive);
  }
}
