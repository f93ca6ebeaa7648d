// Torrents of all qui instances (internal/qui/client.go, lines 21-23 and 66-132), against a server whose lists do not
// change meanwhile.
module Qui {
  import opened Domain

  datatype Instance = Instance(id: int, name: string)

  datatype Torrent = Torrent(hash: string, name: string, size: int, progress: real, dlSpeed: int, upSpeed: int,
                             eta: int, state: string)

  // api.QbitTorrent: a torrent with the name of its instance.
  datatype Tagged = Tagged(torrent: Torrent, instance: string) {
    const dlSpeed := torrent.dlSpeed
  }

  datatype Response = Response(torrents: seq<Torrent>, total: nat)

  // instances: the answer for the instance list, if it succeeds; fails: the requests (id, page) that do not.
  datatype Server = Server(instances: Option<seq<Instance>>, list: int -> seq<Torrent>, fails: (int, nat) -> bool) {
    function Get(id: int, page: nat): Option<Response>
      requires page > 0
    {
      var all := list(id);
      if fails(id, page) then None
      else Some(Response(all[Until(page - 1, |all|)..Until(page, |all|)], |all|))
    }
  }

  const PAGE_LIMIT := 200

  // Where the page ends in a list of this length.
  function Until(page: nat, length: nat): (end: nat)
    ensures end <= length
  {
    if PAGE_LIMIT * page <= length then PAGE_LIMIT * page else length
  }

  // ---- One instance -------------------------------------------------------------------

  // The whole list is on these pages, and there is always a first one.
  function Pages(length: nat): nat {
    if length == 0 then 1 else (length + PAGE_LIMIT - 1) / PAGE_LIMIT
  }

  ghost predicate Fails(server: Server, id: int) {
    exists p :: 1 <= p <= Pages(|server.list(id)|) && server.fails(id, p)
  }

  method InstanceTorrents(server: Server, id: int) returns (result: Option<seq<Torrent>>, requests: nat)
    ensures result == if Fails(server, id) then None else Some(server.list(id))
    ensures 1 <= requests <= Pages(|server.list(id)|)
    ensures result.Some? ==> requests == Pages(|server.list(id)|)
    ensures result.Some? ==>
      var n := |server.list(id)|; 200 * (requests - 1) < (if n == 0 then 1 else n) <= 200 * requests
    ensures result.None? ==> server.fails(id, requests) && forall p :: 1 <= p < requests ==> !server.fails(id, p)
  {
    var list := server.list(id);
    var all: seq<Torrent> := [];
    requests := 0;
    while true
      invariant all == list[..Until(requests, |list|)]
      invariant requests > 0 ==> |all| < |list|
      invariant forall p :: 1 <= p <= requests ==> !server.fails(id, p)
      decreases |list| - |all| + if requests == 0 then 1 else 0
    {
      requests := requests + 1;
      var response := server.Get(id, requests);
      if response.None? { return None, requests; }
      all := all + response.value.torrents;
      if |response.value.torrents| == 0 || |all| >= response.value.total { break; }
    }
    assert all == list by { assert list[..|list|] == list; }
    assert requests == Pages(|list|);
    assert !Fails(server, id);
    result := Some(all);
  }

  // ---- The stable sort ---------------------------------------------------------------------

  ghost predicate Sorted(ts: seq<Tagged>) {
    forall i, j :: 0 <= i < j < |ts| ==> ts[i].dlSpeed >= ts[j].dlSpeed
  }

  function WithSpeed(ts: seq<Tagged>, speed: int): seq<Tagged> {
    if ts == [] then []
    else
      var t := ts[|ts| - 1];
      WithSpeed(ts[..|ts| - 1], speed) + if t.dlSpeed == speed then [t] else []
  }

  // Fastest first; torrents of one speed are the same ones as before, in the same order.
  ghost predicate IsStableSort(before: seq<Tagged>, after: seq<Tagged>) {
    Sorted(after) && forall speed :: WithSpeed(after, speed) == WithSpeed(before, speed)
  }

  function Insert(sorted: seq<Tagged>, t: Tagged): seq<Tagged> {
    var n := |sorted|;
    if n == 0 || sorted[n - 1].dlSpeed >= t.dlSpeed then sorted + [t]
    else Insert(sorted[..n - 1], t) + [sorted[n - 1]]
  }

  function SortBySpeed(ts: seq<Tagged>): seq<Tagged> {
    if ts == [] then [] else Insert(SortBySpeed(ts[..|ts| - 1]), ts[|ts| - 1])
  }

  lemma WithSpeedSnoc(ts: seq<Tagged>, t: Tagged, speed: int)
    ensures WithSpeed(ts + [t], speed) == WithSpeed(ts, speed) + if t.dlSpeed == speed then [t] else []
  {
    assert (ts + [t])[..|ts|] == ts;
  }

  lemma {:induction false} InsertHas(sorted: seq<Tagged>, t: Tagged)
    ensures forall e <- Insert(sorted, t) :: e in sorted || e == t
  {
    var n := |sorted|;
    if !(n == 0 || sorted[n - 1].dlSpeed >= t.dlSpeed) { InsertHas(sorted[..n - 1], t); }
  }

  lemma {:induction false} InsertSorts(sorted: seq<Tagged>, t: Tagged)
    requires Sorted(sorted)
    ensures Sorted(Insert(sorted, t))
  {
    var n := |sorted|;
    if !(n == 0 || sorted[n - 1].dlSpeed >= t.dlSpeed) {
      InsertSorts(sorted[..n - 1], t);
      InsertHas(sorted[..n - 1], t);
      assert forall e <- Insert(sorted[..n - 1], t) :: e.dlSpeed >= sorted[n - 1].dlSpeed;
    }
  }

  lemma {:induction false} InsertIsStable(sorted: seq<Tagged>, t: Tagged, speed: int)
    ensures WithSpeed(Insert(sorted, t), speed) == WithSpeed(sorted + [t], speed)
  {
    var n := |sorted|;
    WithSpeedSnoc(sorted, t, speed);
    if !(n == 0 || sorted[n - 1].dlSpeed >= t.dlSpeed) {
      InsertIsStable(sorted[..n - 1], t, speed);
      WithSpeedSnoc(sorted[..n - 1], t, speed);
      WithSpeedSnoc(Insert(sorted[..n - 1], t), sorted[n - 1], speed);
    }
  }

  lemma {:induction false} SortBySpeedIsStable(ts: seq<Tagged>)
    ensures IsStableSort(ts, SortBySpeed(ts))
  {
    if ts != [] {
      var before, t := ts[..|ts| - 1], ts[|ts| - 1];
      SortBySpeedIsStable(before);
      InsertSorts(SortBySpeed(before), t);
      forall speed ensures WithSpeed(SortBySpeed(ts), speed) == WithSpeed(ts, speed) {
        InsertIsStable(SortBySpeed(before), t, speed);
        WithSpeedSnoc(SortBySpeed(before), t, speed);
      }
    }
  }

  lemma {:induction false} CountIsWithSpeed(ts: seq<Tagged>, t: Tagged)
    ensures multiset(ts)[t] == multiset(WithSpeed(ts, t.dlSpeed))[t]
  {
    if ts != [] {
      CountIsWithSpeed(ts[..|ts| - 1], t);
      assert ts == ts[..|ts| - 1] + [ts[|ts| - 1]];
    }
  }

  lemma StableSortPermutes(before: seq<Tagged>, after: seq<Tagged>)
    requires IsStableSort(before, after)
    ensures multiset(after) == multiset(before)
  {
    forall t ensures multiset(after)[t] == multiset(before)[t] {
      CountIsWithSpeed(before, t);
      CountIsWithSpeed(after, t);
    }
  }

  ghost predicate SameBySpeed(a: seq<Tagged>, b: seq<Tagged>) {
    forall speed :: WithSpeed(a, speed) == WithSpeed(b, speed)
  }

  lemma {:induction false} HasSpeed(ts: seq<Tagged>, speed: int) returns (i: nat)
    requires WithSpeed(ts, speed) != []
    ensures i < |ts| && ts[i].dlSpeed == speed
  {
    if ts[|ts| - 1].dlSpeed == speed { i := |ts| - 1; }
    else { i := HasSpeed(ts[..|ts| - 1], speed); }
  }

  lemma LastIsNotFaster(a: seq<Tagged>, b: seq<Tagged>)
    requires a != [] && Sorted(b) && WithSpeed(a, a[|a| - 1].dlSpeed) == WithSpeed(b, a[|a| - 1].dlSpeed)
    ensures b != [] && b[|b| - 1].dlSpeed <= a[|a| - 1].dlSpeed
  {
    var i := HasSpeed(b, a[|a| - 1].dlSpeed);
    assert i < |b| - 1 ==> b[i].dlSpeed >= b[|b| - 1].dlSpeed;
  }

  lemma SameLast(a: seq<Tagged>, b: seq<Tagged>)
    requires a != [] && Sorted(a) && Sorted(b) && SameBySpeed(a, b)
    ensures b != [] && b[|b| - 1] == a[|a| - 1]
  {
    LastIsNotFaster(a, b);
    LastIsNotFaster(b, a);
    var speed := a[|a| - 1].dlSpeed;
    var of := WithSpeed(a, speed);
    assert of[|of| - 1] == a[|a| - 1];
    assert WithSpeed(b, speed)[|of| - 1] == b[|b| - 1];
  }

  lemma ShorterSameBySpeed(a: seq<Tagged>, b: seq<Tagged>, last: Tagged)
    requires SameBySpeed(a + [last], b + [last])
    ensures SameBySpeed(a, b)
  {
    forall speed ensures WithSpeed(a, speed) == WithSpeed(b, speed) {
      WithSpeedSnoc(a, last, speed);
      WithSpeedSnoc(b, last, speed);
      SameInit(WithSpeed(a, speed), WithSpeed(b, speed), if last.dlSpeed == speed then [last] else []);
    }
  }

  lemma SameInit<T>(x: seq<T>, y: seq<T>, end: seq<T>)
    requires x + end == y + end
    ensures x == y
  {
    assert |x + end| == |y + end|;
    assert x == (x + end)[..|x|] == (y + end)[..|y|] == y;
  }

  lemma {:induction false} SameBySpeedIsSame(a: seq<Tagged>, b: seq<Tagged>)
    requires Sorted(a) && Sorted(b) && SameBySpeed(a, b)
    ensures a == b
    decreases |a|
  {
    if a == [] {
      if b != [] { LastIsNotFaster(b, a); }
    } else {
      SameLast(a, b);
      var a', b', last := a[..|a| - 1], b[..|b| - 1], a[|a| - 1];
      assert a == a' + [last] && b == b' + [last];
      ShorterSameBySpeed(a', b', last);
      SameBySpeedIsSame(a', b');
    }
  }

  // Every stable sort gives the same list, whatever its algorithm.
  lemma StableSortIsUnique(before: seq<Tagged>, a: seq<Tagged>, b: seq<Tagged>)
    requires IsStableSort(before, a) && IsStableSort(before, b)
    ensures a == b
  {
    SameBySpeedIsSame(a, b);
  }

  // ---- All instances ------------------------------------------------------------------------

  function TagAll(ts: seq<Torrent>, instance: string): seq<Tagged> {
    seq(|ts|, i requires 0 <= i < |ts| => Tagged(ts[i], instance))
  }

  function Everything(server: Server, instances: seq<Instance>): seq<Tagged> {
    if instances == [] then []
    else
      var last := instances[|instances| - 1];
      Everything(server, instances[..|instances| - 1]) + TagAll(server.list(last.id), last.name)
  }

  // Length of the first n lists together.
  function Offset(server: Server, instances: seq<Instance>, n: nat): nat
    requires n <= |instances|
  {
    if n == 0 then 0 else Offset(server, instances, n - 1) + |server.list(instances[n - 1].id)|
  }

  // Every torrent of every instance stands once in the list, with the name of its instance, in the order in which
  // the instances and their torrents are listed.
  lemma {:induction false} EverythingIs(server: Server, instances: seq<Instance>, n: nat)
    requires n <= |instances|
    ensures |Everything(server, instances[..n])| == Offset(server, instances, n)
    ensures forall k, i :: 0 <= k < n && 0 <= i < |server.list(instances[k].id)| ==>
      IsAt(server, instances, k, i, Everything(server, instances[..n]))
  {
    if n > 0 {
      var before, last := instances[..n - 1], instances[n - 1];
      EverythingIs(server, instances, n - 1);
      assert instances[..n][..n - 1] == before;
      forall k, i | 0 <= k < n && 0 <= i < |server.list(instances[k].id)|
        ensures IsAt(server, instances, k, i, Everything(server, instances[..n]))
      {
        if k < n - 1 { assert IsAt(server, instances, k, i, Everything(server, before)); }
      }
    }
  }

  predicate IsAt(server: Server, instances: seq<Instance>, k: nat, i: nat, all: seq<Tagged>)
    requires k < |instances| && i < |server.list(instances[k].id)|
  {
    var at := Offset(server, instances, k) + i;
    at < |all| && all[at].torrent == server.list(instances[k].id)[i] && all[at].instance == instances[k].name
  }

  method AppendAll(before: seq<Tagged>, ts: seq<Torrent>, instance: string) returns (out: seq<Tagged>)
    ensures out == before + TagAll(ts, instance)
  {
    out := before;
    for i := 0 to |ts|
      invariant out == before + TagAll(ts[..i], instance)
    {
      out := out + [Tagged(ts[i], instance)];
      assert TagAll(ts[..i + 1], instance) == TagAll(ts[..i], instance) + [Tagged(ts[i], instance)];
    }
    assert ts[..|ts|] == ts;
  }

  // Nothing unless all requests succeed; then every torrent of every instance, tagged, fastest first.
  method AllTorrents(server: Server) returns (result: Option<seq<Tagged>>)
    ensures result.None? <==>
      server.instances.None? || exists inst <- server.instances.value :: Fails(server, inst.id)
    ensures result.Some? ==> IsStableSort(Everything(server, server.instances.value), result.value)
    ensures result.Some? ==>
      forall i, j :: 0 <= i < j < |result.value| ==> result.value[i].torrent.dlSpeed >= result.value[j].torrent.dlSpeed
    ensures result.Some? ==> multiset(result.value) == multiset(Everything(server, server.instances.value))
  {
    if server.instances.None? { return None; }
    var instances := server.instances.value;
    var out: seq<Tagged> := [];
    for i := 0 to |instances|
      invariant out == Everything(server, instances[..i])
      invariant forall inst <- instances[..i] :: !Fails(server, inst.id)
    {
      var ts, _ := InstanceTorrents(server, instances[i].id);
      if ts.None? {
        assert instances[i] in instances;
        return None;
      }
      assert instances[..i + 1][..i] == instances[..i];
      out := AppendAll(out, ts.value, instances[i].name);
    }
    assert instances[..|instances|] == instances;
    SortBySpeedIsStable(out);
    StableSortPermutes(out, SortBySpeed(out));
    result := Some(SortBySpeed(out));
  }
}
