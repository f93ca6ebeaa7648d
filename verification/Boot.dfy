// The ordered boot sequence (cmd/daemon/monitor.go, lines 300-399).
module Boot {
  import opened BootTrace
  import opened Domain

  // Everything boot can observe, indexed by how many observations it has made.
  // Unit states may also depend on which units boot has started by then.
  datatype Env = Env(
    active: (nat, set<string>, string) -> bool,
    mounted: (nat, string) -> bool,
    startOk: (nat, string) -> bool,
    cancelled: nat -> bool,
    oversleep: nat -> nat)

  // Progress of one boot: observations made, seconds passed, units started, trace.
  datatype Ctx = Ctx(n: nat, clock: nat, up: set<string>, trace: seq<Event>)

  const DEPENDENCY_TIMEOUT: nat := 120
  const POLL: nat := 3

  // ---- What the trace must look like -----------------------------------------

  function Starts(trace: seq<Event>): seq<Service> {
    if trace == [] then []
    else
      var before := Starts(trace[..|trace| - 1]);
      var e := trace[|trace| - 1];
      if e.Start? then before + [e.svc] else before
  }

  lemma StartsSnoc(trace: seq<Event>, e: Event)
    ensures Starts(trace + [e]) == Starts(trace) + if e.Start? then [e.svc] else []
  {
    assert (trace + [e])[..|trace|] == trace;
  }

  predicate EndsWith(trace: seq<Event>, tail: seq<Event>) {
    |tail| <= |trace| && trace[|trace| - |tail|..] == tail
  }

  ghost predicate GuardedStarts(trace: seq<Event>) {
    forall k :: 0 <= k < |trace| && trace[k].Start? ==> EndsWith(trace[..k], Preamble(trace[k].svc))
  }

  // The services that boot was done with, started or skipped, in order.
  function Handled(trace: seq<Event>): seq<Service> {
    if trace == [] then []
    else
      var before := Handled(trace[..|trace| - 1]);
      var e := trace[|trace| - 1];
      if e.Start? || e.Skipped? then before + [e.svc] else before
  }

  // A service is skipped only right after one of its own dependencies was seen inactive or one of its own mounts
  // was missing.
  ghost predicate JustifiedSkips(trace: seq<Event>) {
    forall k :: 0 <= k < |trace| && trace[k].Skipped? ==> k > 0 && Justifies(trace[k - 1], trace[k].svc)
  }

  predicate Justifies(e: Event, svc: Service) {
    (e.Saw? && !e.active && e.unit in svc.dependsOn) || (e.MountMissing? && e.path in svc.requiresMounts)
  }

  // What the trace says was seen was so.
  ghost predicate Truthful(env: Env, trace: seq<Event>) {
    forall e <- trace :: IsTrue(env, e)
  }

  ghost predicate IsTrue(env: Env, e: Event) {
    match e
    case Saw(unit, active) => exists n, up :: env.active(n, up, unit) == active
    case MountMissing(path) => exists n :: !env.mounted(n, path)
    case _ => true
  }

  ghost predicate InOrder(env: Env, trace: seq<Event>) {
    GuardedStarts(trace) && JustifiedSkips(trace) && Truthful(env, trace)
  }

  // xs can be obtained from ys by leaving elements out.
  predicate Subsequence<T(==)>(xs: seq<T>, ys: seq<T>) {
    if xs == [] then true
    else if ys == [] then false
    else
      || (xs[|xs| - 1] == ys[|ys| - 1] && Subsequence(xs[..|xs| - 1], ys[..|ys| - 1]))
      || Subsequence(xs, ys[..|ys| - 1])
  }

  // What d adds to the trace of c.
  function Since(c: Ctx, d: Ctx): seq<Event>
    requires c.trace <= d.trace
  {
    d.trace[|c.trace|..]
  }

  ghost predicate IsCancelled(env: Env) { exists n :: env.cancelled(n) }

  // Nothing between c and d is a start.
  ghost predicate NoStartBetween(c: Ctx, d: Ctx) {
    c.trace <= d.trace && c.up == d.up && c.n <= d.n
    && forall k :: |c.trace| <= k < |d.trace| ==> !d.trace[k].Start? && !d.trace[k].Skipped?
  }

  // Between c and d only true observations were added.
  ghost predicate Sees(env: Env, c: Ctx, d: Ctx) {
    c.trace <= d.trace && forall k :: |c.trace| <= k < |d.trace| ==> IsTrue(env, d.trace[k])
  }

  // The last observation justifies skipping the service.
  predicate EndsBadly(d: Ctx, svc: Service) {
    d.trace != [] && Justifies(d.trace[|d.trace| - 1], svc)
  }

  lemma {:induction false} NoStartKeepsStarts(a: seq<Event>, b: seq<Event>)
    requires a <= b && forall k :: |a| <= k < |b| ==> !b[k].Start?
    ensures Starts(b) == Starts(a)
  {
    if |a| < |b| { NoStartKeepsStarts(a, b[..|b| - 1]); } else { assert a == b; }
  }

  // ---- The environments in which boot must succeed ----------------------------

  // Starts succeed, started units and those in base stay active, nothing cancels.
  ghost predicate Healthy(env: Env, base: set<string>) {
    && (forall n, up, u :: u in up || u in base ==> env.active(n, up, u))
    && (forall n, u :: env.startOk(n, u))
    && (forall n :: !env.cancelled(n))
  }

  ghost predicate MountsAlwaysHeld(env: Env, services: seq<Service>) {
    forall n, svc, m :: svc in services && m in svc.requiresMounts ==> env.mounted(n, m)
  }

  // Every dependency is in base or is another service of strictly smaller order.
  ghost predicate Satisfiable(services: seq<Service>, base: set<string>) {
    forall svc, d :: svc in services && d in svc.dependsOn ==>
      d in base || exists dep :: dep in services && dep.unit == d && dep.order < svc.order
  }

  ghost predicate Favourable(env: Env, services: seq<Service>, base: set<string>) {
    Healthy(env, base) && Satisfiable(services, base) && MountsAlwaysHeld(env, services)
  }

  // ---- Observations -------------------------------------------------------------

  function Observe(env: Env, c: Ctx, unit: string): (r: (bool, Ctx))
    ensures r.0 == env.active(c.n, c.up, unit)
    ensures r.1.trace == c.trace + [Saw(unit, r.0)]
    ensures NoStartBetween(c, r.1) && Sees(env, c, r.1) && r.1.clock == c.clock && r.1.n == c.n + 1
  {
    var seen := env.active(c.n, c.up, unit);
    (seen, c.(n := c.n + 1, trace := c.trace + [Saw(unit, seen)]))
  }

  // Since c the unit was polled in vain, or up to a last look at it.
  ghost predicate Polled(env: Env, c: Ctx, d: Ctx, unit: string) {
    NoStartBetween(c, d) && Sees(env, c, d) && ArePolls(unit, Since(c, d)) && Pauses(Since(c, d)) == d.clock - c.clock
  }

  ghost predicate HasWaited(env: Env, c: Ctx, d: Ctx, unit: string, ready: bool) {
    && NoStartBetween(c, d) && Sees(env, c, d)
    && IsWait(unit, Since(c, d), ready) && Pauses(Since(c, d)) == d.clock - c.clock
  }

  lemma LookAgain(env: Env, c: Ctx, d: Ctx, unit: string)
    requires Polled(env, c, d, unit)
    ensures var (seen, e) := Observe(env, d, unit); HasWaited(env, c, e, unit, seen)
  {
    var (seen, e) := Observe(env, d, unit);
    assert Since(c, e) == Since(c, d) + [Saw(unit, seen)];
    LastPoll(unit, Since(c, d), seen);
  }

  lemma PauseAgain(env: Env, c: Ctx, d: Ctx, e: Ctx, unit: string, seconds: nat)
    requires HasWaited(env, c, d, unit, false) && seconds >= 3
    requires e == Ctx(d.n + 1, d.clock + seconds, d.up, d.trace + [Waited(seconds)])
    ensures Polled(env, c, e, unit)
  {
    assert Since(c, e) == Since(c, d) + [Waited(seconds)];
    OneMorePoll(unit, Since(c, d), seconds);
  }

  // Without oversleeping: a pause of three seconds with every second event, and no more than 123 seconds.
  ghost predicate OnTime(env: Env, c: Ctx, d: Ctx, looks: nat) {
    (forall n :: env.oversleep(n) == 0) ==>
      d.clock <= c.clock + 123 && 2 * (d.clock - c.clock) == 3 * (|d.trace| - |c.trace| - looks)
  }

  lemma OnePauseMore(env: Env, c: Ctx, d: Ctx, e: Ctx, n: nat)
    requires OnTime(env, c, d, 1) && d.clock <= c.clock + 120
    requires e.clock == d.clock + 3 + env.oversleep(n) && |e.trace| == |d.trace| + 1
    ensures OnTime(env, c, e, 0)
  {}

  method WaitActive(env: Env, c: Ctx, unit: string) returns (ready: bool, d: Ctx)
    ensures HasWaited(env, c, d, unit, ready)
    ensures env.active(c.n, c.up, unit) ==> ready && d.trace == c.trace + [Saw(unit, true)]
    ensures !ready ==> d.clock > c.clock + 120 || env.cancelled(d.n)
    ensures OnTime(env, c, d, 1)
  {
    var deadline := c.clock + DEPENDENCY_TIMEOUT;
    d := c;
    while true
      invariant Polled(env, c, d, unit)
      invariant d != c ==> !env.active(c.n, c.up, unit)
      invariant OnTime(env, c, d, 0)
      decreases deadline + 1 - d.clock
    {
      LookAgain(env, c, d, unit);
      var seen := Observe(env, d, unit);
      d := seen.1;
      ghost var before := d;
      if seen.0 { return true, d; }
      if d.clock > deadline { return false, d; }
      d := d.(n := d.n + 1);
      if env.cancelled(d.n) { return false, d; }
      var seconds := POLL + env.oversleep(d.n);
      d := d.(clock := d.clock + seconds, trace := d.trace + [Waited(seconds)]);
      PauseAgain(env, c, before, d, unit, seconds);
      OnePauseMore(env, c, before, d, d.n);
    }
  }

  // Deps found active, mounts present, start working, no cancellation from c on.
  ghost predicate ReadyFor(env: Env, c: Ctx, svc: Service) {
    && (forall n, d :: d in svc.dependsOn ==> env.active(n, c.up, d))
    && (forall n, m :: m in svc.requiresMounts ==> env.mounted(n, m))
    && (forall n :: env.startOk(n, svc.unit))
    && (forall n :: !env.cancelled(n))
  }

  // Between c and d boot neither waited nor saw a unit inactive.
  ghost predicate Smooth(c: Ctx, d: Ctx) {
    c.trace <= d.trace
    && forall k :: |c.trace| <= k < |d.trace| ==>
         !d.trace[k].Waited? && (d.trace[k].Saw? ==> d.trace[k].active)
  }

  // The first i dependencies have been waited for.
  ghost predicate WaitedFor(env: Env, c: Ctx, d: Ctx, svc: Service, i: nat)
    requires i <= |svc.dependsOn|
  {
    NoStartBetween(c, d) && Sees(env, c, d) && AreWaits(svc.dependsOn[..i], Since(c, d))
  }

  ghost predicate GaveUp(env: Env, c: Ctx, d: Ctx, svc: Service) {
    NoStartBetween(c, d) && Sees(env, c, d) && TimesOut(svc, Since(c, d), IsCancelled(env)) && EndsBadly(d, svc)
  }

  lemma WaitGoesOn(env: Env, c: Ctx, before: Ctx, d: Ctx, svc: Service, i: nat)
    requires i < |svc.dependsOn| && WaitedFor(env, c, before, svc, i)
    requires HasWaited(env, before, d, svc.dependsOn[i], true)
    ensures WaitedFor(env, c, d, svc, i + 1)
  {
    assert Since(c, d) == Since(c, before) + Since(before, d);
    OneMoreWait(svc.dependsOn, i, Since(c, before), Since(before, d));
  }

  lemma WaitFails(env: Env, c: Ctx, before: Ctx, d: Ctx, svc: Service, i: nat)
    requires i < |svc.dependsOn| && WaitedFor(env, c, before, svc, i)
    requires HasWaited(env, before, d, svc.dependsOn[i], false)
    requires IsCancelled(env) || d.clock > before.clock + 120
    ensures GaveUp(env, c, d, svc)
  {
    var s, more := Since(c, before), Since(before, d);
    assert Since(c, d) == s + more && (s + more)[..|s|] == s && (s + more)[|s|..] == more;
    assert TimesOutAt(svc, s + more, IsCancelled(env), i, |s|);
    assert d.trace[|d.trace| - 1] == more[|more| - 1];
  }

  method WaitForDependencies(env: Env, c: Ctx, svc: Service) returns (ready: bool, d: Ctx)
    ensures if ready then WaitedFor(env, c, d, svc, |svc.dependsOn|) else GaveUp(env, c, d, svc)
    ensures ReadyFor(env, c, svc) ==> ready && Smooth(c, d)
  {
    d := c;
    for i := 0 to |svc.dependsOn|
      invariant WaitedFor(env, c, d, svc, i)
      invariant ReadyFor(env, c, svc) ==> Smooth(c, d)
    {
      ghost var before := d;
      ready, d := WaitActive(env, d, svc.dependsOn[i]);
      if !ready {
        WaitFails(env, c, before, d, svc, i);
        return;
      }
      WaitGoesOn(env, c, before, d, svc, i);
    }
    ready := true;
  }

  // The dependencies were seen active up to one that was not.
  ghost predicate SeesDown(c: Ctx, d: Ctx, deps: seq<string>) {
    exists i :: 0 <= i < |deps| && d.trace == c.trace + SawDown(deps, i)
  }

  method VerifyDependencies(env: Env, c: Ctx, svc: Service) returns (ok: bool, d: Ctx)
    ensures NoStartBetween(c, d)
    ensures ok ==> d.trace == c.trace + SawAll(svc.dependsOn)
    ensures ReadyFor(env, c, svc) ==> ok && Smooth(c, d)
    ensures Sees(env, c, d) && (!ok ==> EndsBadly(d, svc) && SeesDown(c, d, svc.dependsOn))
  {
    d := c;
    for i := 0 to |svc.dependsOn|
      invariant NoStartBetween(c, d) && Sees(env, c, d)
      invariant d.trace == c.trace + SawAll(svc.dependsOn[..i])
      invariant ReadyFor(env, c, svc) ==> Smooth(c, d)
    {
      var seen := Observe(env, d, svc.dependsOn[i]);
      d := seen.1;
      if !seen.0 {
        assert d.trace == c.trace + SawDown(svc.dependsOn, i);
        return false, d;
      }
      assert svc.dependsOn[..i + 1] == svc.dependsOn[..i] + [svc.dependsOn[i]];
    }
    assert svc.dependsOn[..|svc.dependsOn|] == svc.dependsOn;
    ok := true;
  }

  method CheckConstraints(env: Env, c: Ctx, svc: Service) returns (ok: bool, d: Ctx)
    ensures NoStartBetween(c, d) && Sees(env, c, d)
    ensures ok ==> d.trace == c.trace + [MountsHeld(svc)]
    ensures !ok ==> EndsBadly(d, svc) && exists m <- svc.requiresMounts :: d.trace == c.trace + [MountMissing(m)]
    ensures ReadyFor(env, c, svc) ==> ok
    ensures ok <==> forall j :: 0 <= j < |svc.requiresMounts| ==> env.mounted(c.n + j, svc.requiresMounts[j])
  {
    for i := 0 to |svc.requiresMounts|
      invariant forall j :: 0 <= j < i ==> env.mounted(c.n + j, svc.requiresMounts[j])
    {
      if !env.mounted(c.n + i, svc.requiresMounts[i]) {
        return false, c.(n := c.n + i + 1, trace := c.trace + [MountMissing(svc.requiresMounts[i])]);
      }
    }
    ok, d := true, c.(n := c.n + |svc.requiresMounts|, trace := c.trace + [MountsHeld(svc)]);
  }

  datatype Outcome = Go | Skip | Stop

  // What a step of the preparation keeps, and what it keeps when all is ready.
  ghost predicate Prepares(env: Env, c: Ctx, d: Ctx, svc: Service, ok: bool) {
    NoStartBetween(c, d) && Sees(env, c, d) && (ReadyFor(env, c, svc) ==> ok && Smooth(c, d))
  }

  lemma PreparesFurther(env: Env, c: Ctx, d: Ctx, e: Ctx, svc: Service, ok: bool)
    requires Prepares(env, c, d, svc, true) && Prepares(env, d, e, svc, ok)
    ensures Prepares(env, c, e, svc, ok)
  {}

  method Delay(env: Env, c: Ctx, svc: Service) returns (ok: bool, d: Ctx)
    ensures Prepares(env, c, d, svc, ok)
    ensures ok ==> d.trace == c.trace + Pause(svc)
    ensures ok && svc.bootDelay > 0 ==> d.clock == c.clock + svc.bootDelay
    ensures !ok ==> env.cancelled(d.n)
  {
    ok, d := true, c;
    if svc.bootDelay > 0 {
      d := d.(n := d.n + 1);
      if env.cancelled(d.n) { return false, d; }
      d := d.(clock := d.clock + svc.bootDelay, trace := d.trace + [Delayed(svc.bootDelay)]);
    }
  }

  // After the waits, up to w: what the rest of the preparation adds, and how it may end.
  ghost predicate IsRest(c: Ctx, w: Ctx, d: Ctx, svc: Service, rest: seq<Event>) {
    && c.trace <= w.trace && AreWaits(svc.dependsOn, Since(c, w))
    && d.trace == w.trace + rest
  }

  lemma RestFollows(c: Ctx, w: Ctx, d: Ctx, svc: Service, rest: seq<Event>)
    requires IsRest(c, w, d, svc, rest)
    ensures c.trace <= d.trace && AfterWaits(svc, Since(c, d), rest)
  {
    assert Since(c, d) == Since(c, w) + rest;
    ThenRest(svc, Since(c, w), rest);
  }

  lemma DownBefore(c: Ctx, w: Ctx, d: Ctx, svc: Service)
    requires IsRest(c, w, w, svc, []) && SeesDown(w, d, svc.dependsOn)
    ensures c.trace <= d.trace && GoesDown(svc, Since(c, d))
  {
    var i :| 0 <= i < |svc.dependsOn| && d.trace == w.trace + SawDown(svc.dependsOn, i);
    RestFollows(c, w, d, svc, SawDown(svc.dependsOn, i));
  }

  lemma DownAfter(c: Ctx, w: Ctx, e: Ctx, d: Ctx, svc: Service)
    requires IsRest(c, w, e, svc, Checks(svc)) && SeesDown(e, d, svc.dependsOn)
    ensures c.trace <= d.trace && GoesDown(svc, Since(c, d))
  {
    var i :| 0 <= i < |svc.dependsOn| && d.trace == e.trace + SawDown(svc.dependsOn, i);
    RestGoesOn(c, w, e, d, svc, Checks(svc), SawDown(svc.dependsOn, i));
  }

  lemma MountLacking(c: Ctx, w: Ctx, e: Ctx, d: Ctx, svc: Service)
    requires IsRest(c, w, e, svc, SawAll(svc.dependsOn))
    requires exists m <- svc.requiresMounts :: d.trace == e.trace + [MountMissing(m)]
    ensures c.trace <= d.trace && LacksMount(svc, Since(c, d))
  {
    var m :| m in svc.requiresMounts && d.trace == e.trace + [MountMissing(m)];
    RestGoesOn(c, w, e, d, svc, SawAll(svc.dependsOn), [MountMissing(m)]);
  }

  lemma RestGoesOn(c: Ctx, w: Ctx, e: Ctx, d: Ctx, svc: Service, rest: seq<Event>, more: seq<Event>)
    requires IsRest(c, w, e, svc, rest) && d.trace == e.trace + more
    ensures IsRest(c, w, d, svc, rest + more)
    ensures c.trace <= d.trace && AfterWaits(svc, Since(c, d), rest + more)
  {
    assert w.trace + (rest + more) == (w.trace + rest) + more;
    RestFollows(c, w, d, svc, rest + more);
  }

  lemma AllPrepared(c: Ctx, w: Ctx, e: Ctx, d: Ctx, svc: Service)
    requires IsRest(c, w, e, svc, Checks(svc)) && d.trace == e.trace + SawAll(svc.dependsOn)
    ensures c.trace <= d.trace && IsPrepared(svc, Since(c, d)) && EndsWith(d.trace, Preamble(svc))
  {
    RestGoesOn(c, w, e, d, svc, Checks(svc), SawAll(svc.dependsOn));
    ChecksThenPreamble(svc);
    EndsWithEnd(w.trace, SawAll(svc.dependsOn), Preamble(svc));
  }

  lemma EndsWithEnd(a: seq<Event>, b: seq<Event>, tail: seq<Event>)
    ensures EndsWith(a + (b + tail), tail)
  {
    assert a + (b + tail) == (a + b) + tail;
  }

  // Everything boot does for one service before systemctl start.
  method Prepare(env: Env, c: Ctx, svc: Service) returns (outcome: Outcome, d: Ctx)
    ensures Prepares(env, c, d, svc, outcome == Go)
    ensures outcome == Go ==> EndsWith(d.trace, Preamble(svc)) && IsPrepared(svc, Since(c, d))
    ensures outcome == Stop ==> env.cancelled(d.n)
    ensures outcome == Skip ==> EndsBadly(d, svc) && Fails(svc, Since(c, d), IsCancelled(env))
  {
    var ready;
    ready, d := WaitForDependencies(env, c, svc);
    if !ready { return Skip, d; }
    assert svc.dependsOn[..|svc.dependsOn|] == svc.dependsOn;
    outcome, d := CheckAll(env, c, d, svc);
  }

  // What comes after the waits.
  method CheckAll(env: Env, ghost c: Ctx, w: Ctx, svc: Service) returns (outcome: Outcome, d: Ctx)
    requires Prepares(env, c, w, svc, true) && AreWaits(svc.dependsOn, Since(c, w))
    ensures Prepares(env, c, d, svc, outcome == Go)
    ensures outcome == Go ==> EndsWith(d.trace, Preamble(svc)) && IsPrepared(svc, Since(c, d))
    ensures outcome == Stop ==> env.cancelled(d.n)
    ensures outcome == Skip ==> EndsBadly(d, svc) && Fails(svc, Since(c, d), IsCancelled(env))
  {
    var ok;
    ok, d := VerifyDependencies(env, w, svc);
    PreparesFurther(env, c, w, d, svc, ok);
    if !ok {
      DownBefore(c, w, d, svc);
      return Skip, d;
    }
    outcome, d := CheckMounts(env, c, w, d, svc);
    if outcome == Go { outcome, d := CheckAgain(env, c, w, d, svc); }
  }

  // The mounts, and the boot delay.
  method CheckMounts(env: Env, ghost c: Ctx, ghost w: Ctx, e: Ctx, svc: Service) returns (outcome: Outcome, d: Ctx)
    requires Prepares(env, c, e, svc, true) && IsRest(c, w, e, svc, SawAll(svc.dependsOn))
    ensures Prepares(env, c, d, svc, outcome == Go)
    ensures outcome == Go ==> IsRest(c, w, d, svc, Checks(svc))
    ensures outcome == Stop ==> env.cancelled(d.n)
    ensures outcome == Skip ==> EndsBadly(d, svc) && LacksMount(svc, Since(c, d))
  {
    var ok, held;
    ok, held := CheckConstraints(env, e, svc);
    PreparesFurther(env, c, e, held, svc, ok);
    if !ok {
      MountLacking(c, w, e, held, svc);
      return Skip, held;
    }
    ok, d := Delay(env, held, svc);
    PreparesFurther(env, c, held, d, svc, ok);
    assert ok ==> d.trace == w.trace + Checks(svc);
    outcome := if ok then Go else Stop;
  }

  method CheckAgain(env: Env, ghost c: Ctx, ghost w: Ctx, e: Ctx, svc: Service) returns (outcome: Outcome, d: Ctx)
    requires Prepares(env, c, e, svc, true) && IsRest(c, w, e, svc, Checks(svc))
    ensures Prepares(env, c, d, svc, outcome == Go) && outcome != Stop
    ensures outcome == Go ==> EndsWith(d.trace, Preamble(svc)) && IsPrepared(svc, Since(c, d))
    ensures outcome == Skip ==> EndsBadly(d, svc) && GoesDown(svc, Since(c, d))
  {
    var ok;
    ok, d := VerifyDependencies(env, e, svc);
    PreparesFurther(env, c, e, d, svc, ok);
    if ok { AllPrepared(c, w, e, d, svc); } else { DownAfter(c, w, e, d, svc); }
    outcome := if ok then Go else Skip;
  }

  lemma StartIsGuarded(trace: seq<Event>, svc: Service, ok: bool)
    requires GuardedStarts(trace) && EndsWith(trace, Preamble(svc))
    ensures GuardedStarts(trace + [Start(svc, ok)]) && Starts(trace + [Start(svc, ok)]) == Starts(trace) + [svc]
  {
    StartsSnoc(trace, Start(svc, ok));
    assert forall k :: 0 <= k <= |trace| ==> (trace + [Start(svc, ok)])[..k] == trace[..k];
    assert trace[..|trace|] == trace;
  }

  lemma NoStartKeepsGuards(trace: seq<Event>, more: seq<Event>)
    requires GuardedStarts(trace) && trace <= more
    requires forall k :: |trace| <= k < |more| ==> !more[k].Start?
    ensures GuardedStarts(more)
  {
    assert forall k :: 0 <= k < |trace| ==> more[..k] == trace[..k];
  }

  // Nothing but observations keeps the trace in order.
  lemma SeesKeeps(env: Env, c: Ctx, d: Ctx)
    requires NoStartBetween(c, d) && Sees(env, c, d) && JustifiedSkips(c.trace) && Truthful(env, c.trace)
    ensures JustifiedSkips(d.trace) && Truthful(env, d.trace) && Handled(d.trace) == Handled(c.trace)
  {
    QuietKeepsHandled(c.trace, d.trace);
  }

  lemma {:induction false} QuietKeepsHandled(a: seq<Event>, b: seq<Event>)
    requires a <= b && forall k :: |a| <= k < |b| ==> !b[k].Start? && !b[k].Skipped?
    ensures Handled(b) == Handled(a)
  {
    if |a| < |b| { QuietKeepsHandled(a, b[..|b| - 1]); } else { assert a == b; }
  }

  lemma HandledSnoc(env: Env, d: Ctx, e: Event)
    requires e.Start? || (e.Skipped? && EndsBadly(d, e.svc))
    requires JustifiedSkips(d.trace) && Truthful(env, d.trace)
    ensures var t := d.trace + [e]; JustifiedSkips(t) && Truthful(env, t) && Handled(t) == Handled(d.trace) + [e.svc]
  {
    assert (d.trace + [e])[..|d.trace|] == d.trace;
  }

  // The trace goes on with one attempt at the service.
  ghost predicate Attempts(env: Env, c: Ctx, d: Ctx, svc: Service) {
    && InOrder(env, d.trace) && Handled(d.trace) == Handled(c.trace) + [svc]
    && c.trace <= d.trace && IsAttempt(svc, Since(c, d), IsCancelled(env))
  }

  // Boot has got as far as this with the service.
  ghost predicate Reaches(env: Env, c: Ctx, d: Ctx) {
    && NoStartBetween(c, d) && InOrder(env, d.trace)
    && Handled(d.trace) == Handled(c.trace) && Starts(d.trace) == Starts(c.trace)
  }

  lemma PreparationReaches(env: Env, c: Ctx, d: Ctx)
    requires InOrder(env, c.trace) && NoStartBetween(c, d) && Sees(env, c, d)
    ensures Reaches(env, c, d)
  {
    NoStartKeepsStarts(c.trace, d.trace);
    NoStartKeepsGuards(c.trace, d.trace);
    SeesKeeps(env, c, d);
  }

  // The body of boot's loop: skip the service, start it, or give up on boot.
  method BootOne(env: Env, c: Ctx, svc: Service) returns (stop: bool, d: Ctx)
    requires InOrder(env, c.trace)
    ensures if stop then env.cancelled(d.n) && Reaches(env, c, d) else Attempts(env, c, d, svc)
    ensures Starts(d.trace) == Starts(c.trace) || Starts(d.trace) == Starts(c.trace) + [svc]
    ensures ReadyFor(env, c, svc) ==> !stop && StartsSmoothly(c, d, svc)
  {
    var outcome, ready;
    outcome, ready := Prepare(env, c, svc);
    PreparationReaches(env, c, ready);
    match outcome {
      case Go =>
        d := StartOne(env, c, ready, svc);
        stop := false;
      case Skip =>
        SkipKeeps(env, c, ready, svc);
        stop, d := false, ready.(trace := ready.trace + [Skipped(svc)]);
      case Stop =>
        stop, d := true, ready;
    }
  }

  // One start more, and no wait.
  ghost predicate StartsSmoothly(c: Ctx, d: Ctx, svc: Service) {
    Starts(d.trace) == Starts(c.trace) + [svc] && d.up == c.up + {svc.unit} && Smooth(c, d)
  }

  method StartOne(env: Env, ghost c: Ctx, ready: Ctx, svc: Service) returns (d: Ctx)
    requires Reaches(env, c, ready) && EndsWith(ready.trace, Preamble(svc)) && IsPrepared(svc, Since(c, ready))
    ensures Attempts(env, c, d, svc) && Starts(d.trace) == Starts(c.trace) + [svc]
    ensures ReadyFor(env, c, svc) && Smooth(c, ready) ==> StartsSmoothly(c, d, svc)
    ensures var ok := env.startOk(ready.n, svc.unit);
      d.up == (if ok then ready.up + {svc.unit} else ready.up) && d.trace == ready.trace + [Start(svc, ok)]
  {
    var started := env.startOk(ready.n, svc.unit);
    d := ready.(n := ready.n + 1, up := if started then ready.up + {svc.unit} else ready.up,
                trace := ready.trace + [Start(svc, started)]);
    StartKeeps(env, c, ready, d, svc, started);
    if ReadyFor(env, c, svc) && Smooth(c, ready) { StartIsSmooth(c, ready, d, svc); }
  }

  lemma StartKeeps(env: Env, c: Ctx, ready: Ctx, d: Ctx, svc: Service, ok: bool)
    requires Reaches(env, c, ready) && EndsWith(ready.trace, Preamble(svc)) && IsPrepared(svc, Since(c, ready))
    requires d.trace == ready.trace + [Start(svc, ok)]
    ensures Attempts(env, c, d, svc) && Starts(d.trace) == Starts(c.trace) + [svc]
  {
    StartIsGuarded(ready.trace, svc, ok);
    AttemptByStart(svc, Since(c, ready), ok, IsCancelled(env));
    AttemptMade(env, c, ready, d, svc, Start(svc, ok));
  }

  lemma StartIsSmooth(c: Ctx, ready: Ctx, d: Ctx, svc: Service)
    requires Smooth(c, ready) && d.trace == ready.trace + [Start(svc, true)]
    requires ready.up == c.up && d.up == ready.up + {svc.unit} && Starts(d.trace) == Starts(c.trace) + [svc]
    ensures StartsSmoothly(c, d, svc)
  {}

  lemma SkipKeeps(env: Env, c: Ctx, before: Ctx, svc: Service)
    requires Reaches(env, c, before) && EndsBadly(before, svc) && Fails(svc, Since(c, before), IsCancelled(env))
    ensures var d := before.(trace := before.trace + [Skipped(svc)]);
      Attempts(env, c, d, svc) && Starts(d.trace) == Starts(c.trace)
  {
    StartsSnoc(before.trace, Skipped(svc));
    NoStartKeepsGuards(before.trace, before.trace + [Skipped(svc)]);
    AttemptBySkip(svc, Since(c, before), IsCancelled(env));
    AttemptMade(env, c, before, before.(trace := before.trace + [Skipped(svc)]), svc, Skipped(svc));
  }

  lemma AttemptMade(env: Env, c: Ctx, before: Ctx, d: Ctx, svc: Service, e: Event)
    requires Reaches(env, c, before) && d.trace == before.trace + [e] && GuardedStarts(d.trace)
    requires (e.Start? || (e.Skipped? && EndsBadly(before, e.svc))) && e.svc == svc
    requires IsAttempt(svc, Since(c, before) + [e], IsCancelled(env))
    ensures Attempts(env, c, d, svc)
  {
    HandledSnoc(env, before, e);
    assert Since(c, d) == Since(c, before) + [e];
  }

  // ---- The whole sequence ---------------------------------------------------------

  function Eligible(services: seq<Service>, userStopped: set<string>): seq<Service> {
    if services == [] then []
    else
      var svc := services[|services| - 1];
      Eligible(services[..|services| - 1], userStopped)
      + if svc.enabled && svc.unit !in userStopped then [svc] else []
  }

  ghost predicate SortedByOrder(services: seq<Service>) {
    forall i, j :: 0 <= i < j < |services| ==> services[i].order <= services[j].order
  }

  lemma {:induction false} LeastOrder(services: seq<Service>) returns (k: nat)
    requires services != []
    ensures k < |services| && forall j :: 0 <= j < |services| ==> services[k].order <= services[j].order
  {
    if |services| == 1 {
      k := 0;
    } else {
      k := LeastOrder(services[1..]);
      k := if services[0].order <= services[k + 1].order then 0 else k + 1;
      assert forall j :: 1 <= j < |services| ==> services[j] == services[1..][j - 1];
    }
  }

  ghost predicate SortedBefore(sorted: seq<Service>, rest: seq<Service>) {
    && SortedByOrder(sorted)
    && forall i, j :: 0 <= i < |sorted| && 0 <= j < |rest| ==> sorted[i].order <= rest[j].order
  }

  lemma TakeLeast(sorted: seq<Service>, rest: seq<Service>, k: nat)
    requires SortedBefore(sorted, rest)
    requires k < |rest| && forall j :: 0 <= j < |rest| ==> rest[k].order <= rest[j].order
    ensures SortedBefore(sorted + [rest[k]], rest[..k] + rest[k + 1..])
    ensures multiset(sorted + [rest[k]]) + multiset(rest[..k] + rest[k + 1..]) == multiset(sorted) + multiset(rest)
  {
    var left := rest[..k] + rest[k + 1..];
    assert rest == rest[..k] + [rest[k]] + rest[k + 1..];
    forall j | 0 <= j < |left| ensures left[j] in rest && rest[k].order <= left[j].order {
      assert left[j] == rest[if j < k then j else j + 1];
    }
    AppendBefore(sorted, rest[k], rest, left);
  }

  lemma AppendBefore(sorted: seq<Service>, next: Service, rest: seq<Service>, left: seq<Service>)
    requires SortedBefore(sorted, rest) && next in rest
    requires forall s <- left :: s in rest && next.order <= s.order
    ensures SortedBefore(sorted + [next], left)
  {}

  // sort.Slice is not stable: among equal orders any entry may come next.
  method SortByOrder(services: seq<Service>) returns (sorted: seq<Service>)
    ensures SortedByOrder(sorted) && multiset(sorted) == multiset(services)
  {
    sorted := [];
    var rest := services;
    while rest != []
      invariant SortedBefore(sorted, rest)
      invariant multiset(sorted) + multiset(rest) == multiset(services)
      decreases |rest|
    {
      ghost var least := LeastOrder(rest);
      var k :| 0 <= k < |rest| && forall j :: 0 <= j < |rest| ==> rest[k].order <= rest[j].order;
      TakeLeast(sorted, rest, k);
      sorted, rest := sorted + [rest[k]], rest[..k] + rest[k + 1..];
    }
  }

  method SelectEligible(services: seq<Service>, userStopped: set<string>) returns (enabled: seq<Service>)
    ensures enabled == Eligible(services, userStopped)
  {
    enabled := [];
    for i := 0 to |services|
      invariant enabled == Eligible(services[..i], userStopped)
    {
      assert services[..i + 1][..i] == services[..i];
      if services[i].enabled && services[i].unit !in userStopped {
        enabled := enabled + [services[i]];
      }
    }
    assert services[..|services|] == services;
  }

  // The first i services are handled, and what was started is among them.
  ghost predicate Came(trace: seq<Event>, plan: seq<Service>, i: nat)
    requires i <= |plan|
  {
    Handled(trace) == plan[..i] && Subsequence(Starts(trace), plan)
  }

  lemma CameFurther(before: seq<Event>, after: seq<Event>, plan: seq<Service>, i: nat, stop: bool)
    requires i < |plan| && Handled(before) == plan[..i] && Subsequence(Starts(before), plan[..i])
    requires Handled(after) == Handled(before) + if stop then [] else [plan[i]]
    requires Starts(after) == Starts(before) || Starts(after) == Starts(before) + [plan[i]]
    ensures Handled(after) == if stop then plan[..i] else plan[..i + 1]
    ensures Subsequence(Starts(after), plan[..i + 1]) && Came(after, plan, if stop then i else i + 1)
  {
    SubsequenceStep(Starts(before), Starts(after), plan, i);
    SubsequenceOfLonger(Starts(after), plan, i + 1);
    assert plan[..i + 1] == plan[..i] + [plan[i]] && plan[..i] + [] == plan[..i];
  }

  // Attempts at the first services of the plan, one after the other, and nothing more but what a cancellation cuts off.
  ghost predicate Tells(env: Env, plan: seq<Service>, trace: seq<Event>) {
    exists i, cut :: 0 <= i <= |plan| && 0 <= cut <= |trace| && TellsUpTo(env, plan, trace, i, cut)
  }

  ghost predicate TellsUpTo(env: Env, plan: seq<Service>, trace: seq<Event>, i: nat, cut: nat)
    requires i <= |plan| && cut <= |trace|
  {
    && IsStory(plan[..i], trace[..cut], IsCancelled(env))
    && (i < |plan| || cut < |trace| ==> IsCancelled(env))
    && forall k :: cut <= k < |trace| ==> !trace[k].Start? && !trace[k].Skipped?
  }

  lemma StoryTold(env: Env, plan: seq<Service>, trace: seq<Event>, i: nat)
    requires i <= |plan| && IsStory(plan[..i], trace, IsCancelled(env)) && (i < |plan| ==> IsCancelled(env))
    ensures Tells(env, plan, trace)
  {
    assert trace[..|trace|] == trace;
    assert TellsUpTo(env, plan, trace, i, |trace|);
  }

  lemma StoryGoesOn(env: Env, plan: seq<Service>, c: Ctx, d: Ctx, i: nat, stop: bool)
    requires i < |plan| && IsStory(plan[..i], c.trace, IsCancelled(env)) && c.trace <= d.trace
    requires if stop then IsCancelled(env) && forall k :: |c.trace| <= k < |d.trace| ==>
                            !d.trace[k].Start? && !d.trace[k].Skipped?
             else IsAttempt(plan[i], Since(c, d), IsCancelled(env))
    ensures if stop then Tells(env, plan, d.trace) else IsStory(plan[..i + 1], d.trace, IsCancelled(env))
  {
    if stop {
      assert d.trace[..|c.trace|] == c.trace;
      assert TellsUpTo(env, plan, d.trace, i, |c.trace|);
    } else {
      OneMoreAttempt(plan, i, c.trace, Since(c, d), IsCancelled(env));
      assert d.trace == c.trace + Since(c, d);
    }
  }

  // The loop over the ordered services. came tells how far it got; it ends early only on cancellation.
  method BootAll(env: Env, plan: seq<Service>, ghost services: seq<Service>)
    returns (trace: seq<Event>, ghost came: nat)
    requires SortedByOrder(plan) && multiset(plan) == multiset(services)
    ensures InOrder(env, trace) && came <= |plan| && Came(trace, plan, came)
    ensures (forall n :: !env.cancelled(n)) ==> came == |plan| && IsStory(plan, trace, false)
    ensures Tells(env, plan, trace)
    ensures forall base :: Favourable(env, services, base) ==>
      Starts(trace) == plan && forall k :: 0 <= k < |trace| ==> !trace[k].Waited?
  {
    var c := Ctx(0, 0, {}, []);
    for i := 0 to |plan|
      invariant InOrder(env, c.trace) && Handled(c.trace) == plan[..i] && Subsequence(Starts(c.trace), plan[..i])
      invariant OnTrack(env, services, plan, i, c)
      invariant IsStory(plan[..i], c.trace, IsCancelled(env))
    {
      if env.cancelled(c.n) {
        SubsequenceOfLonger(Starts(c.trace), plan, i);
        StoryTold(env, plan, c.trace, i);
        trace, came := c.trace, i;
        return;
      }
      var stop, d := BootOne(env, c, plan[i]);
      CameFurther(c.trace, d.trace, plan, i, stop);
      StaysOnTrack(env, c, d, stop, services, plan, i);
      StoryGoesOn(env, plan, c, d, i, stop);
      c := d;
      if stop {
        trace, came := c.trace, i;
        return;
      }
    }
    assert plan[..|plan|] == plan;
    StoryTold(env, plan, c.trace, |plan|);
    trace, came := c.trace, |plan|;
  }

  method Boot(env: Env, services: seq<Service>, userStopped: set<string>)
    returns (plan: seq<Service>, trace: seq<Event>)
    ensures SortedByOrder(plan) && multiset(plan) == multiset(Eligible(services, userStopped))
    // safety, in any environment
    ensures Subsequence(Starts(trace), plan)
    ensures InOrder(env, trace)
    // one service does not keep boot from the others
    ensures Handled(trace) <= plan && ((forall n :: !env.cancelled(n)) ==> Handled(trace) == plan)
    ensures Tells(env, plan, trace) && ((forall n :: !env.cancelled(n)) ==> IsStory(plan, trace, false))
    // completeness
    ensures forall base :: Favourable(env, Eligible(services, userStopped), base) ==>
      Starts(trace) == plan && forall k :: 0 <= k < |trace| ==> !trace[k].Waited?
  {
    var enabled := SelectEligible(services, userStopped);
    plan := SortByOrder(enabled);
    ghost var came;
    trace, came := BootAll(env, plan, enabled);
    assert plan[..|plan|] == plan;
  }

  // In a favourable environment boot has started the first i services and nothing else happened.
  ghost predicate OnTrack(env: Env, services: seq<Service>, plan: seq<Service>, i: nat, c: Ctx)
    requires i <= |plan|
  {
    forall base :: Favourable(env, services, base) ==>
      && Starts(c.trace) == plan[..i]
      && c.up == (set j | 0 <= j < i :: plan[j].unit)
      && Smooth(Ctx(0, 0, {}, []), c)
  }

  lemma StaysOnTrack(env: Env, c: Ctx, d: Ctx, stop: bool, services: seq<Service>, plan: seq<Service>, i: nat)
    requires SortedByOrder(plan) && multiset(plan) == multiset(services) && i < |plan|
    requires OnTrack(env, services, plan, i, c)
    requires ReadyFor(env, c, plan[i]) ==>
      !stop && StartsSmoothly(c, d, plan[i])
    ensures OnTrack(env, services, plan, i + 1, d)
    ensures stop ==> forall base :: !Favourable(env, services, base)
  {
    forall base | Favourable(env, services, base)
      ensures !stop && Starts(d.trace) == plan[..i + 1]
      ensures d.up == (set j | 0 <= j < i + 1 :: plan[j].unit)
      ensures Smooth(Ctx(0, 0, {}, []), d)
    {
      DependenciesUp(env, c, services, plan, i, base);
      assert plan[..i + 1] == plan[..i] + [plan[i]];
    }
  }

  lemma DependenciesUp(env: Env, c: Ctx, services: seq<Service>, plan: seq<Service>, i: nat, base: set<string>)
    requires Favourable(env, services, base)
    requires SortedByOrder(plan) && multiset(plan) == multiset(services) && i < |plan|
    requires c.up == (set j | 0 <= j < i :: plan[j].unit)
    ensures ReadyFor(env, c, plan[i])
  {
    assert plan[i] in multiset(plan);
    forall d | d in plan[i].dependsOn ensures d in base || d in c.up {
      if d !in base {
        var dep :| dep in services && dep.unit == d && dep.order < plan[i].order;
        assert dep in multiset(plan);
        var j :| 0 <= j < |plan| && plan[j] == dep;
        assert j < i;
      }
    }
  }

  lemma SubsequenceStep(xs: seq<Service>, ys: seq<Service>, plan: seq<Service>, i: nat)
    requires i < |plan| && Subsequence(xs, plan[..i]) && (ys == xs || ys == xs + [plan[i]])
    ensures Subsequence(ys, plan[..i + 1])
  {
    assert plan[..i + 1][..i] == plan[..i];
    assert (xs + [plan[i]])[..|xs|] == xs;
  }

  lemma {:induction false} SubsequenceOfLonger(xs: seq<Service>, plan: seq<Service>, i: nat)
    requires i <= |plan| && Subsequence(xs, plan[..i])
    ensures Subsequence(xs, plan)
    decreases |plan| - i
  {
    if i < |plan| {
      SubsequenceStep(xs, xs, plan, i);
      SubsequenceOfLonger(xs, plan, i + 1);
    } else {
      assert plan[..i] == plan;
    }
  }

  // ---- What being a subsequence of a sorted plan means --------------------------------

  lemma {:induction false} SubsequenceIsContained(xs: seq<Service>, ys: seq<Service>)
    requires Subsequence(xs, ys)
    ensures multiset(xs) <= multiset(ys)
    ensures SortedByOrder(ys) ==> SortedByOrder(xs)
  {
    if xs != [] {
      var xs', ys' := xs[..|xs| - 1], ys[..|ys| - 1];
      assert ys == ys' + [ys[|ys| - 1]];
      if Subsequence(xs, ys') {
        SubsequenceIsContained(xs, ys');
      } else {
        assert xs == xs' + [xs[|xs| - 1]];
        SubsequenceIsContained(xs', ys');
        forall i | SortedByOrder(ys) && 0 <= i < |xs'| ensures xs'[i].order <= ys[|ys| - 1].order {
          assert xs'[i] in multiset(xs');
          assert xs'[i] in multiset(ys');
        }
      }
    }
  }

  predicate IsEligible(svc: Service, userStopped: set<string>) {
    svc.enabled && svc.unit !in userStopped
  }

  // Every eligible service as often as it is listed, and no other.
  lemma {:induction false} EligibleOnly(services: seq<Service>, userStopped: set<string>, svc: Service)
    ensures multiset(Eligible(services, userStopped))[svc]
      == if IsEligible(svc, userStopped) then multiset(services)[svc] else 0
  {
    if services != [] {
      var init, last := services[..|services| - 1], services[|services| - 1];
      assert services == init + [last];
      EligibleOnly(init, userStopped, svc);
    }
  }

  lemma {:induction false} EligibleInOrder(services: seq<Service>, userStopped: set<string>)
    ensures Subsequence(Eligible(services, userStopped), services)
  {
    if services != [] {
      var init, last := services[..|services| - 1], services[|services| - 1];
      EligibleInOrder(init, userStopped);
      var before := Eligible(init, userStopped);
      assert (before + [last])[..|before|] == before && before + [] == before;
    }
  }

  lemma EligibleIff(services: seq<Service>, userStopped: set<string>)
    ensures multiset(Eligible(services, userStopped)) <= multiset(services)
    ensures forall svc :: svc in Eligible(services, userStopped) <==>
      svc in services && svc.enabled && svc.unit !in userStopped
  {
    var eligible := Eligible(services, userStopped);
    forall svc ensures svc in eligible <==> svc in services && IsEligible(svc, userStopped) {
      EligibleOnly(services, userStopped, svc);
      assert svc in eligible <==> svc in multiset(eligible);
      assert svc in services <==> svc in multiset(services);
    }
    forall svc ensures multiset(eligible)[svc] <= multiset(services)[svc] { EligibleOnly(services, userStopped, svc); }
  }

  lemma {:induction false} DistinctOnce<T>(xs: seq<T>, x: T)
    requires Distinct(xs)
    ensures multiset(xs)[x] <= 1
  {
    if xs != [] {
      var init := xs[..|xs| - 1];
      assert xs == init + [xs[|xs| - 1]];
      DistinctOnce(init, x);
      if x == xs[|xs| - 1] { assert x !in init; }
    }
  }

  lemma TwiceCounts<T>(xs: seq<T>, i: nat, j: nat)
    requires i < j < |xs| && xs[i] == xs[j]
    ensures multiset(xs)[xs[i]] >= 2
  {
    assert xs == xs[..j] + [xs[j]] + xs[j + 1..];
    assert xs[i] in xs[..j];
  }

  lemma StartsAreEligible(services: seq<Service>, userStopped: set<string>, plan: seq<Service>, starts: seq<Service>)
    requires multiset(plan) == multiset(Eligible(services, userStopped)) && Subsequence(starts, plan)
    ensures multiset(starts) <= multiset(services)
    ensures forall svc :: svc in starts ==> svc in services && svc.enabled && svc.unit !in userStopped
  {
    SubsequenceIsContained(starts, plan);
    EligibleIff(services, userStopped);
    forall svc | svc in starts
      ensures svc in services && svc.enabled && svc.unit !in userStopped
    {
      assert svc in multiset(starts);
      assert svc in multiset(Eligible(services, userStopped));
    }
  }

  lemma DistinctServices(services: seq<Service>)
    requires Distinct(Units(services))
    ensures Distinct(services)
  {
    forall x, y | 0 <= x < y < |services| ensures services[x] != services[y] {
      assert Units(services)[x] != Units(services)[y];
    }
  }

  lemma SameUnitSameService(services: seq<Service>, s: Service, t: Service)
    requires Distinct(Units(services)) && s in services && t in services && s.unit == t.unit
    ensures s == t
  {
    var a :| 0 <= a < |services| && services[a] == s;
    var b :| 0 <= b < |services| && services[b] == t;
    assert Units(services)[a] == Units(services)[b];
  }

  lemma StartsAreDistinct(services: seq<Service>, starts: seq<Service>)
    requires Distinct(Units(services)) && multiset(starts) <= multiset(services)
    requires forall svc :: svc in starts ==> svc in services
    ensures Distinct(Units(starts))
  {
    forall i, j | 0 <= i < j < |starts| ensures starts[i].unit != starts[j].unit {
      if starts[i].unit == starts[j].unit {
        SameUnitSameService(services, starts[i], starts[j]);
        TwiceCounts(starts, i, j);
        DistinctServices(services);
        DistinctOnce(services, starts[i]);
        assert false;
      }
    }
  }

  // In every environment boot starts enabled services only, none of them stopped by
  // the user, in non-decreasing order, and no unit twice.
  lemma StartsAreSafe(services: seq<Service>, userStopped: set<string>, plan: seq<Service>, starts: seq<Service>)
    requires SortedByOrder(plan) && multiset(plan) == multiset(Eligible(services, userStopped))
    requires Subsequence(starts, plan)
    ensures SortedByOrder(starts)
    ensures forall svc :: svc in starts ==> svc in services && svc.enabled && svc.unit !in userStopped
    ensures Distinct(Units(services)) ==> Distinct(Units(starts))
  {
    SubsequenceIsContained(starts, plan);
    StartsAreEligible(services, userStopped, plan, starts);
    if Distinct(Units(services)) { StartsAreDistinct(services, starts); }
  }

  // ---- What the other services have to do with it ---------------------------------------------

  lemma {:induction false} HandledCounts(trace: seq<Event>, svc: Service)
    ensures multiset(Handled(trace))[svc] == multiset(Starts(trace))[svc] + multiset(trace)[Skipped(svc)]
  {
    if trace != [] {
      HandledCounts(trace[..|trace| - 1], svc);
      assert trace == trace[..|trace| - 1] + [trace[|trace| - 1]];
    }
  }

  // A service that boot came to is started exactly when it is not skipped.
  lemma StartedExactlyWhenNotSkipped(trace: seq<Event>, svc: Service)
    requires svc in Handled(trace)
    ensures svc in Starts(trace) || Skipped(svc) in trace
    ensures Distinct(Handled(trace)) ==> !(svc in Starts(trace) && Skipped(svc) in trace)
  {
    HandledCounts(trace, svc);
    assert svc in multiset(Handled(trace));
    assert svc in Starts(trace) <==> svc in multiset(Starts(trace));
    assert Skipped(svc) in trace <==> Skipped(svc) in multiset(trace);
    if Distinct(Handled(trace)) { DistinctOnce(Handled(trace), svc); }
  }

  lemma ReadyIsNotSkipped(env: Env, e: Event, svc: Service)
    requires IsTrue(env, e)
    requires forall n, up, d :: d in svc.dependsOn ==> env.active(n, up, d)
    requires forall n, m :: m in svc.requiresMounts ==> env.mounted(n, m)
    ensures !Justifies(e, svc)
  {}

  // In whatever environment boot ran through, a service whose own mounts are there and whose own dependencies are
  // active whenever boot looks is started, whatever happens to the others.
  lemma ReadyServiceStarts(env: Env, plan: seq<Service>, trace: seq<Event>, svc: Service)
    requires Handled(trace) == plan && JustifiedSkips(trace) && Truthful(env, trace) && svc in plan
    requires forall n, up, d :: d in svc.dependsOn ==> env.active(n, up, d)
    requires forall n, m :: m in svc.requiresMounts ==> env.mounted(n, m)
    ensures svc in Starts(trace)
  {
    StartedExactlyWhenNotSkipped(trace, svc);
    forall k | 0 <= k < |trace| ensures trace[k] != Skipped(svc) {
      if k > 0 {
        assert trace[k - 1] in trace;
        ReadyIsNotSkipped(env, trace[k - 1], svc);
      }
    }
  }
}
