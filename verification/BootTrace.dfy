// What boot does for one service, and for one service after the other (cmd/daemon/monitor.go, lines 300-399).
module BootTrace {
  import opened Domain

  datatype Event =
    | Saw(unit: string, active: bool)
    | Waited(seconds: int)
    | MountsHeld(svc: Service)
    | Delayed(seconds: int)
    | Start(svc: Service, ok: bool)
    | MountMissing(path: string)
    | Skipped(svc: Service)

  function SawAll(deps: seq<string>): seq<Event> {
    seq(|deps|, i requires 0 <= i < |deps| => Saw(deps[i], true))
  }

  function Pause(svc: Service): seq<Event> {
    if svc.bootDelay > 0 then [Delayed(svc.bootDelay)] else []
  }

  // What immediately precedes a start: mounts present, the boot delay, then every
  // dependency seen active, with no wait in between.
  function Preamble(svc: Service): seq<Event> {
    [MountsHeld(svc)] + Pause(svc) + SawAll(svc.dependsOn)
  }

  // ---- Waiting for the dependencies ------------------------------------------------------

  // The unit was seen inactive, again and again, at least three seconds apart.
  predicate ArePolls(unit: string, s: seq<Event>) {
    && |s| % 2 == 0
    && forall k :: 0 <= k < |s| ==>
         if k % 2 == 0 then s[k] == Saw(unit, false) else s[k].Waited? && s[k].seconds >= 3
  }

  predicate IsWait(unit: string, s: seq<Event>, ready: bool) {
    s != [] && s[|s| - 1] == Saw(unit, ready) && ArePolls(unit, s[..|s| - 1])
  }

  // Seconds spent waiting.
  function Pauses(s: seq<Event>): int {
    if s == [] then 0
    else Pauses(s[..|s| - 1]) + if s[|s| - 1].Waited? then s[|s| - 1].seconds else 0
  }

  lemma PausesSnoc(s: seq<Event>, e: Event)
    ensures Pauses(s + [e]) == Pauses(s) + if e.Waited? then e.seconds else 0
  {
    assert (s + [e])[..|s|] == s;
  }

  lemma OneMorePoll(unit: string, s: seq<Event>, seconds: nat)
    requires IsWait(unit, s, false) && seconds >= 3
    ensures var t := s + [Waited(seconds)]; ArePolls(unit, t) && Pauses(t) == Pauses(s) + seconds
  {
    PausesSnoc(s, Waited(seconds));
  }

  lemma LastPoll(unit: string, s: seq<Event>, ready: bool)
    requires ArePolls(unit, s)
    ensures var t := s + [Saw(unit, ready)]; IsWait(unit, t, ready) && Pauses(t) == Pauses(s)
  {
    PausesSnoc(s, Saw(unit, ready));
    assert (s + [Saw(unit, ready)])[..|s|] == s;
  }

  // Each of the units was waited for, in order, until it was active.
  ghost predicate AreWaits(units: seq<string>, s: seq<Event>)
    decreases |units|, 1
  {
    if units == [] then s == []
    else exists cut :: 0 <= cut <= |s| && WaitsUpTo(units, s, cut)
  }

  ghost predicate WaitsUpTo(units: seq<string>, s: seq<Event>, cut: nat)
    requires units != [] && cut <= |s|
    decreases |units|, 0
  {
    AreWaits(units[..|units| - 1], s[..cut]) && IsWait(units[|units| - 1], s[cut..], true)
  }

  lemma OneMoreWait(units: seq<string>, i: nat, s: seq<Event>, more: seq<Event>)
    requires i < |units| && AreWaits(units[..i], s) && IsWait(units[i], more, true)
    ensures AreWaits(units[..i + 1], s + more)
  {
    assert units[..i + 1][..i] == units[..i];
    assert (s + more)[..|s|] == s && (s + more)[|s|..] == more;
    assert WaitsUpTo(units[..i + 1], s + more, |s|);
  }

  // ---- One service -------------------------------------------------------------------------

  // First all the waits, and then the rest.
  ghost predicate AfterWaits(svc: Service, s: seq<Event>, rest: seq<Event>) {
    |rest| <= |s| && s[|s| - |rest|..] == rest && AreWaits(svc.dependsOn, s[..|s| - |rest|])
  }

  lemma ThenRest(svc: Service, waits: seq<Event>, rest: seq<Event>)
    requires AreWaits(svc.dependsOn, waits)
    ensures AfterWaits(svc, waits + rest, rest)
  {
    assert (waits + rest)[..|waits|] == waits;
  }

  // Every dependency seen active, the mounts there and the delay passed.
  function Checks(svc: Service): seq<Event> { SawAll(svc.dependsOn) + [MountsHeld(svc)] + Pause(svc) }

  // All this after the waits, and then every dependency seen active once more.
  ghost predicate IsPrepared(svc: Service, s: seq<Event>) {
    AfterWaits(svc, s, Checks(svc) + SawAll(svc.dependsOn))
  }

  lemma ChecksThenPreamble(svc: Service)
    ensures Checks(svc) + SawAll(svc.dependsOn) == SawAll(svc.dependsOn) + Preamble(svc)
  {}

  // The wait for a dependency took more than two minutes, or was cancelled.
  ghost predicate TimesOut(svc: Service, s: seq<Event>, cancelled: bool) {
    exists i, cut :: 0 <= i < |svc.dependsOn| && 0 <= cut <= |s| && TimesOutAt(svc, s, cancelled, i, cut)
  }

  ghost predicate TimesOutAt(svc: Service, s: seq<Event>, cancelled: bool, i: nat, cut: nat)
    requires i < |svc.dependsOn| && cut <= |s|
  {
    && AreWaits(svc.dependsOn[..i], s[..cut])
    && IsWait(svc.dependsOn[i], s[cut..], false)
    && (cancelled || Pauses(s[cut..]) > 120)
  }

  // The dependencies were seen active up to this one, which was not.
  function SawDown(deps: seq<string>, i: nat): seq<Event>
    requires i < |deps|
  {
    SawAll(deps[..i]) + [Saw(deps[i], false)]
  }

  // A dependency was down before the mounts were checked, or after the delay.
  ghost predicate GoesDown(svc: Service, s: seq<Event>) {
    var deps := svc.dependsOn;
    exists i :: 0 <= i < |deps| &&
      (AfterWaits(svc, s, SawDown(deps, i)) || AfterWaits(svc, s, Checks(svc) + SawDown(deps, i)))
  }

  ghost predicate LacksMount(svc: Service, s: seq<Event>) {
    exists m <- svc.requiresMounts :: AfterWaits(svc, s, SawAll(svc.dependsOn) + [MountMissing(m)])
  }

  ghost predicate Fails(svc: Service, s: seq<Event>, cancelled: bool) {
    TimesOut(svc, s, cancelled) || GoesDown(svc, s) || LacksMount(svc, s)
  }

  // The service was prepared and started, or one of the preparations failed and it was skipped.
  ghost predicate IsAttempt(svc: Service, s: seq<Event>, cancelled: bool) {
    s != [] && var before, last := s[..|s| - 1], s[|s| - 1];
    || (last.Start? && last.svc == svc && IsPrepared(svc, before))
    || (last == Skipped(svc) && Fails(svc, before, cancelled))
  }

  lemma AttemptByStart(svc: Service, s: seq<Event>, ok: bool, cancelled: bool)
    requires IsPrepared(svc, s)
    ensures IsAttempt(svc, s + [Start(svc, ok)], cancelled)
  {
    assert (s + [Start(svc, ok)])[..|s|] == s;
  }

  lemma AttemptBySkip(svc: Service, s: seq<Event>, cancelled: bool)
    requires Fails(svc, s, cancelled)
    ensures IsAttempt(svc, s + [Skipped(svc)], cancelled)
  {
    assert (s + [Skipped(svc)])[..|s|] == s;
  }

  // ---- One after the other ---------------------------------------------------------------------

  ghost predicate IsStory(plan: seq<Service>, trace: seq<Event>, cancelled: bool)
    decreases |plan|, 1
  {
    if plan == [] then trace == []
    else exists cut :: 0 <= cut <= |trace| && StoryUpTo(plan, trace, cancelled, cut)
  }

  ghost predicate StoryUpTo(plan: seq<Service>, trace: seq<Event>, cancelled: bool, cut: nat)
    requires plan != [] && cut <= |trace|
    decreases |plan|, 0
  {
    IsStory(plan[..|plan| - 1], trace[..cut], cancelled) && IsAttempt(plan[|plan| - 1], trace[cut..], cancelled)
  }

  lemma OneMoreAttempt(plan: seq<Service>, i: nat, trace: seq<Event>, more: seq<Event>, cancelled: bool)
    requires i < |plan| && IsStory(plan[..i], trace, cancelled) && IsAttempt(plan[i], more, cancelled)
    ensures IsStory(plan[..i + 1], trace + more, cancelled)
  {
    assert plan[..i + 1][..i] == plan[..i];
    assert (trace + more)[..|trace|] == trace && (trace + more)[|trace|..] == more;
    assert StoryUpTo(plan[..i + 1], trace + more, cancelled, |trace|);
  }
}
