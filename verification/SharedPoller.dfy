// The shared overview poller (frontend/src/hooks/use-overview.ts, lines 38-191).
//
// Callbacks of the event loop run one at a time, so every method is atomic.
// Listeners neither throw nor call back into the poller.
module SharedPoller {
  import opened Domain

  type Listener = nat

  datatype Snapshot = Snapshot(body: string)

  // What a tick reads from its surroundings: the stored interval, if it is a finite
  // number, and whether the tab is hidden.
  datatype Settings = Settings(stored: Option<real>, hidden: bool)

  function Max(a: real, b: real): real { if a >= b then a else b }
  function Min(a: real, b: real): real { if a <= b then a else b }

  // Milliseconds.
  function PollInterval(s: Settings): (ms: real)
    ensures 2000.0 <= ms <= 60000.0
  {
    match s.stored
    case Some(n) => Max(2000.0, Min(60000.0, n))
    case None => 10000.0
  }

  // The stored interval within two seconds and a minute; ten seconds without one; at least thirty in a hidden tab.
  lemma IntervalIs(s: Settings)
    ensures s.stored == None ==> PollInterval(s) == 10000.0
    ensures s.stored.Some? ==>
      PollInterval(s) ==
        if s.stored.value < 2000.0 then 2000.0
        else if s.stored.value > 60000.0 then 60000.0
        else s.stored.value
    ensures ResolvedInterval(s) == if s.hidden && PollInterval(s) < 30000.0 then 30000.0 else PollInterval(s)
  {}

  function ResolvedInterval(s: Settings): (ms: real)
    ensures 2000.0 <= ms <= 60000.0 && (s.hidden ==> ms >= 30000.0)
  {
    if s.hidden then Max(PollInterval(s), 30000.0) else PollInterval(s)
  }

  // The poller's fields, the browser's pending work, and what each listener got last.
  datatype View = View(
    subscribers: set<Listener>,
    cached: Option<Snapshot>,
    timeoutId: Option<nat>,
    fetching: bool,
    fetches: seq<real>,      // in flight, with the interval each one captured
    timers: map<nat, real>,  // pending, with their delays
    nextTimer: nat,
    delivered: map<Listener, Snapshot>)

  const INITIAL := View({}, None, None, false, [], map[], 0, map[])

  // ---- Effects ------------------------------------------------------------------

  function Delivered(d: map<Listener, Snapshot>, to: set<Listener>, data: Snapshot): map<Listener, Snapshot> {
    map l | l in d.Keys + to :: if l in to then data else d[l]
  }

  lemma DeliverToNobody(d: map<Listener, Snapshot>, data: Snapshot)
    ensures Delivered(d, {}, data) == d
  {}

  lemma DeliverOneMore(d: map<Listener, Snapshot>, to: set<Listener>, l: Listener, data: Snapshot)
    ensures Delivered(d, to, data)[l := data] == Delivered(d, to + {l}, data)
  {}

  function CachedDelivered(v: View): View {
    if v.cached.None? then v
    else v.(delivered := Delivered(v.delivered, v.subscribers, v.cached.value))
  }

  function Ticked(v: View, s: Settings): View {
    if v.subscribers == {} then v
    else
      var w := CachedDelivered(v);
      if w.fetching then w else w.(fetching := true, fetches := w.fetches + [ResolvedInterval(s)])
  }

  // The new listener gets the cached data at once.
  function Joined(v: View, l: Listener): View {
    v.(subscribers := v.subscribers + {l},
       delivered := if v.cached.Some? then Delivered(v.delivered, {l}, v.cached.value) else v.delivered)
  }

  function Subscribed(v: View, l: Listener, s: Settings): View {
    var w := Joined(v, l);
    if |w.subscribers| == 1 then Ticked(w, s) else w
  }

  function StoppedPolling(v: View): View {
    if v.timeoutId.None? then v else v.(timers := v.timers - {v.timeoutId.value}, timeoutId := None)
  }

  function Unsubscribed(v: View, l: Listener): View {
    var w := v.(subscribers := v.subscribers - {l});
    if w.subscribers == {} then StoppedPolling(w) else w
  }

  function Scheduled(v: View, delay: real): View {
    if v.subscribers == {} then v
    else v.(timers := v.timers[v.nextTimer := delay], timeoutId := Some(v.nextTimer), nextTimer := v.nextTimer + 1)
  }

  function Without(fetches: seq<real>, k: nat): seq<real>
    requires k < |fetches|
  {
    fetches[..k] + fetches[k + 1..]
  }

  // The answer of the k-th fetch is cached and delivered to everybody.
  function Kept(v: View, k: nat, data: Snapshot): View
    requires k < |v.fetches|
  {
    v.(fetches := Without(v.fetches, k), cached := Some(data), fetching := false,
       delivered := Delivered(v.delivered, v.subscribers, data))
  }

  function Resolved(v: View, k: nat, data: Snapshot): View {
    if k >= |v.fetches| then v else Scheduled(Kept(v, k, data), v.fetches[k])
  }

  function Rejected(v: View, k: nat): View {
    if k >= |v.fetches| then v
    else
      Scheduled(CachedDelivered(v.(fetches := Without(v.fetches, k), fetching := false)), Min(v.fetches[k], 2000.0))
  }

  function Fired(v: View, id: nat, s: Settings): View {
    if id !in v.timers then v else Ticked(v.(timers := v.timers - {id}), s)
  }

  // ---- The class ------------------------------------------------------------------

  class Poller {
    var subscribers: set<Listener>
    var cached: Option<Snapshot>
    var timeoutId: Option<nat>
    var fetching: bool
    // the browser
    var fetches: seq<real>
    var timers: map<nat, real>
    var nextTimer: nat
    var delivered: map<Listener, Snapshot>

    function Now(): View
      reads this
    {
      View(subscribers, cached, timeoutId, fetching, fetches, timers, nextTimer, delivered)
    }

    constructor ()
      ensures Now() == INITIAL
    {
      subscribers, cached, timeoutId, fetching := {}, None, None, false;
      fetches, timers, nextTimer, delivered := [], map[], 0, map[];
    }

    method DeliverTo(listeners: set<Listener>, data: Snapshot)
      modifies this`delivered
      ensures delivered == Delivered(old(delivered), listeners, data)
    {
      var rest := listeners;
      ghost var before, served: set<Listener> := delivered, {};
      DeliverToNobody(before, data);
      while rest != {}
        invariant served + rest == listeners
        invariant delivered == Delivered(before, served, data)
        decreases |rest|
      {
        var l :| l in rest;
        DeliverOneMore(before, served, l, data);
        served, rest := served + {l}, rest - {l};
        delivered := delivered[l := data];
      }
      assert served == listeners;
    }

    method DeliverCached()
      modifies this`delivered
      ensures Now() == CachedDelivered(old(Now()))
    {
      if cached.Some? { DeliverTo(subscribers, cached.value); }
    }

    method Subscribe(l: Listener, s: Settings)
      modifies this
      ensures Now() == Subscribed(old(Now()), l, s)
    {
      subscribers := subscribers + {l};
      if cached.Some? { DeliverTo({l}, cached.value); }
      if |subscribers| == 1 { Tick(s); }
    }

    method Unsubscribe(l: Listener)
      modifies this
      ensures Now() == Unsubscribed(old(Now()), l)
    {
      subscribers := subscribers - {l};
      if |subscribers| == 0 { Stop(); }
    }

    method Stop()
      modifies this
      ensures Now() == StoppedPolling(old(Now()))
    {
      if timeoutId.Some? {
        timers := timers - {timeoutId.value};
        timeoutId := None;
      }
    }

    method Tick(s: Settings)
      modifies this
      ensures Now() == Ticked(old(Now()), s)
    {
      if |subscribers| == 0 { return; }
      DeliverCached();
      if fetching { return; }
      fetching := true;
      var interval := if s.hidden then Max(PollInterval(s), 30000.0) else PollInterval(s);
      fetches := fetches + [interval];
    }

    method SetTimeout(delay: real)
      modifies this
      ensures Now() == old(Now()).(timers := old(timers)[old(nextTimer) := delay],
        timeoutId := Some(old(nextTimer)), nextTimer := old(nextTimer) + 1)
    {
      timers := timers[nextTimer := delay];
      timeoutId := Some(nextTimer);
      nextTimer := nextTimer + 1;
    }

    // What follows every fetch.
    method ScheduleNext(delay: real)
      modifies this
      ensures Now() == Scheduled(old(Now()), delay)
    {
      if |subscribers| > 0 { SetTimeout(delay); }
    }

    // The k-th fetch in flight answers.
    method OnResolved(k: nat, data: Snapshot)
      requires k < |fetches|
      modifies this
      ensures Now() == Resolved(old(Now()), k, data)
    {
      var interval := fetches[k];
      fetches := fetches[..k] + fetches[k + 1..];
      cached := Some(data);
      fetching := false;
      DeliverTo(subscribers, data);
      assert Now() == Kept(old(Now()), k, data);
      ScheduleNext(interval);
    }

    // The k-th fetch in flight fails; listeners fall back to the cached data.
    method OnRejected(k: nat)
      requires k < |fetches|
      modifies this
      ensures Now() == Rejected(old(Now()), k)
    {
      var interval := fetches[k];
      fetches := fetches[..k] + fetches[k + 1..];
      fetching := false;
      DeliverCached();
      ScheduleNext(Min(interval, 2000.0));
    }

    method OnTimer(id: nat, s: Settings)
      requires id in timers
      modifies this
      ensures Now() == Fired(old(Now()), id, s)
    {
      timers := timers - {id};
      Tick(s);
    }
  }

  // ---- Exactly one poll chain -------------------------------------------------------

  datatype Event =
    | Subscribe(l: Listener, s: Settings)
    | Unsubscribe(l: Listener)
    | Answer(k: nat, data: Snapshot)
    | Failure(k: nat)
    | Timer(id: nat, s: Settings)

  function React(v: View, e: Event): View {
    match e
    case Subscribe(l, s) => Subscribed(v, l, s)
    case Unsubscribe(l) => Unsubscribed(v, l)
    case Answer(k, data) => Resolved(v, k, data)
    case Failure(k) => Rejected(v, k)
    case Timer(id, s) => Fired(v, id, s)
  }

  function History(events: seq<Event>): View {
    if events == [] then INITIAL else React(History(events[..|events| - 1]), events[|events| - 1])
  }

  // The only subscriber subscribing again while its timer is pending.
  predicate Doubles(v: View, e: Event) {
    e.Subscribe? && v.subscribers == {e.l} && v.timers != map[]
  }

  ghost predicate NeverDoubles(events: seq<Event>) {
    events != [] ==>
      var before := events[..|events| - 1];
      NeverDoubles(before) && !Doubles(History(before), events[|events| - 1])
  }

  // As the hook does it: every subscription uses a listener that is not subscribed at that moment.
  ghost predicate FreshListeners(events: seq<Event>) {
    events != [] ==>
      var before := events[..|events| - 1];
      var last := events[|events| - 1];
      FreshListeners(before) && (last.Subscribe? ==> last.l !in History(before).subscribers)
  }

  // Pending pieces of work: each one would go on polling.
  function Chains(v: View): nat { |v.fetches| + |v.timers| }

  ghost predicate OneChain(v: View) {
    && Chains(v) <= 1
    && (v.subscribers != {} ==> Chains(v) == 1)
    && (v.subscribers == {} ==> v.timers == map[])
  }

  ghost predicate UpToDate(v: View) {
    v.cached.Some? ==> forall l :: l in v.subscribers ==> l in v.delivered && v.delivered[l] == v.cached.value
  }

  ghost predicate Good(v: View) {
    && OneChain(v)
    && UpToDate(v)
    && |v.fetches| == (if v.fetching then 1 else 0)
    && (v.timers != map[] ==> v.timeoutId.Some? && v.timers.Keys == {v.timeoutId.value})
    && (forall i :: 0 <= i < |v.fetches| ==> 2000.0 <= v.fetches[i] <= 60000.0)
    && (forall id :: id in v.timers ==> 2000.0 <= v.timers[id] <= 60000.0)
  }

  lemma OneTimer(v: View)
    requires Good(v)
    ensures v.timers != map[] ==> |v.timers| == 1 && v.fetches == []
    ensures v.timers == map[] ==> |v.timers| == 0
  {
    assert v.timers != map[] ==> |v.timers.Keys| == 1;
  }

  lemma ScheduleKeepsGood(v: View, delay: real)
    requires !v.fetching && v.fetches == [] && v.timers == map[] && UpToDate(v) && 2000.0 <= delay <= 60000.0
    ensures Good(Scheduled(v, delay))
  {
    if v.subscribers != {} { assert Scheduled(v, delay).timers == map[v.nextTimer := delay]; }
  }

  lemma TickKeepsGood(v: View, s: Settings)
    requires v.timers == map[] && UpToDate(v) && |v.fetches| == (if v.fetching then 1 else 0)
    requires forall i :: 0 <= i < |v.fetches| ==> 2000.0 <= v.fetches[i] <= 60000.0
    ensures Good(Ticked(v, s))
  {}

  // Subscribing keeps the chain exactly unless the only subscriber subscribes again
  // while its timer is pending: the extra tick then starts a second chain.
  lemma SubscribeKeepsGoodExactlyWhen(v: View, l: Listener, s: Settings)
    requires Good(v)
    ensures Good(Subscribed(v, l, s)) <==> !(v.subscribers == {l} && v.timers != map[])
  {
    OneTimer(v);
    var w := Joined(v, l);
    SizeOne(w.subscribers, l);
    if w.subscribers == {l} {
      if v.timers == map[] { TickKeepsGood(w, s); } else { SecondChain(w, s); }
    } else {
      assert v.subscribers != {} && v.subscribers != {l};
      assert Good(w);
    }
  }

  lemma SecondChain(w: View, s: Settings)
    requires w.subscribers != {} && |w.timers| == 1 && w.fetches == [] && !w.fetching
    ensures !Good(Ticked(w, s))
  {
    assert Chains(Ticked(w, s)) == 2;
  }

  lemma SizeOne(s: set<Listener>, l: Listener)
    requires l in s
    ensures |s| == 1 <==> s == {l}
  {
    assert |s - {l}| == |s| - 1;
    assert s - {l} == {} <==> s == {l};
  }

  lemma StopKeepsGood(v: View)
    requires v.subscribers == {} && |v.fetches| == (if v.fetching then 1 else 0)
    requires v.timers != map[] ==> v.timeoutId.Some? && v.timers.Keys == {v.timeoutId.value}
    requires forall i :: 0 <= i < |v.fetches| ==> 2000.0 <= v.fetches[i] <= 60000.0
    ensures Good(StoppedPolling(v))
  {
    var w := StoppedPolling(v);
    assert w.timers == map[];
    assert Chains(w) == |v.fetches|;
  }

  lemma UnsubscribeKeepsGood(v: View, l: Listener)
    requires Good(v)
    ensures Good(Unsubscribed(v, l))
  {
    var w := v.(subscribers := v.subscribers - {l});
    if w.subscribers == {} {
      StopKeepsGood(w);
    } else {
      assert OneChain(w) && UpToDate(w);
    }
  }

  lemma AnswerKeepsGood(v: View, k: nat, data: Snapshot)
    requires Good(v) && k < |v.fetches|
    ensures Good(Resolved(v, k, data)) && Good(Rejected(v, k))
  {
    OneTimer(v);
    ScheduleKeepsGood(Kept(v, k, data), v.fetches[k]);
    var w := v.(fetches := Without(v.fetches, k), fetching := false);
    ScheduleKeepsGood(CachedDelivered(w), Min(v.fetches[k], 2000.0));
  }

  lemma TimerKeepsGood(v: View, id: nat, s: Settings)
    requires Good(v) && id in v.timers
    ensures Good(Fired(v, id, s))
  {
    OneTimer(v);
    assert v.timers - {id} == map[];
    TickKeepsGood(v.(timers := v.timers - {id}), s);
  }

  lemma ReactKeepsGoodExactlyWhen(v: View, e: Event)
    requires Good(v)
    ensures Good(React(v, e)) <==> !Doubles(v, e)
  {
    match e
    case Subscribe(l, s) => SubscribeKeepsGoodExactlyWhen(v, l, s);
    case Unsubscribe(l) => UnsubscribeKeepsGood(v, l);
    case Answer(k, data) => if k < |v.fetches| { AnswerKeepsGood(v, k, data); }
    case Failure(k) => if k < |v.fetches| { AnswerKeepsGood(v, k, Snapshot("")); }
    case Timer(id, s) => if id in v.timers { TimerKeepsGood(v, id, s); }
  }

  ghost predicate GoodThroughout(events: seq<Event>) {
    Good(History(events)) && (events != [] ==> GoodThroughout(events[..|events| - 1]))
  }

  lemma {:induction false} GoodThroughoutExactlyWhen(events: seq<Event>)
    ensures GoodThroughout(events) <==> NeverDoubles(events)
  {
    if events != [] {
      var before := events[..|events| - 1];
      GoodThroughoutExactlyWhen(before);
      if GoodThroughout(before) { ReactKeepsGoodExactlyWhen(History(before), events[|events| - 1]); }
    }
  }

  ghost predicate OneChainThroughout(events: seq<Event>) {
    var v := History(events);
    OneChain(v) && UpToDate(v) && (events != [] ==> OneChainThroughout(events[..|events| - 1]))
  }

  lemma DoublingMakesTwoChains(v: View, l: Listener, s: Settings)
    requires Good(v) && Doubles(v, Subscribe(l, s))
    ensures !OneChain(Subscribed(v, l, s))
  {
    OneTimer(v);
    OneTimerThen(v, l, s);
  }

  // At every moment there is at most one fetch or timer pending, exactly one while anybody
  // subscribes, no timer otherwise, and everybody holds the cached data: this is so
  // exactly in the histories in which the only subscriber never subscribes again while its
  // timer is pending.
  lemma {:induction false} ExactlyOneChain(events: seq<Event>)
    ensures OneChainThroughout(events) <==> NeverDoubles(events)
  {
    GoodThroughoutExactlyWhen(events);
    if events != [] {
      var before, last := events[..|events| - 1], events[|events| - 1];
      ExactlyOneChain(before);
      GoodThroughoutExactlyWhen(before);
      if NeverDoubles(before) && Doubles(History(before), last) {
        DoublingMakesTwoChains(History(before), last.l, last.s);
      }
    }
  }

  lemma {:induction false} FreshListenersNeverDouble(events: seq<Event>)
    requires FreshListeners(events)
    ensures NeverDoubles(events)
  {
    if events != [] { FreshListenersNeverDouble(events[..|events| - 1]); }
  }

  // The other histories exist.
  lemma SubscribingAgainDoublesTheChain(l: Listener, s: Settings, data: Snapshot)
    ensures Chains(History([Subscribe(l, s), Answer(0, data), Subscribe(l, s)])) == 2
  {
    var one, two := [Subscribe(l, s)], [Subscribe(l, s), Answer(0, data)];
    var three := [Subscribe(l, s), Answer(0, data), Subscribe(l, s)];
    assert three[..2] == two && two[..1] == one && one[..0] == [];
    FirstSubscription(l, s);
    assert History(one) == Subscribed(INITIAL, l, s);
    assert History(two) == Resolved(History(one), 0, data);
    OneTimerThen(History(two), l, s);
    assert History(three) == Subscribed(History(two), l, s);
  }

  lemma FirstSubscription(l: Listener, s: Settings)
    ensures var v := Subscribed(INITIAL, l, s);
      v.subscribers == {l} && v.fetches == [ResolvedInterval(s)] && v.timers == map[] && v.fetching
  {
    assert Joined(INITIAL, l).subscribers == {l};
  }

  lemma OneTimerThen(v: View, l: Listener, s: Settings)
    requires v.subscribers == {l} && v.fetches == [] && !v.fetching && |v.timers| == 1
    ensures Chains(Subscribed(v, l, s)) == 2
  {
    assert Joined(v, l).subscribers == {l};
  }

  // The chain never stalls: with subscribers, whatever is pending leads to the other
  // kind of work, and an answer reaches every subscriber.
  lemma ChainGoesOn(v: View, s: Settings, data: Snapshot)
    requires Good(v) && v.subscribers != {}
    ensures v.fetches != [] ==>
      var a, r := Resolved(v, 0, data), Rejected(v, 0);
      && a.fetches == [] && a.timeoutId.Some? && a.timers == map[a.timeoutId.value := v.fetches[0]]
      && r.fetches == [] && r.timeoutId.Some? && r.timers == map[r.timeoutId.value := 2000.0]
      && a.cached == Some(data) && r.cached == v.cached
      && forall l :: l in v.subscribers ==> l in a.delivered && a.delivered[l] == data
    ensures v.fetches == [] ==>
      && v.timeoutId.Some? && v.timeoutId.value in v.timers
      && var t := Fired(v, v.timeoutId.value, s); t.timers == map[] && t.fetches == [ResolvedInterval(s)]
  {
    OneTimer(v);
  }
}
