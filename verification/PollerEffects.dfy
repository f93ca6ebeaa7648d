// What each event does to the poller and to its listeners (frontend/src/hooks/use-overview.ts, lines 74-191).
module PollerEffects {
  import opened Domain
  import opened SharedPoller

  // The event reaches a fetch in flight, or a pending timer.
  predicate Ends(v: View, e: Event) { (e.Answer? || e.Failure?) && e.k < |v.fetches| }

  predicate Fires(v: View, e: Event) { e.Timer? && e.id in v.timers }

  // A tick that fetches: of the first subscriber, or of a timer while somebody subscribes; never beside another fetch.
  predicate Fetches(v: View, e: Event) {
    && !v.fetching
    && ((e.Subscribe? && v.subscribers <= {e.l}) || (Fires(v, e) && v.subscribers != {}))
  }

  lemma SubscribersAfter(v: View, e: Event, l: Listener)
    ensures l in React(v, e).subscribers <==>
      (e.Subscribe? && e.l == l) || (l in v.subscribers && !(e.Unsubscribe? && e.l == l))
  {}

  lemma SoleSubscriber(v: View, l: Listener)
    ensures |v.subscribers + {l}| == 1 <==> v.subscribers <= {l}
  {
    SizeOne(v.subscribers + {l}, l);
    assert v.subscribers + {l} == {l} <==> v.subscribers <= {l};
  }

  // Fetches begin, with the interval of that moment, and end one by one.
  lemma FetchesAfter(v: View, e: Event)
    ensures var t := React(v, e);
      && t.fetches == (if Fetches(v, e) then v.fetches + [ResolvedInterval(e.s)]
                       else if Ends(v, e) then v.fetches[..e.k] + v.fetches[e.k + 1..]
                       else v.fetches)
      && t.fetching == (Fetches(v, e) || (v.fetching && !Ends(v, e)))
      && t.cached == if e.Answer? && Ends(v, e) then Some(e.data) else v.cached
  {
    if e.Subscribe? { SoleSubscriber(v, e.l); }
  }

  // A fetch that ends while somebody subscribes sets the next timer: after the interval it began with, or after at
  // most two seconds if it failed. The last unsubscription clears the pending one.
  lemma TimersAfter(v: View, e: Event)
    ensures var t := React(v, e); var sets := Ends(v, e) && v.subscribers != {};
      && t.timers == (
           if sets then
             v.timers[v.nextTimer := if e.Failure? && v.fetches[e.k] > 2000.0 then 2000.0 else v.fetches[e.k]]
           else if Fires(v, e) then v.timers - {e.id}
           else if e.Unsubscribe? && v.subscribers <= {e.l} && v.timeoutId.Some? then v.timers - {v.timeoutId.value}
           else v.timers)
      && t.nextTimer == (if sets then v.nextTimer + 1 else v.nextTimer)
      && t.timeoutId == (
           if sets then Some(v.nextTimer)
           else if e.Unsubscribe? && v.subscribers <= {e.l} then None
           else v.timeoutId)
  {
    if e.Subscribe? { SoleSubscriber(v, e.l); }
    if e.Unsubscribe? { assert v.subscribers - {e.l} == {} <==> v.subscribers <= {e.l}; }
  }

  // What the event hands to this listener: fresh data to every subscriber, and the cached data to a new one and, on
  // a tick or a failure, to all.
  function Receives(v: View, e: Event, l: Listener): Option<Snapshot> {
    if e.Answer? then if Ends(v, e) && l in v.subscribers then Some(e.data) else None
    else if (e.Subscribe? && e.l == l) || ((Fires(v, e) || Ends(v, e)) && l in v.subscribers) then v.cached
    else None
  }

  // The listener got this, or nothing.
  predicate Got(before: map<Listener, Snapshot>, after: map<Listener, Snapshot>, l: Listener, data: Option<Snapshot>) {
    if data.Some? then l in after && after[l] == data.value
    else (l in after <==> l in before) && (l in after ==> after[l] == before[l])
  }

  lemma SubscriptionDelivers(v: View, e: Event, l: Listener)
    requires e.Subscribe?
    ensures Got(v.delivered, React(v, e).delivered, l, if e.l == l then v.cached else None)
  {
    var w := Joined(v, e.l);
    SoleSubscriber(v, e.l);
    assert Got(v.delivered, w.delivered, l, if e.l == l then v.cached else None);
    if |w.subscribers| == 1 {
      assert forall k <- w.subscribers :: k == e.l;
      TickDelivers(w, e.s, l);
    }
  }

  lemma TickDelivers(v: View, s: Settings, l: Listener)
    ensures Got(v.delivered, Ticked(v, s).delivered, l, if l in v.subscribers then v.cached else None)
  {}

  lemma DeliveredAfter(v: View, e: Event, l: Listener)
    ensures Got(v.delivered, React(v, e).delivered, l, Receives(v, e, l))
  {
    if e.Subscribe? { SubscriptionDelivers(v, e, l); }
    else if Fires(v, e) { TickDelivers(v.(timers := v.timers - {e.id}), e.s, l); }
    else if e.Answer? || e.Failure? { EndDelivers(v, e, l); }
  }

  lemma EndDelivers(v: View, e: Event, l: Listener)
    requires e.Answer? || e.Failure?
    ensures Got(v.delivered, React(v, e).delivered, l, Receives(v, e, l))
  {}
}
