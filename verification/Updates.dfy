// The update checker's worker and its trigger channel of capacity one (internal/updates/updates.go, lines 133-163).
//
// Callers, ticker, context and worker interleave freely; each action below is one step of one of them.
module Updates {
  datatype Phase = NotStarted | Selecting | Checking | Stopped

  datatype Event = Triggered | Began

  // queued: requests in the channel; tick: a tick in the ticker's channel, which holds one; log: calls of
  // TriggerCheck and starts of a check, in the order they happened.
  datatype Worker = Worker(queued: nat, tick: bool, cancelled: bool, phase: Phase, log: seq<Event>)

  const CAPACITY := 1
  const INITIAL := Worker(0, false, false, NotStarted, [])

  datatype Action =
    | Trigger        // any caller
    | Tick           // the ticker
    | Cancel         // the context
    | Start          // the worker's first step
    | TakeDone       // the three cases of its select
    | TakeTick
    | TakeTrigger
    | FinishChecks

  predicate OfWorker(a: Action) { a != Trigger && a != Tick && a != Cancel }

  predicate Enabled(w: Worker, a: Action) {
    match a
    case Start => w.phase == NotStarted
    case TakeDone => w.phase == Selecting && w.cancelled
    case TakeTick => w.phase == Selecting && w.tick
    case TakeTrigger => w.phase == Selecting && w.queued > 0
    case FinishChecks => w.phase == Checking
    case _ => true
  }

  // Send without blocking: dropped when the channel is full.
  function Sent(w: Worker): Worker {
    w.(queued := if w.queued < CAPACITY then w.queued + 1 else w.queued, log := w.log + [Triggered])
  }

  // An action that is not enabled changes nothing.
  function Apply(w: Worker, a: Action): Worker {
    if !Enabled(w, a) then w
    else
      match a
      case Trigger => Sent(w)
      case Tick => w.(tick := true)
      case Cancel => w.(cancelled := true)
      case Start => Sent(w).(phase := Selecting)
      case TakeDone => w.(phase := Stopped)
      case TakeTick => Sent(w.(tick := false))
      case TakeTrigger => w.(queued := w.queued - 1, phase := Checking, log := w.log + [Began])
      case FinishChecks => w.(phase := Selecting)
  }

  function Run(w: Worker, actions: seq<Action>): Worker
    decreases |actions|
  {
    if actions == [] then w else Run(Apply(w, actions[0]), actions[1..])
  }

  // ---- The class ---------------------------------------------------------------------

  class Module {
    var queued: nat
    var tick: bool
    var cancelled: bool
    var phase: Phase
    ghost var log: seq<Event>

    ghost function View(): Worker
      reads this
    {
      Worker(queued, tick, cancelled, phase, log)
    }

    constructor ()
      ensures View() == INITIAL
    {
      queued, tick, cancelled, phase, log := 0, false, false, NotStarted, [];
    }

    method TriggerCheck()
      modifies this
      ensures View() == Apply(old(View()), Trigger)
    {
      if queued < CAPACITY { queued := queued + 1; }
      log := log + [Triggered];
    }

    method StartWorker()
      requires phase == NotStarted
      modifies this
      ensures View() == Apply(old(View()), Start)
    {
      TriggerCheck();
      phase := Selecting;
    }

    // One pass of the worker's loop up to the start of the checks; chosen is the case that select picked.
    method Select(chosen: Action)
      requires chosen in {TakeDone, TakeTick, TakeTrigger} && Enabled(View(), chosen)
      modifies this
      ensures View() == Apply(old(View()), chosen)
    {
      match chosen {
        case TakeDone => phase := Stopped;
        case TakeTick =>
          tick := false;
          TriggerCheck();
        case TakeTrigger =>
          queued := queued - 1;
          phase := Checking;
          log := log + [Began];
      }
    }

    method Return()
      requires phase == Checking
      modifies this
      ensures View() == Apply(old(View()), FinishChecks)
    {
      phase := Selecting;
    }
  }

  // ---- No request is lost ----------------------------------------------------------------

  // The i-th event is a request and no check has begun since.
  ghost predicate Unanswered(log: seq<Event>, i: nat) {
    i < |log| && log[i] == Triggered && forall j :: i < j < |log| ==> log[j] == Triggered
  }

  ghost predicate Inv(w: Worker) {
    && w.queued <= CAPACITY
    && (w.queued == 1 <==> (w.log != [] && w.log[|w.log| - 1] == Triggered))
    && (forall j :: 0 <= j < |w.log| && w.log[j] == Began ==> j > 0 && w.log[j - 1] == Triggered)
    && (w.phase == NotStarted ==> Began !in w.log)
  }

  lemma ApplyKeepsInv(w: Worker, a: Action)
    requires Inv(w)
    ensures Inv(Apply(w, a))
    ensures w.log <= Apply(w, a).log
  {}

  lemma {:induction false} RunKeepsInv(w: Worker, actions: seq<Action>)
    requires Inv(w)
    ensures Inv(Run(w, actions)) && w.log <= Run(w, actions).log
    decreases |actions|
  {
    if actions != [] {
      ApplyKeepsInv(w, actions[0]);
      RunKeepsInv(Apply(w, actions[0]), actions[1..]);
    }
  }

  // Over every interleaving: at most one request is queued; a request that no check has followed fills the channel;
  // a full channel holds such a request; and a check begins only on a request made since the check before it.
  lemma NoRequestIsLost(actions: seq<Action>, i: nat)
    ensures var w := Run(INITIAL, actions);
      && w.queued <= 1
      && (Unanswered(w.log, i) ==> w.queued == 1)
      && (w.queued == 1 ==> |w.log| > 0 && Unanswered(w.log, |w.log| - 1))
      && (i < |w.log| && w.log[i] == Began ==> i > 0 && w.log[i - 1] == Triggered)
  {
    RunKeepsInv(INITIAL, actions);
  }

  // ---- Every request is served -----------------------------------------------------------

  function Ticks(actions: seq<Action>): nat {
    if actions == [] then 0 else (if actions[0] == Tick then 1 else 0) + Ticks(actions[1..])
  }

  // Steps that the worker really takes.
  function Moves(w: Worker, actions: seq<Action>): nat
    decreases |actions|
  {
    if actions == [] then 0
    else
      (if OfWorker(actions[0]) && Enabled(w, actions[0]) then 1 else 0) + Moves(Apply(w, actions[0]), actions[1..])
  }

  // What the worker may still do before it can only take the request.
  function Ahead(w: Worker): nat {
    (if w.phase == NotStarted || w.phase == Checking then 1 else 0) + (if w.tick then 1 else 0)
  }

  // A request is queued, or one will be: by a tick that is waiting or by the worker's first step.
  predicate Owes(w: Worker) { w.queued > 0 || w.tick || w.phase == NotStarted }

  // While the worker owes a check and the context lives, it cannot go on without starting one: it has at most the
  // moves ahead of it and one for each further tick.
  lemma {:induction false} OwedCheckBegins(w: Worker, actions: seq<Action>)
    requires Owes(w) && !w.cancelled && w.phase != Stopped && Cancel !in actions
    requires Moves(w, actions) > Ahead(w) + Ticks(actions)
    ensures |Run(w, actions).log| > |w.log| && Began in Run(w, actions).log[|w.log|..]
    decreases |actions|
  {
    var a, rest := actions[0], actions[1..];
    var next := Apply(w, a);
    if a == TakeTrigger && Enabled(w, a) {
      LogGrows(next, rest);
      assert next.log[|w.log|] == Began;
      assert Run(w, actions).log[|w.log|..][0] == Began;
    } else {
      OwedCheckBegins(next, rest);
      LogGrows(w, [a]);
      LogGrows(next, rest);
      var log := Run(w, actions).log;
      assert log[|next.log|..] == log[|w.log|..][|next.log| - |w.log|..];
    }
  }

  lemma {:induction false} LogGrows(w: Worker, actions: seq<Action>)
    ensures w.log <= Run(w, actions).log
    decreases |actions|
  {
    if actions != [] { LogGrows(Apply(w, actions[0]), actions[1..]); }
  }

  // After any TriggerCheck and any tick, at any point of any run, a check begins within 3 steps of the worker, not
  // counting one for each tick that comes in the meantime, unless the context is cancelled.
  lemma EveryRequestIsServed(before: seq<Action>, request: Action, after: seq<Action>)
    requires request == Trigger || request == Tick
    requires Cancel !in before && Cancel !in after
    requires var w := Run(INITIAL, before + [request]); Moves(w, after) > 2 + Ticks(after)
    ensures var w := Run(INITIAL, before + [request]);
      |Run(w, after).log| > |w.log| && Began in Run(w, after).log[|w.log|..]
  {
    var w := Run(INITIAL, before + [request]);
    RunKeepsInv(INITIAL, before);
    StaysAlive(INITIAL, before + [request]);
    RunSnoc(INITIAL, before, request);
    OwedCheckBegins(w, after);
  }

  // The first check needs no request.
  lemma FirstCheckComes(actions: seq<Action>)
    requires Cancel !in actions && Moves(INITIAL, actions) > 1 + Ticks(actions)
    ensures Began in Run(INITIAL, actions).log
  {
    OwedCheckBegins(INITIAL, actions);
    assert Run(INITIAL, actions).log[0..] == Run(INITIAL, actions).log;
  }

  // A worker that owes a check has a step to take, whatever the others do.
  lemma WorkerIsNeverStuck(w: Worker)
    requires Owes(w) && w.phase != Stopped
    ensures exists a :: OfWorker(a) && Enabled(w, a) && Apply(w, a) != w
  {
    var a := match w.phase
      case NotStarted => Start
      case Checking => FinishChecks
      case _ => if w.queued > 0 then TakeTrigger else TakeTick;
    assert OfWorker(a) && Enabled(w, a);
  }

  // From its beginning to its end a check runs alone.
  lemma {:induction false} OneCheckAtATime(w: Worker, actions: seq<Action>)
    requires Enabled(w, TakeTrigger) && FinishChecks !in actions
    ensures var t := Apply(w, TakeTrigger); var u := Run(t, actions);
      t.log == w.log + [Began] && t.log <= u.log && Began !in u.log[|t.log|..]
  {
    CheckGoesOn(Apply(w, TakeTrigger), actions);
  }

  lemma {:induction false} CheckGoesOn(w: Worker, actions: seq<Action>)
    requires w.phase == Checking && FinishChecks !in actions
    ensures var u := Run(w, actions); w.log <= u.log && Began !in u.log[|w.log|..]
    decreases |actions|
  {
    if actions != [] {
      var next := Apply(w, actions[0]);
      CheckGoesOn(next, actions[1..]);
      var u := Run(next, actions[1..]);
      assert u.log[|w.log|..] == next.log[|w.log|..] + u.log[|next.log|..];
    }
  }

  // ---- The end of the worker --------------------------------------------------------------

  // A stopped worker stays stopped and begins no check.
  lemma {:induction false} StoppedForGood(w: Worker, actions: seq<Action>)
    requires w.phase == Stopped
    ensures var t := Run(w, actions); t.phase == Stopped && w.log <= t.log && Began !in t.log[|w.log|..]
    decreases |actions|
  {
    if actions != [] {
      var next := Apply(w, actions[0]);
      StoppedForGood(next, actions[1..]);
      var t := Run(next, actions[1..]);
      assert t.log[|w.log|..] == next.log[|w.log|..] + t.log[|next.log|..];
    }
  }

  // The worker stops only once the context is cancelled, and then it can, after a check that is under way.
  lemma {:induction false} StopsOnlyWhenCancelled(w: Worker, actions: seq<Action>)
    requires w.phase != Stopped && !w.cancelled
    ensures Run(w, actions).phase == Stopped ==> Cancel in actions && TakeDone in actions
    ensures Run(w, actions).cancelled <==> Cancel in actions
    decreases |actions|
  {
    if actions != [] {
      if actions[0] != Cancel {
        StopsOnlyWhenCancelled(Apply(w, actions[0]), actions[1..]);
      } else {
        CancelledStays(Apply(w, Cancel), actions[1..]);
      }
    }
  }

  lemma {:induction false} CancelledStays(w: Worker, actions: seq<Action>)
    requires w.phase != Stopped && w.cancelled
    ensures Run(w, actions).cancelled && (Run(w, actions).phase == Stopped ==> TakeDone in actions)
    decreases |actions|
  {
    if actions != [] {
      if actions[0] == TakeDone {
        CancelLasts(w, actions);
      } else {
        CancelledStays(Apply(w, actions[0]), actions[1..]);
      }
    }
  }

  lemma {:induction false} CancelLasts(w: Worker, actions: seq<Action>)
    requires w.cancelled
    ensures Run(w, actions).cancelled
    decreases |actions|
  {
    if actions != [] { CancelLasts(Apply(w, actions[0]), actions[1..]); }
  }

  lemma CancelledCanStop(w: Worker)
    requires w.cancelled && w.phase != Stopped
    ensures exists actions: seq<Action> ::
      |actions| <= 2 && (forall a <- actions :: OfWorker(a)) && Run(w, actions).phase == Stopped
  {
    if w.phase == Selecting {
      assert Run(w, [TakeDone]) == Apply(w, TakeDone);
    } else {
      var first := if w.phase == NotStarted then Start else FinishChecks;
      assert [first, TakeDone][1..] == [TakeDone];
      assert Run(w, [first, TakeDone]) == Run(Apply(w, first), [TakeDone]) == Apply(Apply(w, first), TakeDone);
    }
  }

  // ---- Runs --------------------------------------------------------------------------------

  lemma {:induction false} RunSnoc(w: Worker, actions: seq<Action>, a: Action)
    ensures Run(w, actions + [a]) == Apply(Run(w, actions), a)
    decreases |actions|
  {
    if actions == [] {
      assert actions + [a] == [a];
    } else {
      assert (actions + [a])[1..] == actions[1..] + [a];
      RunSnoc(Apply(w, actions[0]), actions[1..], a);
    }
  }

  lemma {:induction false} StaysAlive(w: Worker, actions: seq<Action>)
    requires !w.cancelled && w.phase != Stopped && Cancel !in actions
    ensures !Run(w, actions).cancelled && Run(w, actions).phase != Stopped
    decreases |actions|
  {
    if actions != [] { StaysAlive(Apply(w, actions[0]), actions[1..]); }
  }
}
