// Histories of kernel sessions, daemon processes and state changes
// (cmd/daemon/state.go, lines 125-205; cmd/daemon/main.go, lines 294-300; cmd/daemon/scheduler.go,
// lines 100-119).
//
// A process is represented by its memory and a file by what loading it would give;
// the class State proves that its methods behave this way when writes succeed.
module Sessions {
  import opened Domain
  import opened StateStore

  datatype Machine = Machine(
    bootID: string,          // of the running kernel
    usedIDs: set<string>,    // every id the kernel has ever handed out or the file held at first
    disk: Memory,            // what loading the state file gives
    process: Option<Memory>, // the running daemon
    checked: bool,           // IsFirstStartAfterBoot has been called in this session
    answers: seq<bool>)      // its answers in this session

  datatype Step =
    | KernelBoot(id: string)
    | DaemonStart(known: set<string>)
    | DaemonExit
    | Check
    | MarkUnits(units: set<string>, stopped: bool)
    | RecordRun(unit: string, t: Time)

  function Save(m: Machine, memory: Memory): Machine {
    m.(process := Some(memory), disk := Durable(memory))
  }

  function Take(m: Machine, s: Step): Machine {
    match s
    case KernelBoot(id) =>
      m.(bootID := id, usedIDs := m.usedIDs + {id}, process := None, checked := false, answers := [])
    case DaemonStart(known) => m.(process := Some(Pruned(m.disk, known)))
    case DaemonExit => m.(process := None)
    case Check =>
      if m.process.None? then m
      else if m.bootID == "" then m.(checked := true, answers := m.answers + [true])
      else
        Save(m, Stamped(m.process.value, m.bootID))
          .(checked := true, answers := m.answers + [m.process.value.bootID != m.bootID])
    case MarkUnits(units, stopped) =>
      if m.process.None? then m else Save(m, Marked(m.process.value, units, stopped))
    case RecordRun(unit, t) =>
      if m.process.None? then m else Save(m, Recorded(m.process.value, unit, t))
  }

  function History(m: Machine, steps: seq<Step>): Machine {
    if steps == [] then m else Take(History(m, steps[..|steps| - 1]), steps[|steps| - 1])
  }

  // Before the first kernel boot of the history: whatever file is there, no daemon.
  function Start(disk: Memory): Machine { Machine("", {"", disk.bootID}, disk, None, false, []) }

  // Every boot id is readable and has not been handed out before.
  ghost predicate FreshBoots(m: Machine, steps: seq<Step>) {
    steps != [] ==>
      var before := steps[..|steps| - 1];
      && FreshBoots(m, before)
      && (steps[|steps| - 1].KernelBoot? ==> steps[|steps| - 1].id !in History(m, before).usedIDs)
  }

  ghost predicate Consistent(m: Machine) {
    && "" in m.usedIDs && m.bootID in m.usedIDs && m.disk.bootID in m.usedIDs
    && (m.process.Some? ==> m.process.value.bootID in m.usedIDs)
    && (m.checked <==> m.answers != [])
    && (m.bootID != "" ==>
        && (m.disk.bootID == m.bootID <==> m.checked)
        && (m.process.Some? ==> (m.process.value.bootID == m.bootID <==> m.checked))
        && (forall i :: 0 <= i < |m.answers| ==> (m.answers[i] <==> i == 0)))
  }

  lemma TakeKeepsConsistent(m: Machine, s: Step)
    requires Consistent(m) && (s.KernelBoot? ==> s.id !in m.usedIDs)
    ensures Consistent(Take(m, s))
  {}

  lemma {:induction false} HistoryIsConsistent(disk: Memory, steps: seq<Step>)
    requires FreshBoots(Start(disk), steps)
    ensures Consistent(History(Start(disk), steps))
  {
    if steps != [] {
      HistoryIsConsistent(disk, steps[..|steps| - 1]);
      TakeKeepsConsistent(History(Start(disk), steps[..|steps| - 1]), steps[|steps| - 1]);
    }
  }

  // Whatever daemons come and go and whatever they record, within one kernel session
  // exactly the first check answers true.
  lemma OneFirstStartPerSession(disk: Memory, steps: seq<Step>)
    requires FreshBoots(Start(disk), steps) && History(Start(disk), steps).bootID != ""
    ensures var answers := History(Start(disk), steps).answers;
      forall i :: 0 <= i < |answers| ==> (answers[i] <==> i == 0)
  {
    HistoryIsConsistent(disk, steps);
  }

  // Without a readable id every check answers true.
  lemma UnreadableBootIDAlwaysFirst(m: Machine)
    requires m.process.Some? && m.bootID == ""
    ensures Take(m, Check).answers == m.answers + [true]
    ensures Take(m, Check).disk == m.disk && Take(m, Check).process == m.process
  {}

  // A daemon runs from its start to its end or the next kernel boot, and begins with what the file holds.
  lemma DaemonRuns(m: Machine, s: Step)
    ensures var t := Take(m, s);
      && (t.process.Some? <==> s.DaemonStart? || (m.process.Some? && !s.DaemonExit? && !s.KernelBoot?))
      && (s.DaemonStart? ==>
            t.process.value.bootID == m.disk.bootID && t.process.value.backupLastRun == m.disk.backupLastRun)
      && (t.bootID == if s.KernelBoot? then s.id else m.bootID)
  {}

  // ---- User stops and last runs outlive processes ----------------------------------

  lemma {:induction false} HistoryConcat(m: Machine, a: seq<Step>, b: seq<Step>)
    ensures History(m, a + b) == History(History(m, a), b)
  {
    if b == [] {
      assert a + b == a;
    } else {
      assert (a + b)[..|a + b| - 1] == a + b[..|b| - 1];
      HistoryConcat(m, a, b[..|b| - 1]);
    }
  }

  // The step neither lifts the stop of the unit nor starts a daemon that no longer has
  // it in its configuration.
  predicate LeavesStopped(s: Step, unit: string) {
    match s
    case MarkUnits(units, stopped) => stopped || unit !in units
    case DaemonStart(known) => unit in known
    case _ => true
  }

  ghost predicate StoppedEverywhere(m: Machine, unit: string) {
    && unit in m.disk.userStopped
    && (m.process.Some? ==> unit in m.process.value.userStopped)
  }

  lemma {:induction false} StopOutlivesProcesses(m: Machine, steps: seq<Step>, unit: string)
    requires StoppedEverywhere(m, unit)
    requires forall s :: s in steps ==> LeavesStopped(s, unit)
    ensures StoppedEverywhere(History(m, steps), unit)
  {
    if steps != [] {
      var before := steps[..|steps| - 1];
      StopOutlivesProcesses(m, before, unit);
      assert LeavesStopped(steps[|steps| - 1], unit);
    }
  }

  // Once the user has stopped a unit, every later daemon finds it stopped, across
  // daemon restarts and kernel boots, until it is started again or leaves the configuration.
  lemma UserStopSurvivesRestarts(m: Machine, units: set<string>, steps: seq<Step>, unit: string)
    requires m.process.Some? && unit in units
    requires forall s :: s in steps ==> LeavesStopped(s, unit)
    ensures StoppedEverywhere(History(Take(m, MarkUnits(units, true)), steps), unit)
  {
    StopOutlivesProcesses(Take(m, MarkUnits(units, true)), steps, unit);
  }

  // The other way round: once the user has started the unit again, no daemon finds it stopped until the next stop.
  ghost predicate StoppedNowhere(m: Machine, unit: string) {
    && unit !in m.disk.userStopped
    && (m.process.Some? ==> unit !in m.process.value.userStopped)
  }

  predicate LeavesUnstopped(s: Step, unit: string) {
    s.MarkUnits? && s.stopped ==> unit !in s.units
  }

  lemma {:induction false} LiftedStopStaysLifted(m: Machine, units: set<string>, steps: seq<Step>, unit: string)
    requires m.process.Some? && unit in units
    requires forall s :: s in steps ==> LeavesUnstopped(s, unit)
    ensures StoppedNowhere(History(Take(m, MarkUnits(units, false)), steps), unit)
  {
    if steps != [] {
      var before := steps[..|steps| - 1];
      LiftedStopStaysLifted(m, units, before, unit);
      assert LeavesUnstopped(steps[|steps| - 1], unit);
    }
  }

  // A daemon that starts without the unit in its configuration forgets the stop, for good with the next save.
  lemma UnlistedUnitIsForgotten(m: Machine, known: set<string>, units: set<string>, stopped: bool, unit: string)
    requires unit !in known
    ensures var started := Take(m, DaemonStart(known));
      && unit !in started.process.value.userStopped
      && (forall u :: u in known ==> (u in started.process.value.userStopped <==> u in m.disk.userStopped))
      && (unit !in units ==> StoppedNowhere(Take(started, MarkUnits(units, stopped)), unit))
  {}

  // The recorded start of a backup comes back in whole seconds, however many
  // processes save and load the file in between.
  ghost predicate LastRunIs(m: Machine, unit: string, seconds: Time) {
    && unit in m.disk.backupLastRun && m.disk.backupLastRun[unit] == seconds
    && (m.process.Some? ==>
        unit in m.process.value.backupLastRun && WholeSeconds(m.process.value.backupLastRun[unit]) == seconds)
  }

  lemma {:induction false} LastRunSurvivesRestarts(m: Machine, unit: string, t: Time, steps: seq<Step>)
    requires m.process.Some?
    requires forall s :: s in steps && s.RecordRun? ==> s.unit != unit
    ensures LastRunIs(History(Take(m, RecordRun(unit, t)), steps), unit, WholeSeconds(t))
  {
    if steps != [] {
      var before := steps[..|steps| - 1];
      LastRunSurvivesRestarts(m, unit, t, before);
      assert steps[|steps| - 1] in steps;
      LastRunStep(History(Take(m, RecordRun(unit, t)), before), steps[|steps| - 1], unit, WholeSeconds(t));
    }
  }

  lemma LastRunStep(m: Machine, s: Step, unit: string, seconds: Time)
    requires LastRunIs(m, unit, seconds) && WholeSeconds(seconds) == seconds && (s.RecordRun? ==> s.unit != unit)
    ensures LastRunIs(Take(m, s), unit, seconds)
  {}

  // ---- Concurrent backup runs -----------------------------------------------------

  // recordRun updates the scheduler's map and then the state, under different locks.
  datatype Clocks = Clocks(
    lastRun: map<string, Time>,
    persisted: map<string, Time>,
    between: map<nat, (string, Time)>)  // runs between the two updates

  datatype Half = Begin(run: nat, unit: string, now: Time) | End(run: nat)

  function Record(c: Clocks, h: Half): Clocks {
    match h
    case Begin(run, unit, now) =>
      if run in c.between then c
      else c.(lastRun := c.lastRun[unit := now], between := c.between[run := (unit, now)])
    case End(run) =>
      if run !in c.between then c
      else c.(persisted := c.persisted[c.between[run].0 := c.between[run].1], between := c.between - {run})
  }

  function Records(c: Clocks, halves: seq<Half>): Clocks {
    if halves == [] then c else Record(Records(c, halves[..|halves| - 1]), halves[|halves| - 1])
  }

  // No run of a unit begins while another run of it is between its two updates.
  ghost predicate NoOverlap(c: Clocks, halves: seq<Half>) {
    halves != [] ==>
      var before := halves[..|halves| - 1];
      var last := halves[|halves| - 1];
      && NoOverlap(c, before)
      && (last.Begin? ==> forall r :: r in Records(c, before).between ==> Records(c, before).between[r].0 != last.unit)
  }

  ghost predicate Same(a: map<string, Time>, b: map<string, Time>, unit: string) {
    (unit in a <==> unit in b) && (unit in a ==> a[unit] == b[unit])
  }

  ghost predicate ClocksAgree(c: Clocks) {
    && (forall r, q :: r in c.between && q in c.between && r != q ==> c.between[r].0 != c.between[q].0)
    && (forall r :: r in c.between ==> c.between[r].0 in c.lastRun && c.lastRun[c.between[r].0] == c.between[r].1)
    && (forall u :: Same(c.lastRun, c.persisted, u) || exists r :: r in c.between && c.between[r].0 == u)
  }

  lemma RecordKeepsAgreement(c: Clocks, h: Half)
    requires ClocksAgree(c)
    requires h.Begin? ==> forall r :: r in c.between ==> c.between[r].0 != h.unit
    ensures ClocksAgree(Record(c, h))
  {
    var d := Record(c, h);
    forall u ensures Same(d.lastRun, d.persisted, u) || exists r :: r in d.between && d.between[r].0 == u {
      if !Same(c.lastRun, c.persisted, u) {
        var r :| r in c.between && c.between[r].0 == u;
        if r in d.between { assert d.between[r].0 == u; }
      } else if h.Begin? && h.unit == u && h.run !in c.between {
        assert d.between[h.run].0 == u;
      }
    }
  }

  // As long as runs of one unit do not overlap, the scheduler and the state agree on
  // every unit that is not between its two updates.
  lemma {:induction false} SchedulerAgreesWithState(lastRun: map<string, Time>, halves: seq<Half>)
    requires NoOverlap(Clocks(lastRun, lastRun, map[]), halves)
    ensures ClocksAgree(Records(Clocks(lastRun, lastRun, map[]), halves))
  {
    if halves != [] {
      SchedulerAgreesWithState(lastRun, halves[..|halves| - 1]);
      RecordKeepsAgreement(Records(Clocks(lastRun, lastRun, map[]), halves[..|halves| - 1]), halves[|halves| - 1]);
    }
  }

  // Time of the last run of the unit to begin, and time carried by the last run of it to end.
  function LastBegun(c: Clocks, halves: seq<Half>, unit: string): Option<Time> {
    if halves == [] then None
    else
      var before, h := halves[..|halves| - 1], halves[|halves| - 1];
      if h.Begin? && h.unit == unit && h.run !in Records(c, before).between then Some(h.now)
      else LastBegun(c, before, unit)
  }

  function LastEnded(c: Clocks, halves: seq<Half>, unit: string): Option<Time> {
    if halves == [] then None
    else
      var before, h := halves[..|halves| - 1], halves[|halves| - 1];
      var open := Records(c, before).between;
      if h.End? && h.run in open && open[h.run].0 == unit then Some(open[h.run].1)
      else LastEnded(c, before, unit)
  }

  ghost predicate Between(c: Clocks, unit: string) {
    exists r :: r in c.between && c.between[r].0 == unit
  }

  predicate Holds(times: map<string, Time>, unit: string, last: Option<Time>, first: map<string, Time>) {
    match last
    case Some(t) => unit in times && times[unit] == t
    case None => (unit in times <==> unit in first) && (unit in first ==> times[unit] == first[unit])
  }

  lemma BetweenAfter(c: Clocks, h: Half, unit: string)
    requires Between(c, unit) && !Between(Record(c, h), unit)
    ensures h.End? && h.run in c.between && c.between[h.run].0 == unit
  {
    var r :| r in c.between && c.between[r].0 == unit;
    assert r !in Record(c, h).between;
  }

  lemma BetweenBegins(c: Clocks, h: Half, unit: string)
    requires h.Begin? && h.unit == unit && h.run !in c.between
    ensures Between(Record(c, h), unit)
  {
    assert Record(c, h).between[h.run].0 == unit;
  }

  // The scheduler's map follows the beginnings and the state's map the ends.
  lemma {:induction false} MapsFollowHalves(first: map<string, Time>, halves: seq<Half>, unit: string)
    ensures var c := Clocks(first, first, map[]); var d := Records(c, halves);
      && Holds(d.lastRun, unit, LastBegun(c, halves, unit), first)
      && Holds(d.persisted, unit, LastEnded(c, halves, unit), first)
      && (LastBegun(c, halves, unit).Some? ==> LastEnded(c, halves, unit).Some? || Between(d, unit))
      && (LastEnded(c, halves, unit).Some? || Between(d, unit) ==> LastBegun(c, halves, unit).Some?)
  {
    if halves != [] {
      var before, h := halves[..|halves| - 1], halves[|halves| - 1];
      var c := Records(Clocks(first, first, map[]), before);
      MapsFollowHalves(first, before, unit);
      if Between(c, unit) && !Between(Record(c, h), unit) { BetweenAfter(c, h, unit); }
      if h.Begin? && h.unit == unit && h.run !in c.between { BetweenBegins(c, h, unit); }
    }
  }

  // Over every history, once no run of the unit is between its two updates, scheduler and state agree on it exactly
  // when the run that ended last carries the time of the run that began last.
  lemma SchedulerAgreesExactlyWhen(first: map<string, Time>, halves: seq<Half>, unit: string)
    requires !Between(Records(Clocks(first, first, map[]), halves), unit)
    ensures var c := Clocks(first, first, map[]); var d := Records(c, halves);
      Same(d.lastRun, d.persisted, unit) <==> LastEnded(c, halves, unit) == LastBegun(c, halves, unit)
  {
    MapsFollowHalves(first, halves, unit);
  }

  // Two overlapping runs that finish in the opposite order leave them apart for good.
  lemma OverlappingRunsDisagree(unit: string, t0: Time, t1: Time)
    requires t0 != t1
    ensures var c := Clocks(map[], map[], map[]);
      var d := Record(Record(Record(Record(c, Begin(0, unit, t0)), Begin(1, unit, t1)), End(1)), End(0));
      d.between == map[] && !Same(d.lastRun, d.persisted, unit)
  {}
}
