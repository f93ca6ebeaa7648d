// The persisted supervisor state and the scheduler's last-run map
// (cmd/daemon/state.go; cmd/daemon/scheduler.go, lines 42-53 and 100-119).
//
// JSON text is not modelled: a file either fails to decode or holds a record.
// Instants are nanoseconds; a formatted timestamp keeps whole seconds.
module StateStore {
  import opened Domain

  // section 5.6 of RFC 3339, as time.Format and time.Parse use it here
  datatype Timestamp = Timestamp(seconds: int) | Malformed

  function Format(t: Time): Timestamp { Timestamp(t / Seconds(1)) }

  function Parse(ts: Timestamp): Option<Time> {
    if ts.Malformed? then None else Some(Seconds(ts.seconds))
  }

  function WholeSeconds(t: Time): (f: Time)
    ensures f <= t < f + Seconds(1) && f % Seconds(1) == 0
  {
    Parse(Format(t)).value
  }

  datatype Record = Record(userStopped: seq<string>, bootID: string, backupLastRun: map<string, Timestamp>)

  datatype Content = Unreadable | Stored(rec: Record)

  class File {
    var content: Content

    constructor (content: Content)
      ensures this.content == content
    {
      this.content := content;
    }
  }

  // What the daemon keeps in memory.
  datatype Memory = Memory(userStopped: set<string>, bootID: string, backupLastRun: map<string, Time>)

  const FRESH := Memory({}, "", map[])

  // The times that parse, apart from the units in skip.
  function ParsedTimes(times: map<string, Timestamp>, skip: set<string>): map<string, Time> {
    map u | u in times && Parse(times[u]).Some? && u !in skip :: Parse(times[u]).value
  }

  // What loading a file yields.
  function Loaded(content: Content): Memory {
    match content
    case Unreadable => FRESH
    case Stored(r) =>
      Memory(Elements(r.userStopped), r.bootID, ParsedTimes(r.backupLastRun, {}))
  }

  lemma ParseOneMore(times: map<string, Timestamp>, skip: set<string>, u: string)
    requires u in times && u in skip
    ensures var t := Parse(times[u]);
      var before := ParsedTimes(times, skip);
      ParsedTimes(times, skip - {u}) == if t.Some? then before[u := t.value] else before
  {}

  // The part of the memory that a file can hold.
  function Durable(m: Memory): Memory {
    m.(backupLastRun := map u | u in m.backupLastRun :: WholeSeconds(m.backupLastRun[u]))
  }

  // Whether a write succeeds and, if not, what it leaves behind.
  datatype WriteOutcome = Written | Failed(left: Content)

  function Marked(m: Memory, units: set<string>, stopped: bool): Memory {
    m.(userStopped := if stopped then m.userStopped + units else m.userStopped - units)
  }

  function Recorded(m: Memory, unit: string, t: Time): Memory {
    m.(backupLastRun := m.backupLastRun[unit := t])
  }

  function Stamped(m: Memory, bootID: string): Memory { m.(bootID := bootID) }

  function Pruned(m: Memory, known: set<string>): Memory {
    m.(userStopped := m.userStopped * known)
  }

  lemma ListedIsKnown(services: seq<Service>, u: string)
    ensures u in Units(services) <==> exists svc <- services :: svc.unit == u
  {
    if svc :| svc in services && svc.unit == u {
      var i :| 0 <= i < |services| && services[i] == svc;
      assert Units(services)[i] == u;
    }
  }

  // In whatever order the map iterates.
  method Listed(units: set<string>) returns (listed: seq<string>)
    ensures Elements(listed) == units
  {
    listed := [];
    var rest := units;
    while rest != {}
      invariant rest <= units && Elements(listed) == units - rest
      decreases |rest|
    {
      var u :| u in rest;
      assert Elements(listed + [u]) == Elements(listed) + {u};
      listed, rest := listed + [u], rest - {u};
    }
  }

  class State {
    var userStopped: set<string>
    var bootID: string
    var backupLastRun: map<string, Time>
    const file: File

    function View(): Memory
      reads this
    {
      Memory(userStopped, bootID, backupLastRun)
    }

    // The file gives back everything the memory holds, times in whole seconds.
    ghost predicate Synced()
      reads this, file
    {
      Loaded(file.content) == Durable(View())
    }

    // newState: load, then drop units no longer configured.
    constructor (file: File, services: seq<Service>)
      ensures this.file == file
      ensures View() == Pruned(Loaded(file.content), Elements(Units(services)))
      ensures forall u :: u in userStopped <==>
        u in Loaded(file.content).userStopped && exists svc <- services :: svc.unit == u
    {
      this.file := file;
      userStopped, bootID, backupLastRun := {}, "", map[];
      new;
      Load();
      var known: set<string> := {};
      for i := 0 to |services|
        invariant known == Elements(Units(services)[..i])
        invariant View() == Loaded(file.content)
        invariant this.file == file
      {
        known := known + {services[i].unit};
        assert Units(services)[..i + 1] == Units(services)[..i] + [services[i].unit];
      }
      assert Units(services)[..|services|] == Units(services);
      userStopped := set u | u in userStopped && u in known;
      forall u ensures u in Elements(Units(services)) <==> exists svc <- services :: svc.unit == u {
        ListedIsKnown(services, u);
      }
    }

    method Load()
      requires View() == FRESH
      modifies this
      ensures View() == Loaded(file.content)
    {
      match file.content {
        case Unreadable =>
        case Stored(r) =>
          for i := 0 to |r.userStopped|
            invariant userStopped == Elements(r.userStopped[..i])
            invariant bootID == "" && backupLastRun == map[]
          {
            userStopped := userStopped + {r.userStopped[i]};
          }
          assert r.userStopped[..|r.userStopped|] == r.userStopped;
          bootID := r.bootID;
          var rest := r.backupLastRun.Keys;
          while rest != {}
            invariant userStopped == Elements(r.userStopped) && bootID == r.bootID
            invariant rest <= r.backupLastRun.Keys
            invariant backupLastRun == ParsedTimes(r.backupLastRun, rest)
            decreases |rest|
          {
            var u :| u in rest;
            var t := Parse(r.backupLastRun[u]);
            ParseOneMore(r.backupLastRun, rest, u);
            if t.Some? { backupLastRun := backupLastRun[u := t.value]; }
            rest := rest - {u};
          }
      }
    }

    method Persist(outcome: WriteOutcome)
      modifies file
      ensures outcome.Written? ==> Synced()
      ensures outcome.Failed? ==> file.content == outcome.left
    {
      var listed := Listed(userStopped);
      var times := map u | u in backupLastRun :: Format(backupLastRun[u]);
      file.content := if outcome.Written? then Stored(Record(listed, bootID, times)) else outcome.left;
    }

    method IsUserStopped(unit: string) returns (stopped: bool)
      ensures stopped == (unit in View().userStopped)
    {
      stopped := unit in userStopped;
    }

    method SetUserStopped(unit: string, stopped: bool, outcome: WriteOutcome)
      modifies this, file
      ensures View() == Marked(old(View()), {unit}, stopped)
      ensures forall u :: u in userStopped <==> if u == unit then stopped else u in old(userStopped)
      ensures outcome.Written? ==> Synced()
    {
      if stopped { userStopped := userStopped + {unit}; } else { userStopped := userStopped - {unit}; }
      Persist(outcome);
    }

    method SetAllUserStopped(units: seq<string>, stopped: bool, outcome: WriteOutcome)
      modifies this, file
      ensures View() == Marked(old(View()), Elements(units), stopped)
      ensures forall u :: u in userStopped <==> if u in units then stopped else u in old(userStopped)
      ensures outcome.Written? ==> Synced()
    {
      for i := 0 to |units|
        invariant View() == Marked(old(View()), Elements(units[..i]), stopped)
      {
        if stopped { userStopped := userStopped + {units[i]}; } else { userStopped := userStopped - {units[i]}; }
        assert Elements(units[..i + 1]) == Elements(units[..i]) + {units[i]};
      }
      assert units[..|units|] == units;
      Persist(outcome);
    }

    method SetBackupLastRun(unit: string, t: Time, outcome: WriteOutcome)
      modifies this, file
      ensures View() == Recorded(old(View()), unit, t)
      ensures outcome.Written? ==> Synced()
    {
      backupLastRun := backupLastRun[unit := t];
      Persist(outcome);
    }

    // current is the kernel's boot id, empty when it cannot be read.
    method IsFirstStartAfterBoot(current: string, outcome: WriteOutcome) returns (first: bool)
      modifies this, file
      ensures first <==> current == "" || old(bootID) != current
      ensures View() == if current == "" then old(View()) else Stamped(old(View()), current)
      ensures current == "" ==> file.content == old(file.content)
      ensures current != "" && outcome.Written? ==> Synced()
    {
      if current == "" { return true; }
      var prior := bootID;
      first := prior != current;
      bootID := current;
      Persist(outcome);
    }
  }

  // ---- The scheduler's copy of the last-run times --------------------------------

  class Scheduler {
    var lastRun: map<string, Time>
    const state: State

    ghost predicate Agrees()
      reads this, state
    {
      lastRun == state.backupLastRun
    }

    // Seeded from the persisted state.
    constructor (state: State)
      ensures this.state == state && Agrees()
    {
      this.state := state;
      lastRun := state.backupLastRun;
    }

    // A run recorded without another one in between.
    method RecordRun(unit: string, now: Time, outcome: WriteOutcome)
      requires Agrees()
      modifies this, state, state.file
      ensures Agrees() && lastRun == old(lastRun)[unit := now]
      ensures state.userStopped == old(state.userStopped) && state.bootID == old(state.bootID)
      ensures outcome.Written? ==> state.Synced()
    {
      lastRun := lastRun[unit := now];
      state.SetBackupLastRun(unit, now, outcome);
    }

    method LastRunStart(unit: string) returns (t: Option<Time>)
      ensures t == if unit in lastRun then Some(lastRun[unit]) else None
    {
      t := if unit in lastRun then Some(lastRun[unit]) else None;
    }
  }
}
