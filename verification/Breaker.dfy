// The per-unit circuit breaker (cmd/daemon/monitor.go, lines 22-102).
module Breaker {
  import opened Domain

  // Durations are in nanoseconds too. Go's zero time is instant 0; the clock never
  // reads below it.
  const ZERO_TIME: Time := 0

  const BACKOFF_SCHEDULE: seq<int> :=
    [Seconds(0), Seconds(30), Seconds(120), Seconds(600), Seconds(3600)]

  // Wait imposed by the given number of consecutive failures.
  function Backoff(failures: nat): (d: int)
    requires failures >= 1
    ensures 0 <= d <= Seconds(3600)
  {
    var idx := failures - 1;
    BACKOFF_SCHEDULE[if idx >= |BACKOFF_SCHEDULE| then |BACKOFF_SCHEDULE| - 1 else idx]
  }

  // The waits in nanoseconds: none, half a minute, two and ten minutes, and an hour from then on.
  lemma BackoffIs(n: nat)
    requires n >= 1
    ensures Backoff(n) ==
      if n == 1 then 0
      else if n == 2 then 30_000_000_000
      else if n == 3 then 120_000_000_000
      else if n == 4 then 600_000_000_000
      else 3_600_000_000_000
  {
    assert |BACKOFF_SCHEDULE| == 5;
  }

  lemma BackoffNeverShrinks(a: nat, b: nat)
    requires 1 <= a <= b
    ensures Backoff(a) <= Backoff(b)
  {
    assert BACKOFF_SCHEDULE[0] <= BACKOFF_SCHEDULE[1] <= BACKOFF_SCHEDULE[2]
        <= BACKOFF_SCHEDULE[3] <= BACKOFF_SCHEDULE[4];
  }

  datatype UnitBreaker = UnitBreaker(consecutive: nat, backoffUntil: Time)

  type Table = map<string, UnitBreaker>

  // A unit without an entry behaves like one with a zero entry.
  function Entry(t: Table, unit: string): UnitBreaker {
    if unit in t then t[unit] else UnitBreaker(0, ZERO_TIME)
  }

  // Reading a unit's state creates its entry.
  function Touched(t: Table, unit: string): Table { t[unit := Entry(t, unit)] }

  predicate Open(t: Table, unit: string, now: Time) {
    now < Entry(t, unit).backoffUntil
  }

  function Failed(t: Table, unit: string, now: Time): Table {
    var n := Entry(t, unit).consecutive + 1;
    t[unit := UnitBreaker(n, if Backoff(n) > 0 then now + Backoff(n) else Entry(t, unit).backoffUntil)]
  }

  function Cleared(t: Table, unit: string): Table { t - {unit} }

  // The mutex makes each method one atomic step; the clock reading is a parameter.
  class CircuitBreaker {
    var units: Table

    constructor ()
      ensures units == map[]
    {
      units := map[];
    }

    method Get(unit: string) returns (b: UnitBreaker)
      modifies this
      ensures units == Touched(old(units), unit)
      ensures b == Entry(old(units), unit)
      ensures unit in units && units[unit] == b && forall u :: u != unit ==> (u in units <==> u in old(units))
    {
      if unit !in units {
        units := units[unit := UnitBreaker(0, ZERO_TIME)];
      }
      b := units[unit];
    }

    method IsOpen(unit: string, now: Time) returns (open: bool)
      modifies this
      ensures units == Touched(old(units), unit)
      ensures open == Open(old(units), unit, now)
    {
      var b := Get(unit);
      open := now < b.backoffUntil;
    }

    method State(unit: string) returns (consecutive: nat, backoffUntil: Time)
      modifies this
      ensures units == Touched(old(units), unit)
      ensures UnitBreaker(consecutive, backoffUntil) == Entry(old(units), unit)
    {
      var b := Get(unit);
      consecutive, backoffUntil := b.consecutive, b.backoffUntil;
    }

    method RecordFailure(unit: string, now: Time) returns (d: int)
      modifies this
      ensures units == Failed(old(units), unit, now)
      ensures d == Backoff(Entry(units, unit).consecutive)
    {
      var b := Get(unit);
      b := b.(consecutive := b.consecutive + 1);
      var idx := b.consecutive - 1;
      if idx >= |BACKOFF_SCHEDULE| {
        idx := |BACKOFF_SCHEDULE| - 1;
      }
      d := BACKOFF_SCHEDULE[idx];
      if d > 0 {
        b := b.(backoffUntil := now + d);
      }
      units := units[unit := b];
    }

    method Reset(unit: string)
      modifies this
      ensures units == Cleared(old(units), unit)
    {
      units := map u | u in units && u != unit :: units[u];
    }
  }
}
