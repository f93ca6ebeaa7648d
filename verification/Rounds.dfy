// Merging a list of named entries with a list of defaults, one default per round.
// The loops over services and over backups in cmd/daemon/merge.go, lines 52-118, are both of this form.
module Rounds {
  import opened Domain

  function Names<T>(name: T -> string, xs: seq<T>): (names: seq<string>)
    ensures |names| == |xs|
    ensures forall i :: 0 <= i < |xs| ==> names[i] == name(xs[i])
  {
    seq(|xs|, i requires 0 <= i < |xs| => name(xs[i]))
  }

  // Position of the last entry with this name, as the lookup map holds it.
  function LastIndex(names: seq<string>, unit: string): (r: Option<nat>)
    ensures r.None? <==> unit !in names
    ensures r.Some? ==> r.value < |names| && names[r.value] == unit
    ensures r.Some? ==> forall i :: r.value < i < |names| ==> names[i] != unit
  {
    if names == [] then None
    else if names[|names| - 1] == unit then Some(|names| - 1)
    else
      assert names == names[..|names| - 1] + [names[|names| - 1]];
      LastIndex(names[..|names| - 1], unit)
  }

  // One round. Lookups go to the names as they were before the loop.
  function Round<T>(name: T -> string, sync: (T, T) -> T, names: seq<string>, xs: seq<T>, d: T): (r: seq<T>)
    requires |names| <= |xs|
    ensures |r| >= |xs|
  {
    match LastIndex(names, name(d))
    case Some(i) => xs[i := sync(xs[i], d)]
    case None => xs + [d]
  }

  function Merged<T>(name: T -> string, sync: (T, T) -> T, xs: seq<T>, ds: seq<T>): (r: seq<T>)
    ensures |r| >= |xs|
  {
    if ds == [] then xs
    else Round(name, sync, Names(name, xs), Merged(name, sync, xs, ds[..|ds| - 1]), ds[|ds| - 1])
  }

  // Whether one of the first n rounds changes the list: what the flag records.
  predicate SomeRoundChanges<T(==)>(name: T -> string, sync: (T, T) -> T, xs: seq<T>, ds: seq<T>, n: nat)
    requires n <= |ds|
  {
    exists k {:trigger ds[..k]} :: 0 <= k < n && Merged(name, sync, xs, ds[..k + 1]) != Merged(name, sync, xs, ds[..k])
  }

  lemma OneMoreRound<T>(name: T -> string, sync: (T, T) -> T, xs: seq<T>, ds: seq<T>, n: nat)
    requires n < |ds|
    ensures SomeRoundChanges(name, sync, xs, ds, n + 1) <==>
      SomeRoundChanges(name, sync, xs, ds, n) || Merged(name, sync, xs, ds[..n + 1]) != Merged(name, sync, xs, ds[..n])
  {
    assert ds[..n] == ds[..n];
  }

  lemma MergedStep<T>(name: T -> string, sync: (T, T) -> T, xs: seq<T>, ds: seq<T>, n: nat)
    requires n < |ds|
    ensures Merged(name, sync, xs, ds[..n + 1]) ==
      Round(name, sync, Names(name, xs), Merged(name, sync, xs, ds[..n]), ds[n])
  {
    assert ds[..n + 1][..n] == ds[..n];
  }

  // index holds, for every name, its last position.
  ghost predicate Indexes(index: map<string, nat>, names: seq<string>) {
    && (forall u :: u in index <==> u in names)
    && forall u :: u in index ==> LastIndex(names, u) == Some(index[u])
  }

  // Syncing overwrites the same fields every time and never the name.
  ghost predicate Overwrites<T(!new)>(name: T -> string, sync: (T, T) -> T) {
    && (forall a, b :: name(sync(a, b)) == name(a))
    && (forall a, b, c :: sync(sync(a, b), c) == sync(a, c))
    && (forall a :: sync(a, a) == a)
  }

  // The last default with this name.
  function DefaultFor<T>(name: T -> string, ds: seq<T>, unit: string): (r: Option<T>)
    ensures r.Some? ==> r.value in ds && name(r.value) == unit
    ensures r.None? ==> forall i :: 0 <= i < |ds| ==> name(ds[i]) != unit
  {
    if ds == [] then None
    else if name(ds[|ds| - 1]) == unit then Some(ds[|ds| - 1])
    else DefaultFor(name, ds[..|ds| - 1], unit)
  }

  function Entry<T>(name: T -> string, sync: (T, T) -> T, x: T, ds: seq<T>): T {
    match DefaultFor(name, ds, name(x))
    case Some(d) => sync(x, d)
    case None => x
  }

  // The defaults that are not in the list yet, in order.
  function New<T>(name: T -> string, names: seq<string>, ds: seq<T>): seq<T> {
    if ds == [] then []
    else New(name, names, ds[..|ds| - 1]) + if name(ds[|ds| - 1]) in names then [] else [ds[|ds| - 1]]
  }

  // Whether the lookup map leads to this position.
  predicate IsLast(names: seq<string>, i: nat)
    requires i < |names|
  {
    LastIndex(names, names[i]) == Some(i)
  }

  // The list after the merge, even if it repeats a name: the last entry of each name at
  // its place, synced with its default, the others as they were, and then the new defaults.
  lemma {:induction false} MergedIsAnyway<T(!new)>(name: T -> string, sync: (T, T) -> T, xs: seq<T>, ds: seq<T>)
    requires Overwrites(name, sync)
    ensures var r := Merged(name, sync, xs, ds);
      && (forall i :: 0 <= i < |xs| ==>
            r[i] == if IsLast(Names(name, xs), i) then Entry(name, sync, xs[i], ds) else xs[i])
      && r[|xs|..] == New(name, Names(name, xs), ds)
  {
    if ds != [] {
      MergedIsAnyway(name, sync, xs, ds[..|ds| - 1]);
    }
  }

  // With distinct names: every old entry at its place, synced with its default, and then
  // the new defaults.
  lemma MergedIs<T(!new)>(name: T -> string, sync: (T, T) -> T, xs: seq<T>, ds: seq<T>)
    requires Overwrites(name, sync) && Distinct(Names(name, xs))
    ensures var r := Merged(name, sync, xs, ds);
      && (forall i :: 0 <= i < |xs| ==> r[i] == Entry(name, sync, xs[i], ds))
      && r[|xs|..] == New(name, Names(name, xs), ds)
  {
    MergedIsAnyway(name, sync, xs, ds);
    forall i | 0 <= i < |xs| ensures IsLast(Names(name, xs), i) {}
  }

  lemma {:induction false} NewAreDefaults<T>(name: T -> string, names: seq<string>, ds: seq<T>)
    ensures forall x :: x in New(name, names, ds) ==> x in ds && name(x) !in names
    ensures forall i :: 0 <= i < |ds| && name(ds[i]) !in names ==> ds[i] in New(name, names, ds)
  {
    if ds != [] {
      NewAreDefaults(name, names, ds[..|ds| - 1]);
    }
  }

  lemma {:induction false} NewAreDistinct<T>(name: T -> string, names: seq<string>, ds: seq<T>)
    requires Distinct(Names(name, ds))
    ensures Distinct(Names(name, New(name, names, ds)))
  {
    if ds != [] {
      var before, last := ds[..|ds| - 1], ds[|ds| - 1];
      assert Names(name, before) == Names(name, ds)[..|before|];
      NewAreDistinct(name, names, before);
      NewAreDefaults(name, names, before);
      var added := New(name, names, before);
      forall i | 0 <= i < |added| ensures name(added[i]) != name(last) {
        assert added[i] in before;
        var j :| 0 <= j < |before| && before[j] == added[i];
        assert Names(name, ds)[j] != Names(name, ds)[|before|];
      }
    }
  }

  lemma NewNames<T>(name: T -> string, names: seq<string>, ds: seq<T>)
    requires Distinct(Names(name, ds))
    ensures forall u :: u in Names(name, New(name, names, ds)) <==> u in Names(name, ds) && u !in names
    ensures Distinct(Names(name, New(name, names, ds)))
  {
    NewAreDefaults(name, names, ds);
    NewAreDistinct(name, names, ds);
    var added := New(name, names, ds);
    forall u | u in Names(name, added) ensures u in Names(name, ds) && u !in names {
      var i :| 0 <= i < |added| && Names(name, added)[i] == u;
      assert added[i] in ds;
      var j :| 0 <= j < |ds| && ds[j] == added[i];
      assert Names(name, ds)[j] == u;
    }
    forall u | u in Names(name, ds) && u !in names ensures u in Names(name, added) {
      var j :| 0 <= j < |ds| && Names(name, ds)[j] == u;
      var i :| 0 <= i < |added| && added[i] == ds[j];
      assert Names(name, added)[i] == u;
    }
  }

  lemma DistinctConcat<T>(a: seq<T>, b: seq<T>)
    requires Distinct(a) && Distinct(b) && forall x :: x in b ==> x !in a
    ensures Distinct(a + b)
  {
    forall i, j | 0 <= i < j < |a + b| ensures (a + b)[i] != (a + b)[j] {
      if i < |a| <= j { assert b[j - |a|] in b; }
    }
  }

  // The old names are a prefix of the new ones, which are exactly the union, each once.
  lemma MergedNames<T(!new)>(name: T -> string, sync: (T, T) -> T, xs: seq<T>, ds: seq<T>)
    requires Overwrites(name, sync) && Distinct(Names(name, xs)) && Distinct(Names(name, ds))
    ensures var r := Names(name, Merged(name, sync, xs, ds));
      && r == Names(name, xs) + Names(name, New(name, Names(name, xs), ds))
      && (forall u :: u in r <==> u in Names(name, xs) || u in Names(name, ds))
      && Distinct(r)
  {
    var r, added := Merged(name, sync, xs, ds), New(name, Names(name, xs), ds);
    MergedIs(name, sync, xs, ds);
    forall i | 0 <= i < |r| ensures Names(name, r)[i] == (Names(name, xs) + Names(name, added))[i] {
      if i < |xs| {
        assert name(Entry(name, sync, xs[i], ds)) == name(xs[i]);
      } else {
        assert r[i] == r[|xs|..][i - |xs|];
      }
    }
    assert Names(name, r) == Names(name, xs) + Names(name, added);
    NewNames(name, Names(name, xs), ds);
    DistinctConcat(Names(name, xs), Names(name, added));
  }

  lemma {:induction false} NoDefault<T>(name: T -> string, ds: seq<T>, unit: string)
    requires forall i :: 0 <= i < |ds| ==> name(ds[i]) != unit
    ensures DefaultFor(name, ds, unit) == None
  {
    if ds != [] { NoDefault(name, ds[..|ds| - 1], unit); }
  }

  lemma {:induction false} OnlyDefault<T>(name: T -> string, ds: seq<T>, k: nat)
    requires Distinct(Names(name, ds)) && k < |ds|
    ensures DefaultFor(name, ds, name(ds[k])) == Some(ds[k])
    ensures DefaultFor(name, ds[..k], name(ds[k])) == None
  {
    forall i | 0 <= i < |ds| && i != k ensures name(ds[i]) != name(ds[k]) {
      assert Names(name, ds)[i] != Names(name, ds)[k];
    }
    NoDefault(name, ds[..k], name(ds[k]));
    if k < |ds| - 1 {
      var before := ds[..|ds| - 1];
      forall i, j | 0 <= i < j < |before| ensures Names(name, before)[i] != Names(name, before)[j] {
        assert Names(name, ds)[i] != Names(name, ds)[j];
      }
      OnlyDefault(name, before, k);
    }
  }

  lemma {:induction false} NothingNew<T>(name: T -> string, names: seq<string>, ds: seq<T>)
    requires forall i :: 0 <= i < |ds| ==> name(ds[i]) in names
    ensures New(name, names, ds) == []
  {
    if ds != [] { NothingNew(name, names, ds[..|ds| - 1]); }
  }

  lemma NewEntryIsDefault<T(!new)>(name: T -> string, sync: (T, T) -> T, xs: seq<T>, ds: seq<T>, i: nat)
    requires Overwrites(name, sync) && Distinct(Names(name, xs)) && |xs| <= i < |Merged(name, sync, xs, ds)|
    ensures Merged(name, sync, xs, ds)[i] in ds
  {
    var r := Merged(name, sync, xs, ds);
    MergedIs(name, sync, xs, ds);
    NewAreDefaults(name, Names(name, xs), ds);
    assert r[i] == r[|xs|..][i - |xs|];
  }

  // A synced or added entry is already what its default asks for.
  lemma EntryIsSettled<T(!new)>(name: T -> string, sync: (T, T) -> T, xs: seq<T>, ds: seq<T>, i: nat)
    requires Overwrites(name, sync) && Distinct(Names(name, xs)) && Distinct(Names(name, ds))
    requires i < |Merged(name, sync, xs, ds)|
    ensures Entry(name, sync, Merged(name, sync, xs, ds)[i], ds) == Merged(name, sync, xs, ds)[i]
  {
    var r := Merged(name, sync, xs, ds);
    MergedIs(name, sync, xs, ds);
    if i >= |xs| {
      NewAreDefaults(name, Names(name, xs), ds);
      assert r[i] == r[|xs|..][i - |xs|];
      var k :| 0 <= k < |ds| && ds[k] == r[i];
      OnlyDefault(name, ds, k);
    } else {
      assert name(Entry(name, sync, xs[i], ds)) == name(xs[i]);
    }
  }

  lemma {:induction false} LastNewIsDefault<T>(name: T -> string, names: seq<string>, ds: seq<T>, k: nat)
    requires var added := New(name, names, ds);
      k < |added| && forall j :: k < j < |added| ==> name(added[j]) != name(added[k])
    ensures var x := New(name, names, ds)[k]; DefaultFor(name, ds, name(x)) == Some(x)
  {
    var before, d := ds[..|ds| - 1], ds[|ds| - 1];
    var added, earlier := New(name, names, ds), New(name, names, before);
    NewAreDefaults(name, names, ds);
    assert added[k] in added;
    if name(d) in names {
      assert added == earlier;
      LastNewIsDefault(name, names, before, k);
    } else if k < |earlier| {
      assert added[|earlier|] == d;
      assert forall j :: 0 <= j < |earlier| ==> added[j] == earlier[j];
      LastNewIsDefault(name, names, before, k);
    }
  }

  lemma EntryTwice<T(!new)>(name: T -> string, sync: (T, T) -> T, x: T, ds: seq<T>)
    requires Overwrites(name, sync)
    ensures Entry(name, sync, Entry(name, sync, x, ds), ds) == Entry(name, sync, x, ds)
  {
    assert name(Entry(name, sync, x, ds)) == name(x);
  }

  lemma MergedNamesAnyway<T(!new)>(name: T -> string, sync: (T, T) -> T, xs: seq<T>, ds: seq<T>)
    requires Overwrites(name, sync)
    ensures var r := Merged(name, sync, xs, ds);
      && Names(name, r) == Names(name, xs) + Names(name, New(name, Names(name, xs), ds))
      && forall d <- ds :: name(d) in Names(name, r)
  {
    var names := Names(name, xs);
    var r, added := Merged(name, sync, xs, ds), New(name, names, ds);
    MergedIsAnyway(name, sync, xs, ds);
    forall i | 0 <= i < |r| ensures Names(name, r)[i] == (names + Names(name, added))[i] {
      if i >= |xs| { assert r[i] == r[|xs|..][i - |xs|]; }
    }
    NewAreDefaults(name, names, ds);
    assert Names(name, r) == names + Names(name, added);
    forall d <- ds ensures name(d) in Names(name, r) {
      if name(d) !in names {
        var j :| 0 <= j < |added| && added[j] == d;
        assert Names(name, added)[j] in Names(name, added);
      }
    }
  }

  lemma LastIsLastBefore(names: seq<string>, more: seq<string>, i: nat)
    requires i < |names| && IsLast(names + more, i)
    ensures IsLast(names, i)
  {
    var all := names + more;
    assert forall j :: 0 <= j < |names| ==> all[j] == names[j];
    forall j | i < j < |names| ensures names[j] != names[i] { assert all[j] != all[i]; }
    LastIndexIs(names, i);
  }

  lemma LastIndexIs(names: seq<string>, i: nat)
    requires i < |names| && forall j :: i < j < |names| ==> names[j] != names[i]
    ensures IsLast(names, i)
  {}

  lemma LastIsLastAfter(names: seq<string>, more: seq<string>, k: nat, j: nat)
    requires k < j < |more| && IsLast(names + more, |names| + k)
    ensures more[j] != more[k]
  {
    assert (names + more)[|names| + j] == more[j] && (names + more)[|names| + k] == more[k];
  }

  lemma OldEntryIsSettled<T(!new)>(name: T -> string, sync: (T, T) -> T, xs: seq<T>, ds: seq<T>, i: nat)
    requires Overwrites(name, sync) && i < |xs| && IsLast(Names(name, Merged(name, sync, xs, ds)), i)
    ensures Entry(name, sync, Merged(name, sync, xs, ds)[i], ds) == Merged(name, sync, xs, ds)[i]
  {
    MergedIsAnyway(name, sync, xs, ds);
    MergedNamesAnyway(name, sync, xs, ds);
    LastIsLastBefore(Names(name, xs), Names(name, New(name, Names(name, xs), ds)), i);
    EntryTwice(name, sync, xs[i], ds);
  }

  lemma AddedEntryIsSettled<T(!new)>(name: T -> string, sync: (T, T) -> T, names: seq<string>, ds: seq<T>, k: nat)
    requires Overwrites(name, sync)
    requires var added := New(name, names, ds); k < |added| && IsLast(names + Names(name, added), |names| + k)
    ensures var x := New(name, names, ds)[k]; Entry(name, sync, x, ds) == x
  {
    var added := New(name, names, ds);
    forall j | k < j < |added| ensures name(added[j]) != name(added[k]) {
      LastIsLastAfter(names, Names(name, added), k, j);
    }
    LastNewIsDefault(name, names, ds, k);
  }

  lemma AddedAre<T(!new)>(name: T -> string, sync: (T, T) -> T, xs: seq<T>, ds: seq<T>, i: nat)
    requires Overwrites(name, sync) && |xs| <= i < |Merged(name, sync, xs, ds)|
    ensures var added := New(name, Names(name, xs), ds);
      i - |xs| < |added| && Merged(name, sync, xs, ds)[i] == added[i - |xs|]
  {
    var r := Merged(name, sync, xs, ds);
    MergedIsAnyway(name, sync, xs, ds);
    assert r[i] == r[|xs|..][i - |xs|];
  }

  // A last entry of the outcome is already what its default asks for, whatever repeats.
  lemma LastEntryIsSettled<T(!new)>(name: T -> string, sync: (T, T) -> T, xs: seq<T>, ds: seq<T>, i: nat)
    requires Overwrites(name, sync) && i < |Merged(name, sync, xs, ds)|
    requires IsLast(Names(name, Merged(name, sync, xs, ds)), i)
    ensures Entry(name, sync, Merged(name, sync, xs, ds)[i], ds) == Merged(name, sync, xs, ds)[i]
  {
    if i < |xs| {
      OldEntryIsSettled(name, sync, xs, ds, i);
    } else {
      NewEntryIsSettled(name, sync, xs, ds, i);
    }
  }

  lemma NewEntryIsSettled<T(!new)>(name: T -> string, sync: (T, T) -> T, xs: seq<T>, ds: seq<T>, i: nat)
    requires Overwrites(name, sync) && |xs| <= i < |Merged(name, sync, xs, ds)|
    requires IsLast(Names(name, Merged(name, sync, xs, ds)), i)
    ensures Entry(name, sync, Merged(name, sync, xs, ds)[i], ds) == Merged(name, sync, xs, ds)[i]
  {
    AddedAre(name, sync, xs, ds, i);
    MergedNamesAnyway(name, sync, xs, ds);
    AddedEntryIsSettled(name, sync, Names(name, xs), ds, i - |xs|);
  }

  // Merging again changes nothing, whatever repeats.
  lemma MergedTwice<T(!new)>(name: T -> string, sync: (T, T) -> T, xs: seq<T>, ds: seq<T>)
    requires Overwrites(name, sync)
    ensures Merged(name, sync, Merged(name, sync, xs, ds), ds) == Merged(name, sync, xs, ds)
  {
    var r := Merged(name, sync, xs, ds);
    MergedNamesAnyway(name, sync, xs, ds);
    forall i | 0 <= i < |ds| ensures name(ds[i]) in Names(name, r) { assert ds[i] in ds; }
    forall i | 0 <= i < |r| && IsLast(Names(name, r), i) ensures Entry(name, sync, r[i], ds) == r[i] {
      LastEntryIsSettled(name, sync, xs, ds, i);
    }
    OutcomeIs(name, sync, r, ds);
  }

  // ---- The change flag -------------------------------------------------------------------

  lemma {:induction false} QuietRoundsKeep<T>(name: T -> string, sync: (T, T) -> T, xs: seq<T>, ds: seq<T>, n: nat)
    requires n <= |ds| && !SomeRoundChanges(name, sync, xs, ds, n)
    ensures Merged(name, sync, xs, ds[..n]) == xs
  {
    if n > 0 {
      QuietRoundsKeep(name, sync, xs, ds, n - 1);
      assert ds[..n - 1 + 1] == ds[..n];
      assert ds[..n - 1] == ds[..n - 1];
    }
  }

  // The default is listed, and its entry is as the default asks for.
  predicate Agrees<T(==)>(name: T -> string, sync: (T, T) -> T, xs: seq<T>, d: T) {
    match LastIndex(Names(name, xs), name(d))
    case Some(i) => sync(xs[i], d) == xs[i]
    case None => false
  }

  ghost predicate AllAgree<T>(name: T -> string, sync: (T, T) -> T, xs: seq<T>, ds: seq<T>) {
    forall d :: d in ds ==> Agrees(name, sync, xs, d)
  }

  lemma AgreesIsQuiet<T>(name: T -> string, sync: (T, T) -> T, xs: seq<T>, d: T)
    ensures Round(name, sync, Names(name, xs), xs, d) == xs <==> Agrees(name, sync, xs, d)
  {}

  lemma {:induction false} AgreeingRoundsKeep<T>(name: T -> string, sync: (T, T) -> T, xs: seq<T>, ds: seq<T>, n: nat)
    requires AllAgree(name, sync, xs, ds) && n <= |ds|
    ensures Merged(name, sync, xs, ds[..n]) == xs
  {
    if n > 0 {
      AgreeingRoundsKeep(name, sync, xs, ds, n - 1);
      MergedStep(name, sync, xs, ds, n - 1);
      assert ds[n - 1] in ds;
      AgreesIsQuiet(name, sync, xs, ds[n - 1]);
    }
  }

  // Some round changes the list exactly when some default disagrees with the list before the merge.
  lemma FlagIs<T>(name: T -> string, sync: (T, T) -> T, xs: seq<T>, ds: seq<T>)
    ensures SomeRoundChanges(name, sync, xs, ds, |ds|) <==> !AllAgree(name, sync, xs, ds)
  {
    if AllAgree(name, sync, xs, ds) {
      forall k | 0 <= k < |ds| ensures Merged(name, sync, xs, ds[..k + 1]) == Merged(name, sync, xs, ds[..k]) {
        AgreeingRoundsKeep(name, sync, xs, ds, k);
        AgreeingRoundsKeep(name, sync, xs, ds, k + 1);
      }
    }
    if !SomeRoundChanges(name, sync, xs, ds, |ds|) {
      forall d | d in ds ensures Agrees(name, sync, xs, d) {
        var k :| 0 <= k < |ds| && ds[k] == d;
        QuietRoundsKeep(name, sync, xs, ds, k);
        QuietRoundsKeep(name, sync, xs, ds, k + 1);
        MergedStep(name, sync, xs, ds, k);
        AgreesIsQuiet(name, sync, xs, d);
      }
    }
  }

  // No default is new, and the last default of every listed name agrees with its entry.
  ghost predicate Unmoved<T>(name: T -> string, sync: (T, T) -> T, xs: seq<T>, ds: seq<T>) {
    && (forall i :: 0 <= i < |ds| ==> name(ds[i]) in Names(name, xs))
    && (forall i :: 0 <= i < |xs| && IsLast(Names(name, xs), i) ==> Entry(name, sync, xs[i], ds) == xs[i])
  }

  lemma OutcomeIs<T(!new)>(name: T -> string, sync: (T, T) -> T, xs: seq<T>, ds: seq<T>)
    requires Overwrites(name, sync)
    ensures Merged(name, sync, xs, ds) == xs <==> Unmoved(name, sync, xs, ds)
  {
    var r := Merged(name, sync, xs, ds);
    MergedIsAnyway(name, sync, xs, ds);
    NewAreDefaults(name, Names(name, xs), ds);
    assert r == r[..|xs|] + r[|xs|..];
    if Unmoved(name, sync, xs, ds) {
      NothingNew(name, Names(name, xs), ds);
      assert r[..|xs|] == xs;
    }
  }

  // Whatever is listed how often: the flag is wrong exactly when the last defaults leave the list as it is while an
  // earlier default of some name disagrees.
  lemma FlagIsWrongExactlyWhen<T(!new)>(name: T -> string, sync: (T, T) -> T, xs: seq<T>, ds: seq<T>)
    requires Overwrites(name, sync)
    ensures SomeRoundChanges(name, sync, xs, ds, |ds|) != (Merged(name, sync, xs, ds) != xs) <==>
      Unmoved(name, sync, xs, ds) && exists d :: d in ds && !Agrees(name, sync, xs, d)
  {
    FlagIs(name, sync, xs, ds);
    OutcomeIs(name, sync, xs, ds);
    if AllAgree(name, sync, xs, ds) {
      AgreeingRoundsKeep(name, sync, xs, ds, |ds|);
      assert ds[..|ds|] == ds;
    }
  }

  lemma OnlyDefaultAgrees<T(!new)>(name: T -> string, sync: (T, T) -> T, xs: seq<T>, ds: seq<T>, k: nat)
    requires Distinct(Names(name, ds)) && Unmoved(name, sync, xs, ds) && k < |ds|
    ensures Agrees(name, sync, xs, ds[k])
  {
    var i := LastIndex(Names(name, xs), name(ds[k])).value;
    OnlyDefault(name, ds, k);
    assert IsLast(Names(name, xs), i);
    assert Entry(name, sync, xs[i], ds) == sync(xs[i], ds[k]);
  }

  // With distinct defaults the flag is exact.
  lemma FlagIsExact<T(!new)>(name: T -> string, sync: (T, T) -> T, xs: seq<T>, ds: seq<T>)
    requires Overwrites(name, sync) && Distinct(Names(name, ds))
    ensures SomeRoundChanges(name, sync, xs, ds, |ds|) <==> Merged(name, sync, xs, ds) != xs
  {
    FlagIsWrongExactlyWhen(name, sync, xs, ds);
    if Unmoved(name, sync, xs, ds) {
      forall d | d in ds ensures Agrees(name, sync, xs, d) {
        var k :| 0 <= k < |ds| && ds[k] == d;
        OnlyDefaultAgrees(name, sync, xs, ds, k);
      }
    }
  }
}
