// Packing dashboard widgets into rows (frontend/src/pages/OverviewPage.tsx, lines 6-34).
module RowPacking {
  datatype Item = Item(id: string, span: nat)

  function Min(a: nat, b: nat): nat { if a <= b then a else b }

  function Sum(items: seq<Item>): nat {
    if items == [] then 0 else Sum(items[..|items| - 1]) + items[|items| - 1].span
  }

  function Clipped(items: seq<Item>, cols: nat): (c: seq<Item>)
    ensures |c| == |items|
    ensures forall i :: 0 <= i < |items| ==> c[i] == Item(items[i].id, Min(items[i].span, cols))
  {
    seq(|items|, i requires 0 <= i < |items| => Item(items[i].id, Min(items[i].span, cols)))
  }

  function Concat(rows: seq<seq<Item>>): seq<Item> {
    if rows == [] then [] else rows[0] + Concat(rows[1..])
  }

  // ---- The greedy rows ----------------------------------------------------------

  // How many leading items fit into the room.
  function Fit(items: seq<Item>, room: nat): (n: nat)
    ensures n <= |items|
  {
    if items == [] || items[0].span > room then 0 else 1 + Fit(items[1..], room - items[0].span)
  }

  predicate Packable(items: seq<Item>, cols: nat) {
    forall i :: 0 <= i < |items| ==> 1 <= items[i].span <= cols
  }

  function Greedy(items: seq<Item>, cols: nat): (rows: seq<seq<Item>>)
    requires Packable(items, cols)
    decreases |items|
  {
    if items == [] then []
    else
      var n := Fit(items, cols);
      [items[..n]] + Greedy(items[n..], cols)
  }

  // The last item takes up what is left of the row.
  function Widened(row: seq<Item>, cols: nat): seq<Item> {
    if row != [] && Sum(row) < cols then
      var last := row[|row| - 1];
      row[|row| - 1 := last.(span := last.span + (cols - Sum(row)))]
    else row
  }

  function Rows(layout: seq<Item>, cols: nat): (rows: seq<seq<Item>>)
    requires cols >= 1 && forall i :: 0 <= i < |layout| ==> layout[i].span >= 1
    ensures |rows| == |Greedy(Clipped(layout, cols), cols)|
  {
    var packed := Greedy(Clipped(layout, cols), cols);
    seq(|packed|, i requires 0 <= i < |packed| => Widened(packed[i], cols))
  }

  // ---- Facts about sums and fitting -------------------------------------------------

  lemma SumSnoc(a: seq<Item>, x: Item)
    ensures Sum(a + [x]) == Sum(a) + x.span
  {
    assert (a + [x])[..|a|] == a;
  }

  lemma {:induction false} SumConcat(a: seq<Item>, b: seq<Item>)
    ensures Sum(a + b) == Sum(a) + Sum(b)
  {
    if b == [] {
      assert a + b == a;
    } else {
      assert (a + b)[..|a + b| - 1] == a + b[..|b| - 1];
      SumConcat(a, b[..|b| - 1]);
    }
  }

  lemma SumHead(items: seq<Item>)
    requires items != []
    ensures Sum(items) == items[0].span + Sum(items[1..])
  {
    assert items == [items[0]] + items[1..];
    SumConcat([items[0]], items[1..]);
    SumSnoc([], items[0]);
    assert [] + [items[0]] == [items[0]];
  }

  lemma {:induction false} FitConcat(a: seq<Item>, b: seq<Item>, room: nat)
    requires Sum(a) <= room
    ensures Fit(a + b, room) == |a| + Fit(b, room - Sum(a))
  {
    if a == [] {
      assert a + b == b;
    } else {
      SumHead(a);
      assert (a + b)[1..] == a[1..] + b;
      FitConcat(a[1..], b, room - a[0].span);
    }
  }

  // A row takes as many items as fit, and no more.
  lemma {:induction false} FitIsMaximal(items: seq<Item>, room: nat)
    ensures Sum(items[..Fit(items, room)]) <= room
    ensures Fit(items, room) < |items| ==> Sum(items[..Fit(items, room) + 1]) > room
  {
    if items != [] && items[0].span <= room {
      var rest, n := items[1..], Fit(items, room);
      FitIsMaximal(rest, room - items[0].span);
      SumFrom(items, n);
      if n < |items| { SumFrom(items, n + 1); }
    } else if items != [] {
      SumFrom(items, 1);
    }
  }

  lemma SumFrom(items: seq<Item>, n: nat)
    requires 0 < n <= |items|
    ensures Sum(items[..n]) == items[0].span + Sum(items[1..][..n - 1])
  {
    SumHead(items[..n]);
    assert items[..n][1..] == items[1..][..n - 1];
  }

  // ---- Optimality ---------------------------------------------------------------------

  // Any split of the items into consecutive rows that fit; rows may even be empty.
  ghost predicate IsSplit(split: seq<seq<Item>>, items: seq<Item>, cols: nat) {
    Concat(split) == items && forall i :: 0 <= i < |split| ==> Sum(split[i]) <= cols
  }

  lemma {:induction false} FitMoreRoom(items: seq<Item>, room: nat, more: nat)
    requires room <= more
    ensures Fit(items, room) <= Fit(items, more)
  {
    if items != [] && items[0].span <= room {
      FitMoreRoom(items[1..], room - items[0].span, more - items[0].span);
    }
  }

  // Dropping the first item never costs a row.
  lemma {:induction false} GreedyTail(items: seq<Item>, cols: nat)
    requires Packable(items, cols) && items != []
    ensures |Greedy(items[1..], cols)| <= |Greedy(items, cols)|
    decreases |items|, 0
  {
    var tail := items[1..];
    if tail != [] {
      var n, m := Fit(items, cols), Fit(tail, cols);
      FitMoreRoom(tail, cols - items[0].span, cols);
      GreedySuffix(items[n..], m + 1 - n, cols);
      assert items[n..][m + 1 - n..] == tail[m..];
      GreedyUnrolled(tail, cols);
      GreedyUnrolled(items, cols);
    }
  }

  lemma GreedyUnrolled(items: seq<Item>, cols: nat)
    requires Packable(items, cols) && items != []
    ensures var n := Fit(items, cols); Greedy(items, cols) == [items[..n]] + Greedy(items[n..], cols)
  {}

  lemma {:induction false} GreedySuffix(items: seq<Item>, k: nat, cols: nat)
    requires Packable(items, cols) && k <= |items|
    ensures |Greedy(items[k..], cols)| <= |Greedy(items, cols)|
    decreases |items|, 1, k
  {
    if k == 0 {
      assert items[k..] == items;
    } else {
      GreedyTail(items, cols);
      GreedySuffix(items[1..], k - 1, cols);
      assert items[1..][k - 1..] == items[k..];
    }
  }

  lemma {:induction false} GreedyIsOptimal(items: seq<Item>, split: seq<seq<Item>>, cols: nat)
    requires Packable(items, cols) && IsSplit(split, items, cols)
    ensures |Greedy(items, cols)| <= |split|
  {
    if items != [] {
      assert split != [];
      var first, rest := split[0], split[1..];
      SplitTail(items, split, cols);
      GreedyIsOptimal(items[|first|..], rest, cols);
      GreedyBeatsFirst(items, |first|, cols);
    }
  }

  lemma SplitTail(items: seq<Item>, split: seq<seq<Item>>, cols: nat)
    requires split != [] && IsSplit(split, items, cols)
    ensures |split[0]| <= |items| && items[..|split[0]|] == split[0] && IsSplit(split[1..], items[|split[0]|..], cols)
  {
    assert items == split[0] + Concat(split[1..]);
  }

  // The greedy row is at least as long as any first row that fits, so it leaves no more rows.
  lemma GreedyBeatsFirst(items: seq<Item>, k: nat, cols: nat)
    requires Packable(items, cols) && items != [] && k <= |items| && Sum(items[..k]) <= cols
    ensures |Greedy(items, cols)| <= 1 + |Greedy(items[k..], cols)|
  {
    assert items == items[..k] + items[k..];
    FitConcat(items[..k], items[k..], cols);
    var n := Fit(items, cols);
    GreedySuffix(items[k..], n - k, cols);
    assert items[k..][n - k..] == items[n..];
    GreedyUnrolled(items, cols);
  }

  // ---- What the rows are -----------------------------------------------------------------

  lemma {:induction false} GreedyRows(items: seq<Item>, cols: nat)
    requires Packable(items, cols)
    ensures Concat(Greedy(items, cols)) == items
    ensures forall row :: row in Greedy(items, cols) ==> row != [] && Sum(row) <= cols
    decreases |items|
  {
    if items != [] {
      var n := Fit(items, cols);
      FitIsMaximal(items, cols);
      var rest := Greedy(items[n..], cols);
      GreedyRows(items[n..], cols);
      ConcatCons(items[..n], rest);
      assert Greedy(items, cols) == [items[..n]] + rest;
      assert items == items[..n] + items[n..];
    }
  }

  lemma ConcatCons(row: seq<Item>, rest: seq<seq<Item>>)
    ensures Concat([row] + rest) == row + Concat(rest)
  {
    assert ([row] + rest)[1..] == rest;
  }

  function Ids(items: seq<Item>): (ids: seq<string>)
    ensures |ids| == |items|
    ensures forall i :: 0 <= i < |items| ==> ids[i] == items[i].id
  {
    seq(|items|, i requires 0 <= i < |items| => items[i].id)
  }

  lemma WidenedFillsTheRow(row: seq<Item>, cols: nat)
    requires row != [] && Sum(row) <= cols
    ensures Sum(Widened(row, cols)) == cols && Ids(Widened(row, cols)) == Ids(row)
    ensures |Widened(row, cols)| == |row| && Widened(row, cols)[..|row| - 1] == row[..|row| - 1]
  {}

  lemma {:induction false} IdsOfConcat(a: seq<seq<Item>>, b: seq<seq<Item>>)
    requires |a| == |b| && forall i :: 0 <= i < |a| ==> Ids(a[i]) == Ids(b[i])
    ensures Ids(Concat(a)) == Ids(Concat(b))
  {
    if a != [] {
      IdsOfConcat(a[1..], b[1..]);
      assert Ids(Concat(a)) == Ids(a[0]) + Ids(Concat(a[1..]));
      assert Ids(Concat(b)) == Ids(b[0]) + Ids(Concat(b[1..]));
    }
  }

  // Every widget once and in order, no empty row, every row filled to the last column by
  // its last widget alone, and no split of the widgets into rows needs fewer.
  lemma RowsAreFullAndFewest(layout: seq<Item>, cols: nat)
    requires cols >= 1 && forall i :: 0 <= i < |layout| ==> layout[i].span >= 1
    ensures var rows := Rows(layout, cols); var packed := Greedy(Clipped(layout, cols), cols);
      && Ids(Concat(rows)) == Ids(layout)
      && Concat(packed) == Clipped(layout, cols)
      && (forall i :: 0 <= i < |rows| ==>
            && rows[i] != [] && Sum(rows[i]) == cols && |rows[i]| == |packed[i]|
            && rows[i][..|rows[i]| - 1] == packed[i][..|rows[i]| - 1])
      && forall split :: IsSplit(split, Clipped(layout, cols), cols) ==> |rows| <= |split|
  {
    var items := Clipped(layout, cols);
    var rows, packed := Rows(layout, cols), Greedy(items, cols);
    GreedyRows(items, cols);
    forall i | 0 <= i < |rows|
      ensures rows[i] != [] && Sum(rows[i]) == cols && |rows[i]| == |packed[i]|
      ensures Ids(rows[i]) == Ids(packed[i])
      ensures rows[i][..|rows[i]| - 1] == packed[i][..|rows[i]| - 1]
    {
      assert packed[i] in packed;
      WidenedFillsTheRow(packed[i], cols);
    }
    IdsOfConcat(rows, packed);
    forall split | IsSplit(split, items, cols) ensures |rows| <= |split| {
      GreedyIsOptimal(items, split, cols);
    }
  }

  // ---- The cast at line 29 ------------------------------------------------------------------

  // The type of a widget's span, and the column count of the one call of computeRows.
  predicate Typed(item: Item) { item.span == 1 || item.span == 2 || item.span == 4 }

  const COLS: nat := 4

  // A short row of two whose first item is as narrow as can be.
  predicate IsShortPair(row: seq<Item>) {
    Sum(row) < COLS && |row| == 2 && row[0].span == 1
  }

  lemma SumOfTwo(a: Item, b: Item)
    ensures Sum([a]) == a.span && Sum([a, b]) == a.span + b.span
  {
    SumSnoc([], a);
    SumSnoc([a], b);
    assert [] + [a] == [a] && [a] + [b] == [a, b];
    assert [a][..0] == [];
  }

  lemma {:induction false} SumAtLeastLength(items: seq<Item>)
    requires forall item <- items :: Typed(item)
    ensures Sum(items) >= |items|
  {
    if items != [] {
      assert items[|items| - 1] in items;
      SumAtLeastLength(items[..|items| - 1]);
    }
  }

  lemma RowKeepsTheTypeExactlyWhen(row: seq<Item>)
    requires row != [] && Sum(row) <= COLS && forall item <- row :: Typed(item)
    ensures Typed(Widened(row, COLS)[|row| - 1]) <==> !IsShortPair(row)
  {
    var init, last := row[..|row| - 1], row[|row| - 1];
    assert Typed(last) by { assert last in row; }
    SumAtLeastLength(init);
    assert Sum(row) == Sum(init) + last.span;
    assert Widened(row, COLS)[|row| - 1].span == if Sum(row) < COLS then COLS - Sum(init) else last.span;
    if |row| == 2 {
      assert Typed(row[0]) by { assert row[0] in row; }
      SumOfTwo(row[0], last);
      assert init == [row[0]];
    } else if |row| == 1 {
      assert Sum(init) == 0;
    }
  }

  lemma {:induction false} InConcat(rows: seq<seq<Item>>, r: nat, item: Item)
    requires r < |rows| && item in rows[r]
    ensures item in Concat(rows)
  {
    if r > 0 { InConcat(rows[1..], r - 1, item); }
  }

  ghost predicate TypedLayout(layout: seq<Item>)
    ensures TypedLayout(layout) ==> Packable(Clipped(layout, COLS), COLS)
    ensures TypedLayout(layout) ==> forall i :: 0 <= i < |layout| ==> layout[i].span >= 1
  {
    forall i :: 0 <= i < |layout| ==> Typed(layout[i])
  }

  // With spans 1, 2 and 4 the widened span stays among them, row by row, except in a short pair; every other span
  // does anyway.
  lemma WidenedSpanKeepsTheTypeExactlyWhen(layout: seq<Item>, r: nat)
    requires TypedLayout(layout) && r < |Greedy(Clipped(layout, COLS), COLS)|
    ensures var row, packed := Rows(layout, COLS)[r], Greedy(Clipped(layout, COLS), COLS)[r];
      && (row != [] && (Typed(row[|row| - 1]) <==> !IsShortPair(packed)))
      && forall i :: 0 <= i < |row| - 1 ==> Typed(row[i])
  {
    GreedyIsTyped(layout, r);
    var packed := Greedy(Clipped(layout, COLS), COLS)[r];
    RowKeepsTheTypeExactlyWhen(packed);
    WidenedFillsTheRow(packed, COLS);
    forall i | 0 <= i < |packed| - 1 ensures Typed(Widened(packed, COLS)[i]) {
      assert Widened(packed, COLS)[..|packed| - 1][i] == packed[..|packed| - 1][i];
      assert packed[i] in packed;
    }
  }

  lemma GreedyIsTyped(layout: seq<Item>, r: nat)
    requires TypedLayout(layout) && r < |Greedy(Clipped(layout, COLS), COLS)|
    ensures var packed := Greedy(Clipped(layout, COLS), COLS)[r];
      packed != [] && Sum(packed) <= COLS && forall item <- packed :: Typed(item)
  {
    var items := Clipped(layout, COLS);
    var packed := Greedy(items, COLS);
    GreedyRows(items, COLS);
    assert packed[r] in packed;
    forall item <- packed[r] ensures Typed(item) { InConcat(packed, r, item); }
  }

  // A layout with such a pair.
  lemma WidenedSpanCanLeaveTheType()
    ensures var rows := Rows([Item("a", 1), Item("b", 1), Item("c", 4)], 4);
      |rows| == 2 && rows[0] == [Item("a", 1), Item("b", 3)]
  {
    var layout := [Item("a", 1), Item("b", 1), Item("c", 4)];
    var items := Clipped(layout, 4);
    assert items == layout;
    assert items[1..][1..] == [Item("c", 4)];
    assert Fit(items, 4) == 2;
    var last := items[2..];
    assert last == [Item("c", 4)] && last[1..] == [] && Fit(last, 4) == 1 && last[..1] == last;
    assert Greedy(last, 4) == [last] + Greedy(last[1..], 4);
    var first := items[..2];
    assert first == [Item("a", 1)] + [Item("b", 1)];
    SumSnoc([Item("a", 1)], Item("b", 1));
    SumSnoc([], Item("a", 1));
    assert [] + [Item("a", 1)] == [Item("a", 1)];
  }

  // ---- The loop ---------------------------------------------------------------------------

  class Widget {
    const id: string
    var span: nat
    ghost const at: nat  // position in the layout: tells the copies apart

    constructor (id: string, span: nat, ghost at: nat)
      ensures this.id == id && this.span == span && this.at == at
    {
      this.id, this.span, this.at := id, span, at;
    }
  }

  datatype Row = Row(items: seq<Widget>, totalSpan: nat)

  function Values(widgets: seq<Widget>): (items: seq<Item>)
    reads widgets
    ensures |items| == |widgets|
    ensures forall i :: 0 <= i < |widgets| ==> items[i] == Item(widgets[i].id, widgets[i].span)
  {
    seq(|widgets|, i requires 0 <= i < |widgets| reads widgets => Item(widgets[i].id, widgets[i].span))
  }

  lemma RowIsCut(current: seq<Item>, rest: seq<Item>, cols: nat)
    requires Packable(current + rest, cols) && current != [] && Sum(current) <= cols
    requires rest == [] || Sum(current) + rest[0].span > cols
    ensures Packable(rest, cols)
    ensures Greedy(current + rest, cols) == [current] + Greedy(rest, cols)
  {
    var items := current + rest;
    assert forall i :: 0 <= i < |rest| ==> rest[i] == items[|current| + i];
    FitConcat(current, rest, cols);
    assert Fit(items, cols) == |current| && items[..|current|] == current && items[|current|..] == rest;
    GreedyUnrolled(items, cols);
  }

  // After i items: packed holds the finished rows, current the open one.
  ghost predicate Progress(items: seq<Item>, packed: seq<seq<Item>>, current: seq<Item>, i: nat, cols: nat) {
    && i <= |items| && Packable(items, cols) && Packable(current + items[i..], cols)
    && packed + Greedy(current + items[i..], cols) == Greedy(items, cols)
    && Sum(current) <= cols && (i > 0 ==> current != [])
  }

  lemma Dropped(items: seq<Item>, current: seq<Item>, i: nat)
    requires i < |items|
    ensures items[i..] == [items[i]] + items[i + 1..]
    ensures current + items[i..] == (current + [items[i]]) + items[i + 1..]
  {}

  lemma Regrouped<T>(packed: seq<T>, row: T, rest: seq<T>)
    ensures packed + ([row] + rest) == (packed + [row]) + rest
  {}

  lemma ProgressStep(items: seq<Item>, packed: seq<seq<Item>>, current: seq<Item>, i: nat, cols: nat)
    requires Progress(items, packed, current, i, cols) && i < |items|
    ensures Sum(current) + items[i].span > cols ==>
      current != [] && Progress(items, packed + [current], [items[i]], i + 1, cols)
    ensures Sum(current) + items[i].span <= cols ==>
      Progress(items, packed, current + [items[i]], i + 1, cols)
    ensures Sum(current + [items[i]]) == Sum(current) + items[i].span && Sum([items[i]]) == items[i].span
  {
    SumSnoc(current, items[i]);
    SumSnoc([], items[i]);
    assert [] + [items[i]] == [items[i]];
    var rest := items[i..];
    Dropped(items, current, i);
    if Sum(current) + items[i].span > cols {
      RowIsCut(current, rest, cols);
      Regrouped(packed, current, Greedy(rest, cols));
    }
  }

  lemma ProgressEnd(items: seq<Item>, packed: seq<seq<Item>>, current: seq<Item>, cols: nat)
    requires Progress(items, packed, current, |items|, cols)
    ensures (if current == [] then packed else packed + [current]) == Greedy(items, cols)
  {
    assert current + items[|items|..] == current + [];
    if current != [] { RowIsCut(current, [], cols); }
  }

  // copies[k] is a copy of the k-th widget, currently with these values.
  ghost predicate Shows(copies: seq<Widget>, now: seq<Item>)
    reads copies
  {
    |copies| == |now| && forall k :: 0 <= k < |copies| ==>
      copies[k].at == k && copies[k].id == now[k].id && copies[k].span == now[k].span
  }

  // Row r consists of the copies from cuts[r] up to cuts[r + 1].
  ghost predicate CutAt(rows: seq<Row>, packed: seq<seq<Item>>, copies: seq<Widget>, items: seq<Item>, cuts: seq<int>) {
    && |cuts| == |rows| + 1 && |packed| == |rows| && |copies| <= |items|
    && (forall r, q :: 0 <= r <= q < |cuts| ==> 0 <= cuts[r] <= cuts[q] <= |copies|)
    && forall r {:trigger rows[r]} :: 0 <= r < |rows| ==>
         && rows[r].items == copies[cuts[r]..cuts[r + 1]]
         && packed[r] == items[cuts[r]..cuts[r + 1]]
         && rows[r].totalSpan == Sum(packed[r])
  }

  lemma CutMore(rows: seq<Row>, packed: seq<seq<Item>>, copies: seq<Widget>, items: seq<Item>, cuts: seq<int>, i: int)
    requires CutAt(rows, packed, copies, items, cuts) && cuts[|rows|] <= i <= |copies|
    ensures var lo := cuts[|rows|]; var values := items[lo..i];
      CutAt(rows + [Row(copies[lo..i], Sum(values))], packed + [values], copies, items, cuts + [i])
  {
    var lo, n := cuts[|rows|], |rows|;
    var row, values := Row(copies[lo..i], Sum(items[lo..i])), items[lo..i];
    var rows', packed', later := rows + [row], packed + [values], cuts + [i];
    assert forall r :: 0 <= r < |cuts| ==> later[r] == cuts[r];
    forall r | 0 <= r < |rows'|
      ensures rows'[r].items == copies[later[r]..later[r + 1]]
      ensures packed'[r] == items[later[r]..later[r + 1]] && rows'[r].totalSpan == Sum(packed'[r])
    {
      if r < n { assert rows'[r] == rows[r] && packed'[r] == packed[r]; }
      else { assert rows'[r] == row && packed'[r] == values; }
    }
  }

  lemma ExtendOpenRow(copies: seq<Widget>, items: seq<Item>, lo: int, i: int)
    requires 0 <= lo <= i < |copies| == |items|
    ensures copies[lo..i + 1] == copies[lo..i] + [copies[i]] && items[lo..i + 1] == items[lo..i] + [items[i]]
  {}

  // { ...item, span }, for every item
  method CopyClipped(layout: seq<Widget>, cols: nat) returns (copies: seq<Widget>)
    ensures Shows(copies, Clipped(Values(layout), cols))
    ensures forall k :: 0 <= k < |copies| ==> fresh(copies[k])
  {
    copies := [];
    for i := 0 to |layout|
      invariant |copies| == i && forall k :: 0 <= k < i ==> fresh(copies[k])
      invariant Shows(copies, Clipped(Values(layout), cols)[..i])
    {
      var copy := new Widget(layout[i].id, Min(layout[i].span, cols), i);
      copies := copies + [copy];
    }
  }

  // After i items: the finished rows, and the open one from lo on.
  ghost predicate Open(rows: seq<Row>, packed: seq<seq<Item>>, copies: seq<Widget>, items: seq<Item>, cuts: seq<int>,
                       lo: int, i: int, cols: nat) {
    && CutAt(rows, packed, copies, items, cuts)
    && 0 <= lo <= i <= |copies| && cuts[|rows|] == lo
    && Progress(items, packed, items[lo..i], i, cols)
  }

  lemma OpenStep(rows: seq<Row>, packed: seq<seq<Item>>, copies: seq<Widget>, items: seq<Item>, cuts: seq<int>,
                 lo: int, i: int, cols: nat)
    requires Open(rows, packed, copies, items, cuts, lo, i, cols) && i < |copies| == |items|
    ensures copies[lo..i + 1] == copies[lo..i] + [copies[i]] && copies[i..i + 1] == [copies[i]]
    ensures var used := Sum(items[lo..i]); var span := items[i].span;
      && Sum(items[lo..i + 1]) == used + span && Sum(items[i..i + 1]) == span
      && if used + span > cols then
           Open(rows + [Row(copies[lo..i], used)], packed + [items[lo..i]], copies, items, cuts + [i], i, i + 1, cols)
         else
           Open(rows, packed, copies, items, cuts, lo, i + 1, cols)
  {
    ProgressStep(items, packed, items[lo..i], i, cols);
    ExtendOpenRow(copies, items, lo, i);
    ExtendOpenRow(copies, items, i, i);
    CutMore(rows, packed, copies, items, cuts, i);
  }

  lemma OpenEnd(rows: seq<Row>, packed: seq<seq<Item>>, copies: seq<Widget>, items: seq<Item>, cuts: seq<int>,
                lo: int, cols: nat)
    requires Open(rows, packed, copies, items, cuts, lo, |items|, cols) && |copies| == |items|
    ensures if lo == |items| then CutAt(rows, Greedy(items, cols), copies, items, cuts)
      else CutAt(rows + [Row(copies[lo..|items|], Sum(items[lo..|items|]))], Greedy(items, cols), copies, items,
                 cuts + [|items|])
  {
    ProgressEnd(items, packed, items[lo..|items|], cols);
    CutMore(rows, packed, copies, items, cuts, |items|);
  }

  lemma OpenStart(copies: seq<Widget>, items: seq<Item>, cols: nat)
    requires Packable(items, cols) && |copies| == |items|
    ensures Open([], [], copies, items, [0], 0, 0, cols)
  {
    assert items[0..0] + items[0..] == items;
  }

  lemma SpanShown(copies: seq<Widget>, items: seq<Item>, i: nat)
    requires Shows(copies, items) && i < |copies|
    ensures i < |items| && copies[i].span == items[i].span
  {}

  // The first loop. Its copies are made up front.
  method Cut(copies: seq<Widget>, cols: nat, ghost items: seq<Item>) returns (rows: seq<Row>, ghost cuts: seq<int>)
    requires Shows(copies, items) && Packable(items, cols)
    ensures CutAt(rows, Greedy(items, cols), copies, items, cuts)
  {
    rows, cuts := [], [0];
    ghost var packed: seq<seq<Item>> := [];
    var current: seq<Widget>, used := [], 0;
    ghost var lo := 0;
    OpenStart(copies, items, cols);
    for i := 0 to |copies|
      invariant Open(rows, packed, copies, items, cuts, lo, i, cols)
      invariant current == copies[lo..i] && used == Sum(items[lo..i])
    {
      OpenStep(rows, packed, copies, items, cuts, lo, i, cols);
      SpanShown(copies, items, i);
      var span := copies[i].span;
      if used + span > cols {
        rows, packed, cuts := rows + [Row(current, used)], packed + [items[lo..i]], cuts + [i];
        current, used, lo := [], 0, i;
      }
      current := current + [copies[i]];
      used := used + span;
    }
    OpenEnd(rows, packed, copies, items, cuts, lo, cols);
    if current != [] {
      rows, cuts := rows + [Row(current, used)], cuts + [|copies|];
    }
  }

  // What the copies show once the first n rows are widened.
  ghost predicate WidenedTo(now: seq<Item>, packed: seq<seq<Item>>, cuts: seq<int>, n: nat, cols: nat) {
    && |cuts| == |packed| + 1
    && (forall r, q :: 0 <= r <= q < |cuts| ==> 0 <= cuts[r] <= cuts[q] <= |now|)
    && forall r {:trigger packed[r]} :: 0 <= r < |packed| ==>
         now[cuts[r]..cuts[r + 1]] == if r < n then Widened(packed[r], cols) else packed[r]
  }

  // The last item of a row, at k, takes up what is left of a row of that total.
  function Stretched(now: seq<Item>, k: int, total: nat, cols: nat): seq<Item>
    requires 0 <= k < |now|
  {
    if total < cols then now[k := now[k].(span := Min(now[k].span + (cols - total), cols))] else now
  }

  lemma WidenRow(now: seq<Item>, packed: seq<seq<Item>>, cuts: seq<int>, n: nat, cols: nat) returns (later: seq<Item>)
    requires WidenedTo(now, packed, cuts, n, cols) && n < |packed|
    requires packed[n] != [] && Sum(packed[n]) <= cols
    ensures WidenedTo(later, packed, cuts, n + 1, cols)
    ensures 0 < cuts[n + 1] <= |now| && later == Stretched(now, cuts[n + 1] - 1, Sum(packed[n]), cols)
  {
    var lo, k := cuts[n], cuts[n + 1] - 1;
    assert packed[n] == now[lo..k + 1];
    assert packed[n][|packed[n]| - 1] == now[k];
    SumLast(packed[n]);
    later := Stretched(now, k, Sum(packed[n]), cols);
    forall r | 0 <= r < |packed|
      ensures later[cuts[r]..cuts[r + 1]] == if r < n + 1 then Widened(packed[r], cols) else packed[r]
    {
      var row := now[cuts[r]..cuts[r + 1]];
      if r < n {
        assert cuts[r + 1] <= cuts[n];
        assert later[cuts[r]..cuts[r + 1]] == row;
      } else if r > n {
        assert cuts[n + 1] <= cuts[r];
        assert later[cuts[r]..cuts[r + 1]] == row;
      }
    }
  }

  lemma SumLast(values: seq<Item>)
    requires values != []
    ensures values[|values| - 1].span <= Sum(values)
  {}

  lemma ShownSlice(copies: seq<Widget>, now: seq<Item>, lo: int, hi: int)
    requires Shows(copies, now) && 0 <= lo <= hi <= |copies|
    ensures Values(copies[lo..hi]) == now[lo..hi]
  {}

  lemma CutRow(rows: seq<Row>, packed: seq<seq<Item>>, copies: seq<Widget>, items: seq<Item>, cuts: seq<int>, n: nat)
    requires CutAt(rows, packed, copies, items, cuts) && n < |rows| && packed[n] != []
    ensures 0 <= cuts[n] < cuts[n + 1] <= |copies|
    ensures rows[n].items == copies[cuts[n]..cuts[n + 1]] && rows[n].totalSpan == Sum(packed[n])
    ensures |rows[n].items| > 0 && rows[n].items[|rows[n].items| - 1] == copies[cuts[n + 1] - 1]
  {
    assert rows[n].items == copies[cuts[n]..cuts[n + 1]];
    assert |packed[n]| == cuts[n + 1] - cuts[n];
  }

  lemma CutIsWidenedToNone(rows: seq<Row>, packed: seq<seq<Item>>, copies: seq<Widget>, items: seq<Item>,
                           cuts: seq<int>, cols: nat)
    requires CutAt(rows, packed, copies, items, cuts)
    ensures WidenedTo(items, packed, cuts, 0, cols)
  {
    forall r | 0 <= r < |packed| ensures items[cuts[r]..cuts[r + 1]] == packed[r] {
      assert rows[r] == rows[r];
    }
  }

  method Widen(row: Row, cols: nat, ghost copies: seq<Widget>, ghost now: seq<Item>, ghost k: nat)
    requires Shows(copies, now) && k < |copies|
    requires |row.items| > 0 && row.items[|row.items| - 1] == copies[k]
    modifies copies[k]
    ensures Shows(copies, Stretched(now, k, row.totalSpan, cols))
  {
    if row.totalSpan < cols && |row.items| > 0 {
      var last := row.items[|row.items| - 1];
      last.span := Min(last.span + (cols - row.totalSpan), cols);
    }
  }

  ghost predicate RowsFit(packed: seq<seq<Item>>, cols: nat) {
    forall row :: row in packed ==> row != [] && Sum(row) <= cols
  }

  lemma ReadyToWiden(rows: seq<Row>, packed: seq<seq<Item>>, copies: seq<Widget>, items: seq<Item>, cuts: seq<int>,
                     n: nat, cols: nat)
    requires CutAt(rows, packed, copies, items, cuts) && n < |rows| && RowsFit(packed, cols)
    ensures packed[n] != [] && Sum(packed[n]) <= cols && 0 <= cuts[n] < cuts[n + 1] <= |copies|
    ensures rows[n].totalSpan == Sum(packed[n])
    ensures |rows[n].items| > 0 && rows[n].items[|rows[n].items| - 1] == copies[cuts[n + 1] - 1]
  {
    assert packed[n] in packed;
    CutRow(rows, packed, copies, items, cuts, n);
  }

  // The second loop: the last widget of each row takes up what is left.
  method WidenRows(rows: seq<Row>, cols: nat, ghost packed: seq<seq<Item>>, ghost copies: seq<Widget>,
                   ghost items: seq<Item>, ghost cuts: seq<int>)
    returns (ghost now: seq<Item>)
    requires Shows(copies, items) && CutAt(rows, packed, copies, items, cuts)
    requires RowsFit(packed, cols)
    modifies copies
    ensures Shows(copies, now) && WidenedTo(now, packed, cuts, |rows|, cols)
  {
    now := items;
    CutIsWidenedToNone(rows, packed, copies, items, cuts, cols);
    for n := 0 to |rows|
      invariant Shows(copies, now) && WidenedTo(now, packed, cuts, n, cols)
    {
      ReadyToWiden(rows, packed, copies, items, cuts, n, cols);
      Widen(rows[n], cols, copies, now, cuts[n + 1] - 1);
      now := WidenRow(now, packed, cuts, n, cols);
    }
  }

  // No widget of the layout changes: every object written to is a fresh copy.
  method ComputeRows(layout: seq<Widget>, cols: nat) returns (rows: seq<Row>)
    requires cols >= 1 && forall w :: w in layout ==> w.span >= 1
    ensures |rows| == |Rows(old(Values(layout)), cols)|
    ensures forall r :: 0 <= r < |rows| ==>
      && Values(rows[r].items) == Rows(old(Values(layout)), cols)[r]
      && rows[r].totalSpan == Sum(Greedy(Clipped(old(Values(layout)), cols), cols)[r])
  {
    ghost var items := Clipped(Values(layout), cols);
    ghost var packed := Greedy(items, cols);
    ghost var cuts;
    var copies := CopyClipped(layout, cols);
    rows, cuts := Cut(copies, cols, items);
    GreedyRows(items, cols);
    ghost var now := WidenRows(rows, cols, packed, copies, items, cuts);
    forall r | 0 <= r < |rows|
      ensures Values(rows[r].items) == Widened(packed[r], cols) && rows[r].totalSpan == Sum(packed[r])
    {
      assert packed[r] in packed;
      CutRow(rows, packed, copies, items, cuts, r);
      ShownSlice(copies, now, cuts[r], cuts[r + 1]);
    }
  }
}
