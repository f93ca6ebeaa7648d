// Cutting a list into a header and sections, each opened by a head element: the shape of the loop in
// internal/storage/bcachefs/bcachefs.go, lines 308-427.
module Sectioning {
  import opened Domain

  // A head opens a section; any other element belongs to the last one, if there is one.
  function Sections<T>(head: T -> bool, xs: seq<T>): seq<seq<T>> {
    if xs == [] then [] else Grown(head, Sections(head, xs[..|xs| - 1]), xs[|xs| - 1])
  }

  function Grown<T>(head: T -> bool, s: seq<seq<T>>, x: T): seq<seq<T>> {
    if head(x) then s + [[x]]
    else if s == [] then []
    else s[..|s| - 1] + [s[|s| - 1] + [x]]
  }

  // What comes before the first head.
  function Header<T>(head: T -> bool, xs: seq<T>): seq<T> {
    if xs == [] then []
    else if Sections(head, xs) == [] then Header(head, xs[..|xs| - 1]) + [xs[|xs| - 1]]
    else Header(head, xs[..|xs| - 1])
  }

  lemma Snoc<T>(head: T -> bool, xs: seq<T>, x: T)
    ensures Sections(head, xs + [x]) == Grown(head, Sections(head, xs), x)
    ensures Header(head, xs + [x]) ==
      if Sections(head, xs) == [] && !head(x) then Header(head, xs) + [x] else Header(head, xs)
  {
    assert (xs + [x])[..|xs|] == xs;
  }

  lemma {:induction false} Alike<T(!new)>(f: T -> bool, g: T -> bool, xs: seq<T>)
    requires forall x: T :: f(x) == g(x)
    ensures Sections(f, xs) == Sections(g, xs) && Header(f, xs) == Header(g, xs)
  {
    if xs != [] { Alike(f, g, xs[..|xs| - 1]); }
  }

  // ---- These are the header and the sections ---------------------------------------

  function Flatten<T>(sections: seq<seq<T>>): seq<T> {
    if sections == [] then [] else Flatten(sections[..|sections| - 1]) + sections[|sections| - 1]
  }

  predicate IsSection<T>(head: T -> bool, s: seq<T>) {
    s != [] && head(s[0]) && forall i :: 0 < i < |s| ==> !head(s[i])
  }

  // Nothing is lost or moved, the header has no head, and a section exactly one, in front.
  lemma {:induction false} Partition<T>(head: T -> bool, xs: seq<T>)
    ensures xs == Header(head, xs) + Flatten(Sections(head, xs))
    ensures forall x :: x in Header(head, xs) ==> !head(x)
    ensures forall i :: 0 <= i < |Sections(head, xs)| ==> IsSection(head, Sections(head, xs)[i])
  {
    if xs != [] {
      var before, x := xs[..|xs| - 1], xs[|xs| - 1];
      Partition(head, before);
      var s := Sections(head, before);
      assert xs == before + [x];
      if head(x) {
        assert (s + [[x]])[..|s|] == s;
      } else if s != [] {
        assert Sections(head, xs)[..|s| - 1] == s[..|s| - 1];
        assert IsSection(head, s[|s| - 1]);
      }
    }
  }

  lemma GrownAfter<T>(head: T -> bool, s: seq<seq<T>>, t: seq<seq<T>>, x: T)
    requires head(x) || t != []
    ensures Grown(head, s + t, x) == s + Grown(head, t, x)
  {
    if !head(x) { assert (s + t)[..|s + t| - 1] == s + t[..|t| - 1]; }
  }

  ghost predicate CutAt<T>(head: T -> bool, a: seq<T>, b: seq<T>) {
    && Sections(head, a + b) == Sections(head, a) + Sections(head, b)
    && Header(head, a + b) == Header(head, a)
    && (b != [] ==> Sections(head, b) != [])
  }

  lemma CutStep<T>(head: T -> bool, a: seq<T>, b: seq<T>, x: T)
    requires CutAt(head, a, b) && (head(x) || b != [])
    ensures CutAt(head, a, b + [x])
  {
    Snoc(head, b, x);
    Snoc(head, a + b, x);
    GrownAfter(head, Sections(head, a), Sections(head, b), x);
    assert (a + b) + [x] == a + (b + [x]);
  }

  // Cutting the list before a head cuts its sections there too and leaves the header.
  lemma {:induction false} Concat<T>(head: T -> bool, a: seq<T>, b: seq<T>)
    requires b != [] ==> head(b[0])
    ensures CutAt(head, a, b)
  {
    if b == [] {
      assert a + b == a;
    } else {
      var before, x := b[..|b| - 1], b[|b| - 1];
      Concat(head, a, before);
      CutStep(head, a, before, x);
      assert b == before + [x];
    }
  }

  lemma SectionsAreIn<T>(head: T -> bool, xs: seq<T>, i: nat)
    requires i < |Sections(head, xs)|
    ensures var s := Sections(head, xs)[i]; s != [] && head(s[0]) && s[0] in xs
  {
    Partition(head, xs);
    FlattenHas(Sections(head, xs), i);
  }

  lemma {:induction false} FlattenHas<T>(sections: seq<seq<T>>, i: nat)
    requires i < |sections|
    ensures forall x :: x in sections[i] ==> x in Flatten(sections)
  {
    if i < |sections| - 1 { FlattenHas(sections[..|sections| - 1], i); }
  }

  // One value for each section, in order.
  ghost predicate Paired<D, T>(rel: (D, seq<T>) -> bool, values: seq<D>, sections: seq<seq<T>>) {
    |values| == |sections| && forall i :: 0 <= i < |sections| ==> rel(values[i], sections[i])
  }

  lemma PairedConcat<D, T>(rel: (D, seq<T>) -> bool, u: seq<D>, s: seq<seq<T>>, v: seq<D>, t: seq<seq<T>>)
    requires Paired(rel, u, s) && Paired(rel, v, t)
    ensures Paired(rel, u + v, s + t)
  {
    forall i | 0 <= i < |s + t| ensures rel((u + v)[i], (s + t)[i]) {
      if i >= |s| { assert (s + t)[i] == t[i - |s|]; }
    }
  }

  // ---- A one-pass reader of such a list -----------------------------------------------

  // opens: what a head element opens; more: what an element adds to the open section; note: what it adds to the
  // header while no section is open.
  datatype Reader<!T, !H, !D> = Reader(opens: T -> Option<D>, more: (D, T) -> D, note: (H, T) -> H) {
    function Head(): T -> bool { t => opens(t).Some? }

    // The last of the sections is the open one.
    function Step(header: H, sections: seq<D>, x: T): (H, seq<D>) {
      var grown := match opens(x) case Some(d) => sections + [d] case None => sections;
      var last := |grown| - 1;
      if last < 0 then (note(header, x), grown) else (header, grown[last := more(grown[last], x)])
    }

    function Read(start: H, xs: seq<T>): (H, seq<D>) {
      if xs == [] then (start, [])
      else
        var (header, sections) := Read(start, xs[..|xs| - 1]);
        Step(header, sections, xs[|xs| - 1])
    }

    // What the reader should give for the header and for one section on its own.
    function Noted(start: H, xs: seq<T>): H {
      if xs == [] then start else note(Noted(start, xs[..|xs| - 1]), xs[|xs| - 1])
    }

    function Described(s: seq<T>): D
      requires s != [] && opens(s[0]).Some?
    {
      more(if |s| == 1 then opens(s[0]).value else Described(s[..|s| - 1]), s[|s| - 1])
    }

    ghost predicate Describes(sections: seq<D>, cut: seq<seq<T>>) {
      Paired((d: D, s: seq<T>) => s != [] && opens(s[0]).Some? && d == Described(s), sections, cut)
    }

    lemma ReadTwo(start: H, x: T, y: T)
      requires opens(x).None? && opens(y).Some?
      ensures Read(start, [x, y]) == (note(start, x), [more(opens(y).value, y)])
    {
      assert [] + [x] == [x] && [x] + [y] == [x, y];
      ReadSnoc(start, [], x);
      ReadSnoc(start, [x], y);
      var d := opens(y).value;
      assert Read(start, [x]) == (note(start, x), []);
      assert [] + [d] == [d] && [d][0 := more(d, y)] == [more(d, y)];
    }

    lemma ReadSnoc(start: H, xs: seq<T>, x: T)
      ensures Read(start, xs + [x]) == Step(Read(start, xs).0, Read(start, xs).1, x)
    {
      assert (xs + [x])[..|xs|] == xs;
    }

    lemma DescribedOne(x: T)
      requires opens(x).Some?
      ensures Described([x]) == more(opens(x).value, x)
    {}

    lemma DescribedSnoc(s: seq<T>, x: T)
      requires s != [] && opens(s[0]).Some?
      ensures Described(s + [x]) == more(Described(s), x)
    {
      assert (s + [x])[..|s|] == s;
    }

    lemma NotedSnoc(start: H, xs: seq<T>, x: T)
      ensures Noted(start, xs + [x]) == note(Noted(start, xs), x)
    {
      assert (xs + [x])[..|xs|] == xs;
    }

    // One element more: a new section, a longer last section, or a longer header.
    lemma OpenStep(header: H, sections: seq<D>, cut: seq<seq<T>>, x: T)
      requires Describes(sections, cut) && opens(x).Some?
      ensures Describes(Step(header, sections, x).1, cut + [[x]])
    {
      DescribedOne(x);
    }

    lemma MoreStep(header: H, sections: seq<D>, cut: seq<seq<T>>, x: T)
      requires Describes(sections, cut) && cut != [] && opens(x).None?
      ensures Describes(Step(header, sections, x).1, cut[..|cut| - 1] + [cut[|cut| - 1] + [x]])
    {
      var last := cut[|cut| - 1];
      DescribedSnoc(last, x);
      assert (last + [x])[0] == last[0];
    }

    // Reading in one pass is cutting first and reading the parts on their own.
    lemma {:induction false} ReadIsSectioned(start: H, xs: seq<T>)
      ensures Read(start, xs).0 == Noted(start, Header(Head(), xs))
      ensures Describes(Read(start, xs).1, Sections(Head(), xs))
    {
      if xs != [] {
        var before, x := xs[..|xs| - 1], xs[|xs| - 1];
        ReadIsSectioned(start, before);
        var (header, sections) := Read(start, before);
        var cut := Sections(Head(), before);
        if opens(x).Some? {
          OpenStep(header, sections, cut, x);
        } else if cut == [] {
          NotedSnoc(start, Header(Head(), before), x);
        } else {
          MoreStep(header, sections, cut, x);
        }
      }
    }
  }
}
