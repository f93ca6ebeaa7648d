// The string functions of Go's standard library that internal/storage/bcachefs/bcachefs.go (lines 160-457) and
// cmd/daemon/api.go (lines 1469-1480) call.
module Text {
  predicate HasSuffix(s: string, t: string) {
    |t| <= |s| && s[|s| - |t|..] == t
  }

  predicate MatchesAt(s: string, t: string, i: nat) {
    i + |t| <= |s| && s[i..i + |t|] == t
  }

  // First position of t in s, -1 if there is none.
  function Index(s: string, t: string): (i: int)
    ensures -1 <= i <= |s| - |t| || i == -1
    ensures i >= 0 ==> MatchesAt(s, t, i) && forall j :: 0 <= j < i ==> !MatchesAt(s, t, j)
    ensures i == -1 ==> forall j: nat :: !MatchesAt(s, t, j)
  {
    IndexFrom(s, t, 0)
  }

  function IndexFrom(s: string, t: string, from: nat): (i: int)
    requires from <= |s| + 1
    ensures i == -1 || (from <= i <= |s| - |t| && MatchesAt(s, t, i))
    ensures i >= 0 ==> forall j :: from <= j < i ==> !MatchesAt(s, t, j)
    ensures i == -1 ==> forall j: nat :: from <= j ==> !MatchesAt(s, t, j)
    decreases |s| + 1 - from
  {
    if from + |t| > |s| then -1
    else if s[from..from + |t|] == t then from
    else IndexFrom(s, t, from + 1)
  }

  // The first occurrence of one character.
  lemma CharIndex(s: string, c: char)
    ensures Index(s, [c]) == -1 <==> c !in s
    ensures var i := Index(s, [c]); i >= 0 ==> s[i] == c && c !in s[..i]
  {
    assert forall j :: 0 <= j < |s| ==> (MatchesAt(s, [c], j) <==> s[j..j + 1] == [s[j]] == [c]);
    if c in s {
      var j :| 0 <= j < |s| && s[j] == c;
      assert MatchesAt(s, [c], j);
    }
  }

  predicate Contains(s: string, t: string) { Index(s, t) >= 0 }

  // strings.SplitN(s, t, 2)[1], for a t that occurs in s.
  function After(s: string, t: string): string
    requires Contains(s, t)
  {
    s[Index(s, t) + |t|..]
  }

  // strings.Split for a one-character separator: never empty.
  function Split(s: string, sep: char): (parts: seq<string>)
    ensures parts != []
  {
    if s == "" then [""] else Put(s[0], sep, Split(s[1..], sep))
  }

  function Put(c: char, sep: char, parts: seq<string>): (r: seq<string>)
    requires parts != []
    ensures r != []
  {
    if c == sep then [""] + parts else [[c] + parts[0]] + parts[1..]
  }

  lemma PutBefore(c: char, sep: char, p: seq<string>, q: seq<string>)
    requires p != []
    ensures Put(c, sep, p + q) == Put(c, sep, p) + q
  {}

  // A separator cuts a text into two that can be split on their own.
  lemma {:induction false} SplitJoin(a: string, b: string, sep: char)
    ensures Split(a + [sep] + b, sep) == Split(a, sep) + Split(b, sep)
  {
    var whole := a + [sep] + b;
    if a == "" {
      assert whole[0] == sep && whole[1..] == b;
    } else {
      assert whole[0] == a[0] && whole[1..] == a[1..] + [sep] + b;
      SplitJoin(a[1..], b, sep);
      PutBefore(a[0], sep, Split(a[1..], sep), Split(b, sep));
    }
  }

  lemma {:induction false} SplitOne(s: string, sep: char)
    requires sep !in s
    ensures Split(s, sep) == [s]
  {
    if s != "" {
      SplitOne(s[1..], sep);
      assert [s[0]] + s[1..] == s;
    }
  }

  lemma SplitTwo(a: string, b: string, sep: char)
    requires sep !in a && sep !in b
    ensures Split(a + [sep] + b, sep) == [a, b]
  {
    SplitJoin(a, b, sep);
    SplitOne(a, sep);
    SplitOne(b, sep);
  }

  function Join(parts: seq<string>, sep: char): string {
    if parts == [] then "" else if |parts| == 1 then parts[0] else parts[0] + [sep] + Join(parts[1..], sep)
  }

  lemma {:induction false} SplitJoins(parts: seq<string>, sep: char)
    requires parts != [] && forall p <- parts :: sep !in p
    ensures Split(Join(parts, sep), sep) == parts
  {
    assert parts[0] in parts;
    SplitOne(parts[0], sep);
    if |parts| > 1 {
      forall p <- parts[1..] ensures sep !in p { assert p in parts; }
      SplitJoins(parts[1..], sep);
      SplitJoin(parts[0], Join(parts[1..], sep), sep);
      assert parts == [parts[0]] + parts[1..];
    } else {
      assert parts == [parts[0]];
    }
  }

  // Unicode White_Space.
  predicate IsSpace(c: char) {
    || '\t' <= c <= '\r' || c == ' ' || c == '\U{85}' || c == '\U{A0}' || c == '\U{1680}'
    || '\U{2000}' <= c <= '\U{200A}' || c == '\U{2028}' || c == '\U{2029}' || c == '\U{202F}'
    || c == '\U{205F}' || c == '\U{3000}'
  }

  function TrimLeft(s: string): (t: string)
    ensures t != "" ==> !IsSpace(t[0])
    ensures |t| <= |s| && HasSuffix(s, t)
  {
    if s != "" && IsSpace(s[0]) then TrimLeft(s[1..]) else s
  }

  function TrimRight(s: string): (t: string)
    ensures t != "" ==> !IsSpace(t[|t| - 1])
    ensures t <= s
  {
    if s != "" && IsSpace(s[|s| - 1]) then TrimRight(s[..|s| - 1]) else s
  }

  function TrimSpace(s: string): string { TrimRight(TrimLeft(s)) }

  // Length of the first run of non-space characters.
  function WordLength(s: string): (n: nat)
    ensures n <= |s|
    ensures forall i :: 0 <= i < n ==> !IsSpace(s[i])
    ensures n < |s| ==> IsSpace(s[n])
  {
    if s == "" || IsSpace(s[0]) then 0 else 1 + WordLength(s[1..])
  }

  // strings.Fields: the maximal runs of non-space characters.
  function Fields(s: string): (words: seq<string>)
    ensures forall w :: w in words ==> w != "" && forall i :: 0 <= i < |w| ==> !IsSpace(w[i])
    decreases |s|
  {
    if s == "" then []
    else if IsSpace(s[0]) then Fields(s[1..])
    else
      var n := WordLength(s);
      [s[..n]] + Fields(s[n..])
  }

  predicate IsWord(word: string) { word != "" && forall c <- word :: !IsSpace(c) }

  lemma ThreeFields(a: string, b: string, c: string, rest: string)
    requires IsWord(a) && IsWord(b) && IsWord(c)
    ensures Fields(a + " " + (b + " " + (c + " " + rest))) == [a, b, c] + Fields(rest)
  {
    FieldsOf(a, b + " " + (c + " " + rest));
    FieldsOf(b, c + " " + rest);
    FieldsOf(c, rest);
    ThreeInFront(a, b, c, Fields(rest));
  }

  lemma ThreeInFront<T>(a: T, b: T, c: T, rest: seq<T>)
    ensures [a] + ([b] + ([c] + rest)) == [a, b, c] + rest
  {}

  lemma FieldsOf(word: string, rest: string)
    requires IsWord(word)
    ensures Fields(word + " " + rest) == [word] + Fields(rest)
  {
    var s := word + " " + rest;
    assert s[0] == word[0] && word[0] in word;
    WordLengthOf(word, " " + rest);
    assert s == word + (" " + rest);
    assert s[..|word|] == word && s[|word|..] == " " + rest;
    assert (" " + rest)[1..] == rest;
  }

  lemma {:induction false} WordLengthOf(word: string, rest: string)
    requires (forall c <- word :: !IsSpace(c)) && rest != "" && IsSpace(rest[0])
    ensures WordLength(word + rest) == |word|
  {
    if word == "" {
      assert word + rest == rest;
    } else {
      assert word[0] in word && (word + rest)[1..] == word[1..] + rest;
      WordLengthOf(word[1..], rest);
    }
  }

  // ---- The first word of a text ------------------------------------------------------

  predicate AllSpace(s: string) { forall k :: 0 <= k < |s| ==> IsSpace(s[k]) }

  // Only spaces stand before the position, the word stands there, and a space or the end follows it.
  predicate IsWordAt(s: string, word: string, i: nat) {
    && i + |word| <= |s| && word != ""
    && (forall k :: 0 <= k < i ==> IsSpace(s[k]))
    && (forall k :: 0 <= k < |word| ==> s[i + k] == word[k] && !IsSpace(word[k]))
    && (i + |word| < |s| ==> IsSpace(s[i + |word|]))
  }

  ghost predicate StartsWithWord(s: string, word: string) {
    exists i: nat :: IsWordAt(s, word, i)
  }

  lemma WordStarts(s: string, word: string, i: nat)
    requires IsWordAt(s, word, i)
    ensures i < |s| && !IsSpace(s[i]) && s[i..i + |word|] == word
    ensures forall k :: i <= k < i + |word| ==> !IsSpace(s[k])
  {
    assert s[i + 0] == word[0];
    forall k | i <= k < i + |word| ensures !IsSpace(s[k]) { assert s[i + (k - i)] == word[k - i]; }
  }

  lemma OneFirstWord(s: string, a: string, b: string, i: nat, j: nat)
    requires IsWordAt(s, a, i) && IsWordAt(s, b, j)
    ensures a == b && i == j
  {
    WordStarts(s, a, i);
    WordStarts(s, b, j);
  }

  lemma {:induction false} FirstFieldAt(s: string) returns (i: nat)
    ensures Fields(s) == [] <==> AllSpace(s)
    ensures Fields(s) != [] ==> IsWordAt(s, Fields(s)[0], i)
  {
    i := 0;
    if s != "" {
      if IsSpace(s[0]) {
        i := FirstFieldAt(s[1..]);
        assert s == [s[0]] + s[1..];
        SpaceAhead(s[0], s[1..]);
        if Fields(s) != [] { WordAfterSpace(s[0], s[1..], Fields(s)[0], i); }
        i := i + 1;
      } else {
        assert Fields(s)[0] == s[..WordLength(s)] && WordLength(s) > 0;
      }
    }
  }

  // The other words are those of what follows the first.
  lemma OtherFields(s: string, words: seq<string>, i: nat)
    requires words != [] && words == Fields(s) && IsWordAt(s, words[0], i)
    ensures Fields(s[i + |words[0]|..]) == words[1..]
  {
    var n := |words[0]|;
    WordStarts(s, words[0], i);
    SkipSpaces(s, i);
    WordInFront(s[i..], n);
    assert s[i..][n..] == s[i + n..];
  }

  lemma {:induction false} SkipSpaces(s: string, i: nat)
    requires i <= |s| && forall k :: 0 <= k < i ==> IsSpace(s[k])
    ensures Fields(s[i..]) == Fields(s)
  {
    if i == 0 {
      assert s[0..] == s;
    } else {
      SkipSpaces(s, i - 1);
      assert s[i - 1..][0] == s[i - 1] && s[i - 1..][1..] == s[i..];
    }
  }

  lemma WordInFront(s: string, n: nat)
    requires 0 < n <= |s| && Fields(s) != [] && |Fields(s)[0]| == n && !IsSpace(s[0])
    ensures Fields(s[n..]) == Fields(s)[1..]
  {
    assert Fields(s)[0] == s[..WordLength(s)];
  }

  lemma SpaceAhead(c: char, s: string)
    requires IsSpace(c)
    ensures AllSpace([c] + s) <==> AllSpace(s)
  {
    assert forall k :: 0 <= k < |s| ==> s[k] == ([c] + s)[k + 1];
  }

  lemma WordAfterSpace(c: char, s: string, word: string, i: nat)
    requires IsSpace(c) && IsWordAt(s, word, i)
    ensures IsWordAt([c] + s, word, i + 1)
  {
    assert forall k :: 0 <= k < |s| ==> ([c] + s)[k + 1] == s[k];
    forall k | 0 <= k < |word| ensures ([c] + s)[i + 1 + k] == word[k] { assert s[i + k] == word[k]; }
  }

  lemma FirstWordIs(s: string, word: string)
    ensures Fields(s) == [] <==> AllSpace(s)
    ensures (Fields(s) != [] && Fields(s)[0] == word) <==> StartsWithWord(s, word)
  {
    var i := FirstFieldAt(s);
    if StartsWithWord(s, word) {
      var j: nat :| IsWordAt(s, word, j);
      WordStarts(s, word, j);
      OneFirstWord(s, Fields(s)[0], word, i, j);
    }
  }

  lemma {:induction false} TrimLeftKeepsFirstWord(s: string, word: string)
    ensures AllSpace(TrimLeft(s)) <==> AllSpace(s)
    ensures StartsWithWord(TrimLeft(s), word) <==> StartsWithWord(s, word)
  {
    if s != "" && IsSpace(s[0]) {
      var c, rest := s[0], s[1..];
      assert s == [c] + rest;
      SpaceAhead(c, rest);
      TrimLeftKeepsFirstWord(rest, word);
      if StartsWithWord(rest, word) {
        var i: nat :| IsWordAt(rest, word, i);
        WordAfterSpace(c, rest, word, i);
      }
      if StartsWithWord(s, word) {
        var i: nat :| IsWordAt(s, word, i);
        WordStarts(s, word, i);
        WordBeforeSpace(c, rest, word, i);
      }
    }
  }

  lemma WordBeforeSpace(c: char, s: string, word: string, i: nat)
    requires i > 0 && IsWordAt([c] + s, word, i)
    ensures IsWordAt(s, word, i - 1)
  {
    assert forall k :: 0 <= k < |s| ==> s[k] == ([c] + s)[k + 1];
    forall k | 0 <= k < |word| ensures s[i - 1 + k] == word[k] { assert ([c] + s)[i + k] == word[k]; }
  }

  lemma {:induction false} TrimRightIsPrefix(s: string)
    ensures TrimRight(s) <= s && AllSpace(s[|TrimRight(s)|..])
  {
    if s != "" && IsSpace(s[|s| - 1]) {
      TrimRightIsPrefix(s[..|s| - 1]);
      var n := |TrimRight(s)|;
      assert s[n..] == s[..|s| - 1][n..] + [s[|s| - 1]];
    }
  }

  lemma TrimRightKeepsFirstWord(s: string, word: string)
    ensures AllSpace(TrimRight(s)) <==> AllSpace(s)
    ensures StartsWithWord(TrimRight(s), word) <==> StartsWithWord(s, word)
  {
    var t := TrimRight(s);
    TrimRightIsPrefix(s);
    assert s == t + s[|t|..];
    SpaceBehind(t, s[|t|..]);
    if StartsWithWord(t, word) {
      var i: nat :| IsWordAt(t, word, i);
      WordInLonger(t, s[|t|..], word, i);
    }
    if StartsWithWord(s, word) {
      var i: nat :| IsWordAt(s, word, i);
      WordInShorter(t, s[|t|..], word, i);
    }
  }

  lemma SpaceBehind(t: string, spaces: string)
    requires AllSpace(spaces)
    ensures AllSpace(t + spaces) <==> AllSpace(t)
  {
    assert forall k :: 0 <= k < |t| ==> t[k] == (t + spaces)[k];
  }

  lemma WordInLonger(t: string, spaces: string, word: string, i: nat)
    requires AllSpace(spaces) && IsWordAt(t, word, i)
    ensures IsWordAt(t + spaces, word, i)
  {
    var s := t + spaces;
    assert forall k :: 0 <= k < |t| ==> s[k] == t[k];
    assert forall k :: |t| <= k < |s| ==> IsSpace(s[k]);
    forall k | 0 <= k < |word| ensures s[i + k] == word[k] { assert t[i + k] == word[k]; }
  }

  lemma WordInShorter(t: string, spaces: string, word: string, i: nat)
    requires AllSpace(spaces) && IsWordAt(t + spaces, word, i)
    ensures IsWordAt(t, word, i)
  {
    var s := t + spaces;
    WordStarts(s, word, i);
    assert forall k :: |t| <= k < |s| ==> IsSpace(s[k]);
    assert forall k :: 0 <= k < |t| ==> t[k] == s[k];
    assert !IsSpace(s[i + |word| - 1]);
    assert i + |word| <= |t|;
    forall k | 0 <= k < |word| ensures t[i + k] == word[k] { assert s[i + k] == word[k]; }
  }

  // What trimming leaves: spaces on both sides of it, and none at its ends.
  predicate IsTrimmedAt(t: string, s: string, i: nat) {
    && i + |t| <= |s| && s[i..i + |t|] == t
    && AllSpace(s[..i]) && AllSpace(s[i + |t|..])
    && (t != "" ==> !IsSpace(t[0]) && !IsSpace(t[|t| - 1]))
  }

  ghost predicate IsTrimmed(t: string, s: string) { exists i: nat :: IsTrimmedAt(t, s, i) }

  lemma {:induction false} TrimLeftIsSuffix(s: string)
    ensures AllSpace(s[..|s| - |TrimLeft(s)|]) && s[|s| - |TrimLeft(s)|..] == TrimLeft(s)
  {
    if s != "" && IsSpace(s[0]) {
      TrimLeftIsSuffix(s[1..]);
      var n := |s| - |TrimLeft(s)|;
      assert s[..n] == [s[0]] + s[1..][..n - 1];
      SpaceAhead(s[0], s[1..][..n - 1]);
    }
  }

  lemma TrimSpaceIs(s: string)
    ensures IsTrimmed(TrimSpace(s), s)
  {
    TrimLeftIsSuffix(s);
    TrimRightInside(s, TrimLeft(s), |s| - |TrimLeft(s)|);
  }

  lemma TrimRightInside(s: string, left: string, i: nat)
    requires i <= |s| && s[i..] == left && AllSpace(s[..i])
    requires left != "" ==> !IsSpace(left[0])
    ensures IsTrimmed(TrimRight(left), s)
  {
    TrimRightIsPrefix(left);
    TrimmedInside(s, left, TrimRight(left), i);
  }

  lemma TrimmedInside(s: string, left: string, t: string, i: nat)
    requires i <= |s| && s[i..] == left && AllSpace(s[..i]) && t <= left && AllSpace(left[|t|..])
    requires left != "" ==> !IsSpace(left[0])
    requires t != "" ==> !IsSpace(t[|t| - 1])
    ensures IsTrimmed(t, s)
  {
    assert s[i..i + |t|] == left[..|t|] == t && s[i + |t|..] == left[|t|..];
    assert IsTrimmedAt(t, s, i);
  }

  // Trimming neither removes nor changes the first word.
  lemma TrimKeepsFirstWord(s: string, word: string)
    ensures AllSpace(TrimSpace(s)) <==> AllSpace(s)
    ensures StartsWithWord(TrimSpace(s), word) <==> StartsWithWord(s, word)
  {
    TrimLeftKeepsFirstWord(s, word);
    TrimRightKeepsFirstWord(TrimLeft(s), word);
  }
}
