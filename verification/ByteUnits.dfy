// Sizes in binary units, with a signed divisor (internal/collector/stats.go, lines 196-207) and with an unsigned one
// (internal/doctor/doctor.go, lines 268-279), in the 64 bits that the source uses.
module ByteUnits {
  const UNIT := 1024
  const TWO_TO_64 := 0x1_0000_0000_0000_0000
  const TWO_TO_63 := 0x8000_0000_0000_0000
  const SUFFIXES := "KMGTPE"

  // Conversion of a product to int64 and uint64.
  function Int64(x: int): int {
    var low := x % TWO_TO_64;
    if low >= TWO_TO_63 then low - TWO_TO_64 else low
  }

  function Uint64(x: int): int { x % TWO_TO_64 }

  // Both keep the number modulo 2^64, in the range of their type.
  lemma ConversionsAre(x: int)
    ensures -0x8000_0000_0000_0000 <= Int64(x) < 0x8000_0000_0000_0000
    ensures 0 <= Uint64(x) < 0x1_0000_0000_0000_0000
    ensures (x - Int64(x)) % 0x1_0000_0000_0000_0000 == 0 && (x - Uint64(x)) % 0x1_0000_0000_0000_0000 == 0
  {}

  // What is printed: the number itself, or the quotient b / div with a suffix.
  datatype Size = Bytes(n: nat) | Quotient(b: nat, div: int, suffix: char)

  function Power(e: nat): (p: nat)
    ensures p > 0
  {
    if e == 0 then 1 else UNIT * Power(e - 1)
  }

  lemma {:induction false} PowerGrows(d: nat, e: nat)
    requires d < e
    ensures UNIT * Power(d) <= Power(e)
  {
    if d < e - 1 { PowerGrows(d, e - 1); }
  }

  lemma PowersOfUnit()
    ensures Power(6) == 0x1000_0000_0000_0000 < TWO_TO_63 && Power(7) > TWO_TO_64
  {
    assert Power(1) == 1024;
    assert Power(2) == 0x10_0000;
    assert Power(3) == 0x4000_0000;
    assert Power(4) == 0x100_0000_0000;
    assert Power(5) == 0x4_0000_0000_0000;
  }

  // The number is printed as the one quotient between 1 and 1024 that a suffix stands for.
  ghost predicate IsSizeOf(size: Size, b: nat) {
    match size
    case Bytes(n) => n == b < UNIT
    case Quotient(c, div, suffix) =>
      c == b && exists e: nat :: e < |SUFFIXES| && div == Power(e + 1) && suffix == SUFFIXES[e] && div <= b < UNIT * div
  }

  // The suffixes and what they stand for.
  predicate InTable(suffix: char, div: int) {
    || (suffix == 'K' && div == 0x400)
    || (suffix == 'M' && div == 0x10_0000)
    || (suffix == 'G' && div == 0x4000_0000)
    || (suffix == 'T' && div == 0x100_0000_0000)
    || (suffix == 'P' && div == 0x4_0000_0000_0000)
    || (suffix == 'E' && div == 0x1000_0000_0000_0000)
  }

  lemma SizeExactlyWhen(size: Size, b: nat)
    ensures IsSizeOf(size, b) <==>
      match size
      case Bytes(n) => n == b < 1024
      case Quotient(c, div, suffix) => c == b && InTable(suffix, div) && div <= b < 1024 * div
  {
    if size.Quotient? {
      forall e: nat | e < |SUFFIXES| ensures InTable(SUFFIXES[e], Power(e + 1)) { TableAt(e); }
      if InTable(size.suffix, size.div) {
        var e := TableIndex(size.suffix, size.div);
        assert size.div == Power(e + 1);
      }
    }
  }

  lemma Powers()
    ensures Power(1) == 0x400 && Power(2) == 0x10_0000 && Power(3) == 0x4000_0000
    ensures Power(4) == 0x100_0000_0000 && Power(5) == 0x4_0000_0000_0000 && Power(6) == 0x1000_0000_0000_0000
  {
    PowersOfUnit();
  }

  lemma TableAt(e: nat)
    requires e < |SUFFIXES|
    ensures InTable(SUFFIXES[e], Power(e + 1))
  {
    Powers();
    assert |SUFFIXES| == 6;
  }

  lemma TableIndex(suffix: char, div: int) returns (e: nat)
    requires InTable(suffix, div)
    ensures e < |SUFFIXES| && SUFFIXES[e] == suffix && Power(e + 1) == div
  {
    Powers();
    e := if suffix == 'K' then 0 else if suffix == 'M' then 1 else if suffix == 'G' then 2
         else if suffix == 'T' then 3 else if suffix == 'P' then 4 else 5;
  }

  lemma SizeIsUnique(s: Size, t: Size, b: nat)
    requires IsSizeOf(s, b) && IsSizeOf(t, b)
    ensures s == t
  {
    if s.Quotient? && t.Quotient? {
      var d: nat :| d < |SUFFIXES| && s.div == Power(d + 1) && s.suffix == SUFFIXES[d];
      var e: nat :| e < |SUFFIXES| && t.div == Power(e + 1) && t.suffix == SUFFIXES[e];
      if d < e { PowerGrows(d + 1, e + 1); }
      if e < d { PowerGrows(e + 1, d + 1); }
    }
  }

  // div = 1024^(exp + 1) and n is b divided by it, rounded down.
  ghost predicate Scaling(b: nat, div: int, exp: nat, n: int) {
    div == Power(exp + 1) && 1 <= n && n * div <= b < (n + 1) * div
  }

  lemma DivideAgain(b: nat, div: int, n: int)
    requires div > 0 && n >= UNIT && n * div <= b < (n + 1) * div
    ensures var m := n / UNIT; 1 <= m && m * (UNIT * div) <= b < (m + 1) * (UNIT * div)
    ensures UNIT * div <= b
  {
    var m := n / UNIT;
    AtMostTimes(UNIT * m, n, div);
    AtMostTimes(n + 1, UNIT * (m + 1), div);
    AtMostTimes(UNIT, n, div);
    assert (UNIT * m) * div == m * (UNIT * div) && (UNIT * (m + 1)) * div == (m + 1) * (UNIT * div);
  }

  lemma AtMostTimes(a: int, b: int, c: int)
    requires a <= b && c >= 0
    ensures a * c <= b * c
  {}

  // An n of at least 1024 means that the next divisor is still within b, so a suffix is left for it and nothing
  // overflows.
  lemma ScaleOn(b: nat, div: int, exp: nat, n: int)
    requires b < TWO_TO_64 && Scaling(b, div, exp, n) && n >= UNIT
    ensures Scaling(b, UNIT * div, exp + 1, n / UNIT)
    ensures exp + 1 < |SUFFIXES| && 0 < UNIT * div < TWO_TO_63
  {
    DivideAgain(b, div, n);
    PowersOfUnit();
    PowerAtLeast(7, exp + 2);
    PowerAtLeast(exp + 2, 6);
  }

  lemma PowerAtLeast(d: nat, e: nat)
    ensures d <= e ==> Power(d) <= Power(e)
  {
    if d < e { PowerGrows(d, e); }
  }

  // For every uint64: the divisor never leaves int64 and the suffix is in range.
  method FormatBytes(b: nat) returns (size: Size)
    requires b < TWO_TO_64
    ensures IsSizeOf(size, b)
  {
    if b < UNIT { return Bytes(b); }
    var div, exp := UNIT, 0;
    var n := b / UNIT;
    assert Power(1) == UNIT;
    while n >= UNIT
      invariant Scaling(b, div, exp, n) && exp < |SUFFIXES|
    {
      ScaleOn(b, div, exp, n);
      div := Int64(UNIT * div);
      exp := exp + 1;
      n := n / UNIT;
    }
    AtMostTimes(1, n, div);
    AtMostTimes(n + 1, UNIT, div);
    size := Quotient(b, div, SUFFIXES[exp]);
  }

  // The unsigned variant; by SizeIsUnique it prints the same.
  method FmtBytes(b: nat) returns (size: Size)
    requires b < TWO_TO_64
    ensures IsSizeOf(size, b)
  {
    if b < UNIT { return Bytes(b); }
    var div, exp := UNIT, 0;
    var n := b / UNIT;
    assert Power(1) == UNIT;
    while n >= UNIT
      invariant Scaling(b, div, exp, n) && exp < |SUFFIXES|
    {
      ScaleOn(b, div, exp, n);
      div := Uint64(UNIT * div);
      exp := exp + 1;
      n := n / UNIT;
    }
    AtMostTimes(1, n, div);
    AtMostTimes(n + 1, UNIT, div);
    size := Quotient(b, div, SUFFIXES[exp]);
  }
}
