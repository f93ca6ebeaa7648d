// What single lines of bcachefs show-super say (internal/storage/bcachefs/bcachefs.go, lines 282-429).
module SuperLines {
  import opened Domain
  import opened Text

  // tag is the text of the Label: line.
  datatype Device = Device(index: string, path: string, model: string, tag: string)

  datatype Header = Header(
    uuid: string,
    tag: string,
    dataReplicas: int,
    metadataReplicas: int,
    foregroundTarget: string,
    metadataTarget: string,
    backgroundTarget: string)

  datatype Super = Super(header: Header, devices: seq<Device>)

  const EMPTY := Header("", "", 0, 0, "", "", "")

  // ---- The line that opens a device section ------------------------------------------

  // The colon that ends the device number, if the line opens a device section.
  function DeviceColon(line: string): (colon: int)
    ensures colon == -1 || (Contains(line, "Device ") && Index(line, "Device ") + 7 <= colon < |line|)
  {
    if Contains(line, "Device ") && Contains(line, ":") && !Contains(line, "Device index:") then
      var idx := Index(line, "Device ");
      var colon := Index(line[idx..], ":");
      if colon == -1 then -1
      else
        ColonFollows(line, idx, colon);
        idx + colon
    else -1
  }

  lemma ColonFollows(line: string, idx: nat, colon: nat)
    requires MatchesAt(line, "Device ", idx) && MatchesAt(line[idx..], ":", colon)
    ensures 7 <= colon && idx + colon < |line|
  {
    assert line[idx..][colon..colon + 1][0] == ':';
    forall c | 0 <= c < 7 ensures line[idx..][c] != ':' {
      assert line[idx..][c] == line[idx..idx + 7][c];
    }
  }

  // The device a line opens, still without a label.
  function DeviceIn(line: string): Option<Device> {
    var colon := DeviceColon(line);
    if colon == -1 then None else Some(DeviceAt(line, Index(line, "Device ") + 7, colon))
  }

  function DeviceAt(line: string, start: nat, colon: nat): Device
    requires start <= colon < |line|
  {
    var fields := Fields(line[colon + 1..]);
    Device(TrimSpace(line[start..colon]), FieldAt(fields, 0), FieldAt(fields, 1), "")
  }

  function FieldAt(fields: seq<string>, k: nat): string { if |fields| > k then fields[k] else "" }

  // A number follows "Device ", up to a colon, on a line without "Device index:".
  predicate OpensDevice(line: string) {
    Contains(line, "Device ") && !Contains(line, "Device index:") && ':' in line[Index(line, "Device ") + 7..]
  }

  lemma DeviceColonIs(line: string)
    ensures DeviceColon(line) != -1 <==> OpensDevice(line)
    ensures var colon := DeviceColon(line);
      colon != -1 ==> line[colon] == ':' && ':' !in line[Index(line, "Device ") + 7..colon]
  {
    CharIndex(line, ':');
    if Contains(line, "Device ") {
      var idx := Index(line, "Device ");
      ColonBehind(line, idx);
      CharIndex(line[idx..], ':');
    }
  }

  lemma ColonBehind(line: string, idx: nat)
    requires MatchesAt(line, "Device ", idx)
    ensures ':' in line[idx..] <==> ':' in line[idx + 7..]
    ensures ':' in line[idx..] ==> ':' in line
    ensures forall i :: 7 <= i <= |line| - idx ==> (':' !in line[idx..][..i] ==> ':' !in line[idx + 7..idx + i])
  {
    assert line[idx..] == "Device " + line[idx + 7..];
    assert forall c <- line[idx..] :: c in line;
    forall i | 7 <= i <= |line| - idx ensures line[idx..][..i] == "Device " + line[idx + 7..idx + i] {
      assert line[idx..][..i] == line[idx..idx + i];
    }
  }

  // The first two words of a text, empty where there is none.
  ghost predicate HasFirstWords(s: string, first: string, second: string) {
    if AllSpace(s) then first == "" == second else exists i: nat :: HasWordsAt(s, first, second, i)
  }

  ghost predicate HasWordsAt(s: string, first: string, second: string, i: nat) {
    && IsWordAt(s, first, i)
    && var rest := s[i + |first|..]; if AllSpace(rest) then second == "" else StartsWithWord(rest, second)
  }

  lemma FirstTwoFields(s: string, fields: seq<string>, first: string, second: string)
    requires fields == Fields(s) && first == FieldAt(fields, 0) && second == FieldAt(fields, 1)
    ensures HasFirstWords(s, first, second)
  {
    var i := FirstFieldAt(s);
    if fields != [] {
      OtherFields(s, fields, i);
      SecondWord(s, first, second, i, fields[1..]);
    }
  }

  lemma SecondWord(s: string, first: string, second: string, i: nat, others: seq<string>)
    requires IsWordAt(s, first, i) && others == Fields(s[i + |first|..]) && second == FieldAt(others, 0)
    ensures HasWordsAt(s, first, second, i)
  {
    FirstWordIs(s[i + |first|..], second);
  }

  // The number of the device ends at the first colon, and path and model follow.
  ghost predicate ReadsFrom(line: string, d: Device, start: nat, colon: nat) {
    && start <= colon < |line| && line[colon] == ':' && ':' !in line[start..colon]
    && IsTrimmed(d.index, line[start..colon])
    && HasFirstWords(line[colon + 1..], d.path, d.model)
  }

  ghost predicate ReadsAfter(line: string, d: Device, start: nat) {
    exists colon: nat :: ReadsFrom(line, d, start, colon)
  }

  // The line opens the section of this device.
  ghost predicate Reads(line: string, d: Device) {
    OpensDevice(line) && ReadsAfter(line, d, Index(line, "Device ") + 7)
  }

  lemma DeviceAtReads(line: string, start: nat, colon: nat)
    requires start <= colon < |line| && line[colon] == ':' && ':' !in line[start..colon]
    ensures ReadsAfter(line, DeviceAt(line, start, colon), start)
  {
    var d, rest := DeviceAt(line, start, colon), line[colon + 1..];
    TrimSpaceIs(line[start..colon]);
    FirstTwoFields(rest, Fields(rest), d.path, d.model);
    assert ReadsFrom(line, d, start, colon);
  }

  lemma DeviceInReads(line: string, d: Device)
    requires DeviceIn(line) == Some(d)
    ensures Reads(line, d)
  {
    var colon := DeviceColon(line);
    DeviceColonIs(line);
    assert colon != -1 && d == DeviceAt(line, Index(line, "Device ") + 7, colon);
    OpenedReads(line, Index(line, "Device ") + 7, colon, d);
  }

  lemma OpenedReads(line: string, start: nat, colon: nat, d: Device)
    requires OpensDevice(line) && start == Index(line, "Device ") + 7
    requires start <= colon < |line| && line[colon] == ':' && ':' !in line[start..colon]
    requires d == DeviceAt(line, start, colon)
    ensures Reads(line, d)
  {
    DeviceAtReads(line, start, colon);
  }

  // ---- The line that gives a value -----------------------------------------------------

  // The first word after the key, if the key occurs and a word follows.
  function WordAfter(line: string, key: string): (r: Option<string>)
    ensures r.Some? ==> Contains(line, key) && r.value != ""
  {
    if Contains(line, key) then
      var fields := Fields(TrimSpace(After(line, key)));
      if |fields| > 0 then Some(fields[0]) else None
    else None
  }

  // A word follows the key if and only if something other than spaces does, and then it is the first one.
  lemma WordAfterIs(line: string, key: string, word: string)
    ensures WordAfter(line, key) == Some(word) <==> Contains(line, key) && StartsWithWord(After(line, key), word)
    ensures WordAfter(line, key) == None <==> !Contains(line, key) || AllSpace(After(line, key))
  {
    if Contains(line, key) {
      var rest := After(line, key);
      FirstWordIs(TrimSpace(rest), word);
      TrimKeepsFirstWord(rest, word);
    }
  }

  ghost predicate GivesWord(line: string, key: string, word: string) {
    Contains(line, key) && StartsWithWord(After(line, key), word)
  }

  function NoneIsEmpty(r: Option<string>): Option<string> {
    if r == Some("(none)") then Some("") else r
  }

  function DeviceLabel(line: string): Option<string> { NoneIsEmpty(WordAfter(line, "Label:")) }

  function PoolLabel(line: string): Option<string> {
    if Contains(line, "Device ") then None else NoneIsEmpty(WordAfter(line, "Label:"))
  }

  // The first word after the label key, where "(none)" stands for no label.
  ghost predicate GivesLabel(line: string, word: string) {
    if word == "" then GivesWord(line, "Label:", "(none)")
    else word != "(none)" && GivesWord(line, "Label:", word)
  }

  lemma LabelsAre(line: string, word: string)
    ensures DeviceLabel(line) == Some(word) <==> GivesLabel(line, word)
    ensures PoolLabel(line) == Some(word) <==> GivesLabel(line, word) && !Contains(line, "Device ")
  {
    LabelIs(line, "Label:", word, "(none)");
  }

  lemma LabelIs(line: string, key: string, word: string, none: string)
    ensures WordAfter(line, key) == Some(word) <==> GivesWord(line, key, word)
    ensures WordAfter(line, key) == Some(none) <==> GivesWord(line, key, none)
    ensures WordAfter(line, key) != Some("")
  {
    WordAfterIs(line, key, word);
    WordAfterIs(line, key, none);
  }

  // fmt.Sscanf with %d: an optional sign and a run of digits, in 64 bits.
  function DigitRun(s: string): (n: nat)
    ensures n <= |s|
  {
    if s == "" || !('0' <= s[0] <= '9') then 0 else 1 + DigitRun(s[1..])
  }

  function Number(digits: string): int {
    if digits == "" then 0
    else 10 * Number(digits[..|digits| - 1]) + (digits[|digits| - 1] as int - '0' as int)
  }

  function ScanInt(word: string): Option<int> {
    var signed := word != "" && (word[0] == '+' || word[0] == '-');
    var rest := if signed then word[1..] else word;
    var digits := rest[..DigitRun(rest)];
    var value := if signed && word[0] == '-' then -Number(digits) else Number(digits);
    if digits == "" || !(-0x8000_0000_0000_0000 <= value < 0x8000_0000_0000_0000) then None else Some(value)
  }

  function NumberAfter(line: string, key: string): Option<int> {
    match WordAfter(line, key)
    case Some(word) => ScanInt(word)
    case None => None
  }

  ghost predicate GivesNumber(line: string, key: string, n: int) {
    exists word :: GivesWord(line, key, word) && ScanInt(word) == Some(n)
  }

  lemma NumberAfterIs(line: string, key: string, n: int)
    ensures NumberAfter(line, key) == Some(n) <==> GivesNumber(line, key, n)
  {
    forall word ensures WordAfter(line, key) == Some(word) <==> GivesWord(line, key, word) {
      WordAfterIs(line, key, word);
    }
  }

  // ---- Scanning what printing gives ------------------------------------------------------

  function Decimal(n: nat): (s: string)
    ensures s != "" && forall c <- s :: '0' <= c <= '9'
  {
    var digit := ['0' + (n % 10) as char];
    if n < 10 then digit else Decimal(n / 10) + digit
  }

  function Printed(n: int): string { if n < 0 then "-" + Decimal(-n) else Decimal(n) }

  lemma {:induction false} NumberOfDecimal(n: nat)
    ensures Number(Decimal(n)) == n
  {
    var s := Decimal(n);
    if n < 10 {
      assert s[..0] == "";
    } else {
      NumberOfDecimal(n / 10);
      assert s[..|s| - 1] == Decimal(n / 10);
    }
  }

  lemma {:induction false} DigitRunIs(digits: string, rest: string)
    requires (forall c <- digits :: '0' <= c <= '9') && EndsNumber(rest)
    ensures DigitRun(digits + rest) == |digits|
  {
    if digits == "" {
      assert digits + rest == rest;
    } else {
      assert digits[0] in digits && (digits + rest)[1..] == digits[1..] + rest;
      forall c <- digits[1..] ensures '0' <= c <= '9' { assert c in digits; }
      DigitRunIs(digits[1..], rest);
    }
  }

  function In64Bits(n: int): Option<int> {
    if -0x8000_0000_0000_0000 <= n < 0x8000_0000_0000_0000 then Some(n) else None
  }

  predicate AreDigits(digits: string) { digits != "" && forall c <- digits :: '0' <= c <= '9' }

  predicate EndsNumber(rest: string) { rest != "" ==> !('0' <= rest[0] <= '9') }

  lemma ScanUnsigned(digits: string, rest: string)
    requires AreDigits(digits) && EndsNumber(rest)
    ensures ScanInt(digits + rest) == In64Bits(Number(digits))
  {
    assert digits[0] in digits && (digits + rest)[0] == digits[0];
    DigitRunIs(digits, rest);
    assert (digits + rest)[..|digits|] == digits;
  }

  lemma ScanSigned(sign: char, digits: string, rest: string)
    requires (sign == '+' || sign == '-') && AreDigits(digits) && EndsNumber(rest)
    ensures ScanInt([sign] + digits + rest) == In64Bits(if sign == '-' then -Number(digits) else Number(digits))
  {
    var word := [sign] + digits + rest;
    DigitRunIs(digits, rest);
    assert word[0] == sign && word[1..] == digits + rest;
    assert word[1..][..|digits|] == digits;
  }

  // Every 64-bit number is read back from its decimal form, with or without a plus sign and whatever follows the
  // digits; a larger one is not read.
  lemma ScanIntIs(n: int, rest: string)
    requires EndsNumber(rest)
    ensures ScanInt(Printed(n) + rest) == In64Bits(n)
    ensures n >= 0 ==> ScanInt("+" + Printed(n) + rest) == In64Bits(n)
  {
    var size := if n < 0 then -n else n;
    NumberOfDecimal(size);
    if n < 0 {
      ScanSigned('-', Decimal(size), rest);
    } else {
      ScanUnsigned(Decimal(size), rest);
      ScanSigned('+', Decimal(size), rest);
    }
  }

  // A text without a digit in front, or after one sign, gives no number.
  lemma NoDigitNoNumber(word: string)
    requires word != "" ==> !('0' <= word[0] <= '9')
    requires |word| > 1 && (word[0] == '+' || word[0] == '-') ==> !('0' <= word[1] <= '9')
    ensures ScanInt(word) == None
  {}
}
