// Parsing the output of bcachefs show-super (internal/storage/bcachefs/bcachefs.go, lines 282-429).
module Superblock {
  import opened Domain
  import opened SuperLines
  import opened Text
  import Sectioning

  // ---- What the text means -------------------------------------------------------

  // Value given by the last line that gives one.
  function Last<T, V>(lines: seq<T>, read: T -> Option<V>, default: V): V {
    if lines == [] then default
    else
      match read(lines[|lines| - 1])
      case Some(v) => v
      case None => Last(lines[..|lines| - 1], read, default)
  }

  lemma LastSnoc<T, V>(lines: seq<T>, line: T, read: T -> Option<V>, default: V)
    ensures Last(lines + [line], read, default) == read(line).Or(Last(lines, read, default))
  {
    assert (lines + [line])[..|lines|] == lines;
  }

  // What each field is read from, line by line.
  datatype Keys<!T> = Keys(
    device: T -> Option<Device>,
    deviceLabel: T -> Option<string>,
    uuid: T -> Option<string>,
    tag: T -> Option<string>,
    data: T -> Option<int>,
    metadata: T -> Option<int>,
    foreground: T -> Option<string>,
    metadataTarget: T -> Option<string>,
    background: T -> Option<string>)
  {
    function Opens(): T -> bool { Reader().Head() }

    // Header fields come from the lines before the first device line, each from the last line that gives it.
    ghost predicate IsHeaderOf(header: Header, lines: seq<T>) {
      && header.uuid == Last(lines, uuid, "")
      && header.tag == Last(lines, tag, "")
      && header.dataReplicas == Last(lines, data, 0)
      && header.metadataReplicas == Last(lines, metadata, 0)
      && header.foregroundTarget == Last(lines, foreground, "")
      && header.metadataTarget == Last(lines, metadataTarget, "")
      && header.backgroundTarget == Last(lines, background, "")
    }

    // The device of a section: what its opening line says, labelled by the section's own label lines.
    ghost predicate IsDeviceOf(d: Device, section: seq<T>) {
      && section != []
      && device(section[0]) == Some(d.(tag := ""))
      && d.tag == Last(section, deviceLabel, "")
    }

    ghost predicate IsParsed(super: Super, lines: seq<T>) {
      && IsHeaderOf(super.header, Sectioning.Header(Opens(), lines))
      && Sectioning.Paired((d, section) => IsDeviceOf(d, section), super.devices, Sectioning.Sections(Opens(), lines))
    }

    // The lines determine what is parsed.
    lemma ParsedOnce(a: Super, b: Super, lines: seq<T>)
      requires IsParsed(a, lines) && IsParsed(b, lines)
      ensures a == b
    {
      forall i | 0 <= i < |a.devices| ensures a.devices[i] == b.devices[i] {
        var section := Sectioning.Sections(Opens(), lines)[i];
        assert IsDeviceOf(a.devices[i], section) && IsDeviceOf(b.devices[i], section);
      }
    }

    // Lines can be cut before any device line: the second part only adds its devices.
    lemma LinesCompose(a: seq<T>, b: seq<T>, first: Super, second: Super)
      requires IsParsed(first, a) && IsParsed(second, b)
      requires b != [] && device(b[0]).Some?
      ensures IsParsed(Super(first.header, first.devices + second.devices), a + b)
    {
      Sectioning.Concat(Opens(), a, b);
      Sectioning.PairedConcat((d, section) => IsDeviceOf(d, section),
        first.devices, Sectioning.Sections(Opens(), a), second.devices, Sectioning.Sections(Opens(), b));
    }

    // ---- One pass over the lines -------------------------------------------------

    function Labelled(d: Device, line: T): Device {
      d.(tag := deviceLabel(line).Or(d.tag))
    }

    function Noted(header: Header, line: T): Header {
      Header(uuid(line).Or(header.uuid), tag(line).Or(header.tag),
             data(line).Or(header.dataReplicas), metadata(line).Or(header.metadataReplicas),
             foreground(line).Or(header.foregroundTarget), metadataTarget(line).Or(header.metadataTarget),
             background(line).Or(header.backgroundTarget))
    }

    function Reader(): Sectioning.Reader<T, Header, Device> {
      Sectioning.Reader(device, (d, l) => Labelled(d, l), (h, l) => Noted(h, l))
    }

    lemma HeaderSnoc(header: Header, lines: seq<T>, line: T)
      requires IsHeaderOf(header, lines)
      ensures IsHeaderOf(Noted(header, line), lines + [line])
    {
      LastSnoc(lines, line, uuid, "");
      LastSnoc(lines, line, tag, "");
      LastSnoc(lines, line, data, 0);
      LastSnoc(lines, line, metadata, 0);
      LastSnoc(lines, line, foreground, "");
      LastSnoc(lines, line, metadataTarget, "");
      LastSnoc(lines, line, background, "");
    }

    lemma {:induction false} NotedIsHeader(lines: seq<T>)
      ensures IsHeaderOf(Reader().Noted(EMPTY, lines), lines)
    {
      if lines != [] {
        var before, line := lines[..|lines| - 1], lines[|lines| - 1];
        NotedIsHeader(before);
        HeaderSnoc(Reader().Noted(EMPTY, before), before, line);
        assert lines == before + [line];
      }
    }

    lemma DeviceSnoc(d: Device, section: seq<T>, line: T)
      requires IsDeviceOf(d, section)
      ensures IsDeviceOf(Labelled(d, line), section + [line])
    {
      LastSnoc(section, line, deviceLabel, "");
      assert (section + [line])[0] == section[0];
    }

    lemma DeviceStart(d: Device, line: T)
      requires device(line) == Some(d) && d.tag == ""
      ensures IsDeviceOf(Labelled(d, line), [line])
    {
      LastSnoc([], line, deviceLabel, "");
      assert [] + [line] == [line];
    }

    lemma {:induction false} DescribedIsDevice(section: seq<T>)
      requires section != [] && device(section[0]).Some? && device(section[0]).value.tag == ""
      ensures IsDeviceOf(Reader().Described(section), section)
    {
      var before, line := section[..|section| - 1], section[|section| - 1];
      if before == [] {
        assert section == [line];
        Reader().DescribedOne(line);
        DeviceStart(device(line).value, line);
      } else {
        assert section == before + [line];
        DescribedIsDevice(before);
        Reader().DescribedSnoc(before, line);
        DeviceSnoc(Reader().Described(before), before, line);
      }
    }

    lemma ReadIsParsed(lines: seq<T>)
      requires forall line <- lines :: device(line).Some? ==> device(line).value.tag == ""
      ensures var (header, devices) := Reader().Read(EMPTY, lines); IsParsed(Super(header, devices), lines)
    {
      var devices := Reader().Read(EMPTY, lines).1;
      Reader().ReadIsSectioned(EMPTY, lines);
      NotedIsHeader(Sectioning.Header(Opens(), lines));
      var cut := Sectioning.Sections(Opens(), lines);
      forall i | 0 <= i < |cut| ensures IsDeviceOf(devices[i], cut[i]) {
        Sectioning.SectionsAreIn(Opens(), lines, i);
        DescribedIsDevice(cut[i]);
      }
    }
  }

  const KEYS: Keys<string> := Keys(
    l => DeviceIn(l), l => DeviceLabel(l), l => WordAfter(l, "External UUID:"), l => PoolLabel(l),
    l => NumberAfter(l, DATA), l => NumberAfter(l, METADATA),
    l => WordAfter(l, "foreground_target:"), l => WordAfter(l, "metadata_target:"),
    l => WordAfter(l, "background_target:"))

  const DATA := "data_replicas:"
  const METADATA := "metadata_replicas:"

  // ---- The same, told without the scanner's readers ------------------------------------

  // The value that the last line to give one gives, the default if none does.
  ghost predicate IsLast<V(!new)>(lines: seq<string>, gives: (string, V) -> bool, default: V, v: V) {
    if lines == [] then v == default
    else
      var line := lines[|lines| - 1];
      gives(line, v) || ((forall w :: !gives(line, w)) && IsLast(lines[..|lines| - 1], gives, default, v))
  }

  lemma {:induction false} LastIsLast<V(!new)>(lines: seq<string>, read: string -> Option<V>,
                                               gives: (string, V) -> bool, default: V)
    requires forall line, v :: gives(line, v) <==> read(line) == Some(v)
    ensures IsLast(lines, gives, default, Last(lines, read, default))
  {
    if lines != [] {
      var line := lines[|lines| - 1];
      LastIsLast(lines[..|lines| - 1], read, gives, default);
      if read(line).Some? { assert gives(line, read(line).value); }
    }
  }

  ghost function Words(key: string): (string, string) -> bool { (line, word) => GivesWord(line, key, word) }

  ghost function Numbers(key: string): (string, int) -> bool { (line, n) => GivesNumber(line, key, n) }

  ghost function Labels(): (string, string) -> bool { (line, word) => GivesLabel(line, word) }

  ghost function PoolLabels(): (string, string) -> bool {
    (line, word) => GivesLabel(line, word) && !Contains(line, "Device ")
  }

  ghost predicate SaysHeader(lines: seq<string>, header: Header) {
    && IsLast(lines, Words("External UUID:"), "", header.uuid)
    && IsLast(lines, PoolLabels(), "", header.tag)
    && IsLast(lines, Numbers("data_replicas:"), 0, header.dataReplicas)
    && IsLast(lines, Numbers("metadata_replicas:"), 0, header.metadataReplicas)
    && IsLast(lines, Words("foreground_target:"), "", header.foregroundTarget)
    && IsLast(lines, Words("metadata_target:"), "", header.metadataTarget)
    && IsLast(lines, Words("background_target:"), "", header.backgroundTarget)
  }

  ghost predicate SaysDevice(section: seq<string>, d: Device) {
    section != [] && Reads(section[0], d.(tag := "")) && IsLast(section, Labels(), "", d.tag)
  }

  ghost function DeviceLines(): string -> bool { line => OpensDevice(line) }

  // Header lines come before the first device line; every device line opens a section.
  ghost predicate Says(lines: seq<string>, super: Super) {
    var sections := Sectioning.Sections(DeviceLines(), lines);
    && SaysHeader(Sectioning.Header(DeviceLines(), lines), super.header)
    && |super.devices| == |sections|
    && forall i :: 0 <= i < |sections| ==> SaysDevice(sections[i], super.devices[i])
  }

  lemma WordsAre(lines: seq<string>, key: string, read: string -> Option<string>)
    requires forall line :: read(line) == WordAfter(line, key)
    ensures IsLast(lines, Words(key), "", Last(lines, read, ""))
  {
    forall line, word ensures GivesWord(line, key, word) <==> read(line) == Some(word) {
      WordAfterIs(line, key, word);
    }
    LastIsLast(lines, read, Words(key), "");
  }

  lemma NumbersAre(lines: seq<string>, key: string, read: string -> Option<int>)
    requires forall line :: read(line) == NumberAfter(line, key)
    ensures IsLast(lines, Numbers(key), 0, Last(lines, read, 0))
  {
    forall line, n ensures GivesNumber(line, key, n) <==> read(line) == Some(n) { NumberAfterIs(line, key, n); }
    LastIsLast(lines, read, Numbers(key), 0);
  }

  lemma HeaderIsSaid(lines: seq<string>, header: Header)
    requires KEYS.IsHeaderOf(header, lines)
    ensures SaysHeader(lines, header)
  {
    WordsAre(lines, "External UUID:", KEYS.uuid);
    NumbersAre(lines, "data_replicas:", KEYS.data);
    NumbersAre(lines, "metadata_replicas:", KEYS.metadata);
    WordsAre(lines, "foreground_target:", KEYS.foreground);
    WordsAre(lines, "metadata_target:", KEYS.metadataTarget);
    WordsAre(lines, "background_target:", KEYS.background);
    PoolLabelsAre(lines);
  }

  lemma PoolLabelsAre(lines: seq<string>)
    ensures IsLast(lines, PoolLabels(), "", Last(lines, KEYS.tag, ""))
  {
    forall line, word ensures PoolLabels()(line, word) <==> KEYS.tag(line) == Some(word) { LabelsAre(line, word); }
    LastIsLast(lines, KEYS.tag, PoolLabels(), "");
  }

  lemma DeviceIsSaid(section: seq<string>, d: Device)
    requires KEYS.IsDeviceOf(d, section)
    ensures SaysDevice(section, d)
  {
    assert KEYS.device(section[0]) == DeviceIn(section[0]);
    DeviceInReads(section[0], d.(tag := ""));
    forall line, word ensures Labels()(line, word) <==> KEYS.deviceLabel(line) == Some(word) {
      LabelsAre(line, word);
    }
    LastIsLast(section, KEYS.deviceLabel, Labels(), "");
  }

  lemma ParsedIsSaid(lines: seq<string>, super: Super)
    requires KEYS.IsParsed(super, lines)
    ensures Says(lines, super)
  {
    forall line ensures KEYS.Opens()(line) == DeviceLines()(line) {
      DeviceColonIs(line);
      assert KEYS.device(line) == DeviceIn(line);
    }
    Sectioning.Alike(KEYS.Opens(), DeviceLines(), lines);
    HeaderIsSaid(Sectioning.Header(DeviceLines(), lines), super.header);
    var sections := Sectioning.Sections(DeviceLines(), lines);
    forall i | 0 <= i < |sections| ensures SaysDevice(sections[i], super.devices[i]) {
      DeviceIsSaid(sections[i], super.devices[i]);
    }
  }

  // ---- The scanner ----------------------------------------------------------------

  method NoteReplicas(header: Header, line: string) returns (noted: Header)
    ensures noted == header.(dataReplicas := KEYS.data(line).Or(header.dataReplicas),
                             metadataReplicas := KEYS.metadata(line).Or(header.metadataReplicas))
  {
    noted := header;
    var data := NumberAfter(line, DATA);
    if data.Some? { noted := noted.(dataReplicas := data.value); }
    var metadata := NumberAfter(line, METADATA);
    if metadata.Some? { noted := noted.(metadataReplicas := metadata.value); }
  }

  method NoteTargets(header: Header, line: string) returns (noted: Header)
    ensures noted == header.(foregroundTarget := KEYS.foreground(line).Or(header.foregroundTarget),
                             metadataTarget := KEYS.metadataTarget(line).Or(header.metadataTarget),
                             backgroundTarget := KEYS.background(line).Or(header.backgroundTarget))
  {
    noted := header;
    var foreground := WordAfter(line, "foreground_target:");
    if foreground.Some? { noted := noted.(foregroundTarget := foreground.value); }
    var metadataTarget := WordAfter(line, "metadata_target:");
    if metadataTarget.Some? { noted := noted.(metadataTarget := metadataTarget.value); }
    var background := WordAfter(line, "background_target:");
    if background.Some? { noted := noted.(backgroundTarget := background.value); }
  }

  method NoteLine(header: Header, line: string) returns (noted: Header)
    ensures noted == KEYS.Noted(header, line)
  {
    noted := header;
    var uuid := WordAfter(line, "External UUID:");
    if uuid.Some? { noted := noted.(uuid := uuid.value); }
    var poolLabel := PoolLabel(line);
    if poolLabel.Some? { noted := noted.(tag := poolLabel.value); }
    assert noted == header.(uuid := KEYS.uuid(line).Or(header.uuid), tag := KEYS.tag(line).Or(header.tag));
    noted := NoteReplicas(noted, line);
    noted := NoteTargets(noted, line);
  }

  method LabelDevice(device: Device, line: string) returns (labelled: Device)
    ensures labelled == KEYS.Labelled(device, line)
  {
    labelled := device;
    var word := WordAfter(line, "Label:");
    assert KEYS.deviceLabel(line) == NoneIsEmpty(word);
    if word.Some? {
      labelled := labelled.(tag := word.value);
      if labelled.tag == "(none)" { labelled := labelled.(tag := ""); }
    }
  }

  lemma StepOnLine(header: Header, devices: seq<Device>, line: string, grown: seq<Device>)
    requires grown == match DeviceIn(line) case Some(d) => devices + [d] case None => devices
    ensures KEYS.Reader().Step(header, devices, line) ==
      if grown == [] then (KEYS.Noted(header, line), grown)
      else (header, grown[|grown| - 1 := KEYS.Labelled(grown[|grown| - 1], line)])
  {
    assert KEYS.Reader().opens(line) == DeviceIn(line);
  }

  // The body of the loop.
  method ScanLine(super: Super, currentDevice: Option<nat>, line: string) returns (after: Super, current: Option<nat>)
    requires currentDevice == LastDevice(super.devices)
    ensures (after.header, after.devices) == KEYS.Reader().Step(super.header, super.devices, line)
    ensures current == LastDevice(after.devices)
  {
    var header, devices := super.header, super.devices;
    current := currentDevice;
    var device := DeviceIn(line);
    if device.Some? {
      devices := devices + [device.value];
      current := Some(|devices| - 1);
    }
    StepOnLine(header, super.devices, line, devices);
    if current.Some? {
      var labelled := LabelDevice(devices[current.value], line);
      devices := devices[current.value := labelled];
    } else {
      header := NoteLine(header, line);
    }
    after := Super(header, devices);
  }

  function LastDevice(devices: seq<Device>): Option<nat> {
    if devices == [] then None else Some(|devices| - 1)
  }

  function Parsed(output: string): Super {
    var (header, devices) := KEYS.Reader().Read(EMPTY, Split(output, '\n'));
    Super(header, devices)
  }

  lemma DeviceComesUnlabelled(line: string)
    ensures DeviceIn(line).Some? ==> DeviceIn(line).value.tag == ""
  {}

  lemma LinesAreParsed(lines: seq<string>)
    ensures var (header, devices) := KEYS.Reader().Read(EMPTY, lines); KEYS.IsParsed(Super(header, devices), lines)
  {
    forall line <- lines ensures KEYS.device(line).Some? ==> KEYS.device(line).value.tag == "" {
      DeviceComesUnlabelled(line);
    }
    KEYS.ReadIsParsed(lines);
  }

  // One pass over the text.
  method ParseSuper(output: string) returns (super: Super)
    ensures super == Parsed(output)
    ensures KEYS.IsParsed(super, Split(output, '\n'))
    ensures Says(Split(output, '\n'), super)
  {
    var lines := Split(output, '\n');
    super := Super(EMPTY, []);
    var currentDevice: Option<nat> := None;
    for i := 0 to |lines|
      invariant (super.header, super.devices) == KEYS.Reader().Read(EMPTY, lines[..i])
      invariant currentDevice == LastDevice(super.devices)
    {
      assert lines[..i + 1] == lines[..i] + [lines[i]];
      KEYS.Reader().ReadSnoc(EMPTY, lines[..i], lines[i]);
      super, currentDevice := ScanLine(super, currentDevice, lines[i]);
    }
    assert lines[..|lines|] == lines;
    LinesAreParsed(lines);
    ParsedIsSaid(lines, super);
  }

  // A text can be cut before any device line: the second part only adds its devices.
  lemma ParsingIsCompositional(a: string, b: string, first: Super, second: Super)
    requires KEYS.IsParsed(first, Split(a, '\n')) && KEYS.IsParsed(second, Split(b, '\n'))
    requires DeviceIn(Split(b, '\n')[0]).Some?
    ensures KEYS.IsParsed(Super(first.header, first.devices + second.devices), Split(a + "\n" + b, '\n'))
  {
    KEYS.LinesCompose(Split(a, '\n'), Split(b, '\n'), first, second);
    SplitJoin(a, b, '\n');
  }

  // ---- The two replica counts ----------------------------------------------------------

  // The first data_replicas: of the line is the end of its first metadata_replicas:.
  predicate IsBorrowed(line: string) {
    Contains(line, METADATA) && Index(line, DATA) == Index(line, METADATA) + 4
  }

  // A data count that the line gives itself, and one that it lends from its metadata count.
  function OwnData(line: string): Option<int> {
    if IsBorrowed(line) then None else NumberAfter(line, DATA)
  }

  function LentData(line: string): Option<int> {
    if IsBorrowed(line) then NumberAfter(line, METADATA) else None
  }

  // The last line that gives either gives the second.
  predicate MetadataComesLast(lines: seq<string>) {
    lines != [] &&
    var line := lines[|lines| - 1];
    LentData(line).Some? || (OwnData(line).None? && MetadataComesLast(lines[..|lines| - 1]))
  }

  lemma MetadataLineIsADataLine(line: string)
    requires Contains(line, METADATA)
    ensures 0 <= Index(line, DATA) <= Index(line, METADATA) + 4
    ensures IsBorrowed(line) ==> NumberAfter(line, DATA) == NumberAfter(line, METADATA)
  {
    var i := Index(line, METADATA);
    assert line[i + 4..i + 4 + |DATA|] == line[i..i + |METADATA|][4..] == METADATA[4..] == DATA;
    assert MatchesAt(line, DATA, i + 4);
  }

  // The data replica count of the result is the text's own one exactly when no line that lends one comes last, or
  // the two counts are the same.
  lemma DataReplicasExactlyWhen(header: Header, lines: seq<string>)
    requires KEYS.IsHeaderOf(header, lines)
    ensures header.dataReplicas == Last(lines, l => OwnData(l), 0) <==>
      !MetadataComesLast(lines) || Last(lines, l => LentData(l), 0) == Last(lines, l => OwnData(l), 0)
  {
    CountsAre(lines);
  }

  lemma {:induction false} CountsAre(lines: seq<string>)
    ensures Last(lines, l => NumberAfter(l, DATA), 0) ==
      if MetadataComesLast(lines) then Last(lines, l => LentData(l), 0) else Last(lines, l => OwnData(l), 0)
  {
    if lines != [] {
      var before, line := lines[..|lines| - 1], lines[|lines| - 1];
      CountsAre(before);
      if Contains(line, METADATA) { MetadataLineIsADataLine(line); }
    }
  }

  lemma WordIs(line: string, before: string, key: string, word: string)
    requires line == before + key + " " + word
    requires word != "" && forall i :: 0 <= i < |word| ==> !IsSpace(word[i])
    requires forall j :: 0 <= j < |before| ==> !MatchesAt(line, key, j)
    ensures WordAfter(line, key) == Some(word)
  {
    assert line[|before|..|before| + |key|] == key;
    assert MatchesAt(line, key, |before|) && Index(line, key) == |before|;
    assert After(line, key) == " " + word;
    OneWord(word);
  }

  lemma OneWord(word: string)
    requires word != "" && forall i :: 0 <= i < |word| ==> !IsSpace(word[i])
    ensures Fields(TrimSpace(" " + word)) == [word]
  {
    assert (" " + word)[1..] == word && TrimLeft(word) == word;
    assert TrimSpace(" " + word) == word;
    assert WordLength(word) == |word|;
    assert word[..|word|] == word && word[|word|..] == "";
  }

  lemma CountOf(line: string, before: string, key: string, digit: char)
    requires line == before + key + " " + [digit] && '0' <= digit <= '9'
    requires forall j :: 0 <= j < |before| ==> !MatchesAt(line, key, j)
    ensures NumberAfter(line, key) == Some(digit as int - '0' as int)
  {
    WordIs(line, before, key, [digit]);
    OneDigit(digit);
  }

  lemma OneDigit(digit: char)
    requires '0' <= digit <= '9'
    ensures ScanInt([digit]) == Some(digit as int - '0' as int)
  {
    assert DigitRun([digit]) == 1 && [digit][..1] == [digit];
    assert Number([digit][..0]) == 0;
  }

  lemma LastOfTwo<T>(one: string, two: string, read: string -> Option<T>, default: T)
    ensures Last([one, two], read, default) == read(two).Or(read(one).Or(default))
  {
    LastSnoc([], one, read, default);
    LastSnoc([one], two, read, default);
    assert [] + [one] == [one] && [one] + [two] == [one, two];
  }

  // A metadata count below an unequal data count replaces it.
  lemma DataReplicasCanBeWrong(header: Header)
    requires KEYS.IsHeaderOf(header, [DATA + " 1", METADATA + " 2"])
    ensures header.dataReplicas == 2
    ensures Last([DATA + " 1", METADATA + " 2"], l => OwnData(l), 0) == 1
  {
    var one, two := DATA + " 1", METADATA + " 2";
    CountOfOne();
    CountOfTwo();
    LastOfTwo(one, two, KEYS.data, 0);
    LastOfTwo(one, two, l => OwnData(l), 0);
  }

  lemma CountOfOne()
    ensures OwnData(DATA + " 1") == Some(1)
  {
    CountOf(DATA + " 1", "", DATA, '1');
    assert |DATA + " 1"| < |METADATA|;
  }

  lemma CountOfTwo()
    ensures NumberAfter(METADATA + " 2", DATA) == Some(2) && OwnData(METADATA + " 2") == None
  {
    var two := METADATA + " 2";
    DataNotInMeta(two);
    MetaData();
    assert two == "meta" + DATA + " " + ['2'];
    CountOf(two, "meta", DATA, '2');
    TwoIsBorrowed(two);
  }

  lemma TwoIsBorrowed(two: string)
    requires two == METADATA + " 2" == "meta" + DATA + " 2"
    ensures IsBorrowed(two)
  {
    assert two[..|METADATA|] == METADATA && MatchesAt(two, METADATA, 0);
    assert two[4..4 + |DATA|] == DATA && MatchesAt(two, DATA, 4);
    DataNotInMeta(two);
  }

  lemma MetaData()
    ensures METADATA == "meta" + DATA
  {}

  lemma DataNotInMeta(line: string)
    requires |line| >= 4 && line[..4] == "meta"
    ensures forall j :: 0 <= j < 4 ==> !MatchesAt(line, DATA, j)
  {
    forall j | 0 <= j < 4 ensures !MatchesAt(line, DATA, j) {
      assert line[j] == line[..4][j] == "meta"[j];
      assert j + |DATA| <= |line| ==> line[j..j + |DATA|][0] != DATA[0];
    }
  }

  // ---- A device line without a path ------------------------------------------------------

  const PATHLESS := "External UUID: u" + "\n" + "Device 0:"

  lemma CharMissing(line: string, key: string, k: nat)
    requires k < |key| && key[k] !in line
    ensures !Contains(line, key)
  {
    forall i: nat ensures !MatchesAt(line, key, i) {
      assert i + |key| <= |line| ==> line[i..i + |key|][k] == line[i + k];
    }
  }

  lemma PathlessHeader()
    ensures DeviceIn("External UUID: u") == None && WordAfter("External UUID: u", "External UUID:") == Some("u")
  {
    CharMissing("External UUID: u", "Device ", 2);
    WordIs("External UUID: u", "", "External UUID:", "u");
  }

  lemma OnlyColon(line: string, i: nat)
    requires i < |line| && line[i] == ':' && forall j :: 0 <= j < |line| && j != i ==> line[j] != ':'
    ensures Index(line, ":") == i
  {
    assert forall j :: 0 <= j < |line| ==> (MatchesAt(line, ":", j) <==> line[j..j + 1] == [line[j]] == ":");
    assert MatchesAt(line, ":", i);
  }

  lemma PathlessColon()
    ensures DeviceColon("Device 0:") == 8
  {
    var line := "Device 0:";
    assert MatchesAt(line, "Device ", 0) && Index(line, "Device ") == 0;
    OnlyColon(line, 8);
    CharMissing(line, "Device index:", 11);
    assert line[0..] == line;
  }

  lemma PathlessDevice()
    ensures DeviceIn("Device 0:").Some? && DeviceIn("Device 0:").value.path == ""
  {
    PathlessColon();
    assert "Device 0:"[9..] == "";
  }

  lemma PathlessLines()
    ensures Split(PATHLESS, '\n') == ["External UUID: u", "Device 0:"]
  {
    SplitTwo("External UUID: u", "Device 0:", '\n');
  }

  lemma PathlessIsParsed()
    ensures var super := Parsed(PATHLESS);
      super.header.uuid == "u" && |super.devices| == 1 && super.devices[0].path == ""
  {
    PathlessLines();
    PathlessHeader();
    PathlessDevice();
    ParsedTwo(PATHLESS, "External UUID: u", "Device 0:");
  }

  lemma ParsedTwo(output: string, first: string, second: string)
    requires Split(output, '\n') == [first, second] && DeviceIn(first) == None && DeviceIn(second).Some?
    ensures Parsed(output) == Super(KEYS.Noted(EMPTY, first), [KEYS.Labelled(DeviceIn(second).value, second)])
  {
    assert KEYS.Reader().opens(first) == DeviceIn(first) && KEYS.Reader().opens(second) == DeviceIn(second);
    KEYS.Reader().ReadTwo(EMPTY, first, second);
  }
}
