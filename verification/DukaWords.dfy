// What DukaOne attributes mean, word by word: both writers of DukaWrite against the spelled-out table.

module DukaWords {
  import opened Common
  import opened Text
  import opened DukaPacket
  import opened DukaResponse
  import opened DukaWrite

  // ---------------------------------------------------------------- spelling

  /** `text` is `word` in small or capital letters with white space around it. */
  ghost predicate Spells(text: string, word: string, space: char -> bool) {
    exists before, letters, after ::
      && text == before + letters + after && SameButCase(letters, word)
      && (forall c <- before :: space(c)) && (forall c <- after :: space(c))
  }

  /** A word of small letters and digits. */
  predicate Word(word: string) {
    word != "" && forall i :: 0 <= i < |word| ==> 'a' <= word[i] <= 'z' || '0' <= word[i] <= '9'
  }

  lemma LowerOfLetters(text: string, word: string)
    requires Word(word)
    ensures Lower(text) == word <==> SameButCase(text, word)
  {
    FoldIff(text, word);
    assert Lower(word) == word;
  }

  lemma TrimmedWordIsSpelled(text: string, word: string, space: char -> bool)
    requires Word(word)
    requires forall c | '0' <= c <= '9' || 'A' <= c <= 'Z' || 'a' <= c <= 'z' :: !space(c)
    ensures Lower(Trim(text, space)) == word <==> Spells(text, word, space)
  {
    LowerOfLetters(Trim(text, space), word);
    var before, after := TrimSplits(text, space);
    forall before, letters, after | text == before + letters + after && SameButCase(letters, word)
      && (forall c <- before :: space(c)) && (forall c <- after :: space(c))
      ensures Trim(text, space) == letters
    {
      assert SameLetter(letters[0], word[0]) && SameLetter(letters[|word| - 1], word[|word| - 1]);
      TrimDropsPadding(before, letters, after, space);
    }
  }

  /** What Go's strings.TrimSpace takes away: tab to carriage return, and space. */
  predicate White(c: char) {
    c as int == 32 || 9 <= c as int <= 13
  }

  /** What Python's str.strip takes away: those, and the separators 28 to 31. */
  predicate PythonWhite(c: char) {
    White(c) || 28 <= c as int <= 31
  }

  ghost predicate ToNative(text: string, word: string) {
    Spells(text, word, c => White(c))
  }

  ghost predicate ToBridge(text: string, word: string) {
    Spells(text, word, c => PythonWhite(c))
  }

  lemma NativeWord(text: string, word: string)
    requires Word(word)
    ensures Lower(TrimSpace(text)) == word <==> ToNative(text, word)
  {
    TrimAgrees(text, c => GoSpace(c), c => White(c));
    TrimmedWordIsSpelled(text, word, c => White(c));
  }

  lemma BridgeWord(text: string, word: string)
    requires Word(word)
    ensures Normalized(text) == word <==> ToBridge(text, word)
  {
    TrimAgrees(text, c => PythonSpace(c), c => PythonWhite(c));
    TrimmedWordIsSpelled(text, word, c => PythonWhite(c));
  }

  // --------------------------------------------------------------- the table

  /** The word that `text` spells for one of the two writers. */
  ghost predicate Says(text: string, word: string, bridge: bool) {
    if bridge then ToBridge(text, word) else ToNative(text, word)
  }

  ghost function ModeNamed(text: string, bridge: bool): Option<Mode> {
    if Says(text, "out", bridge) || Says(text, "oneway", bridge) then Some(Out)
    else if Says(text, "inout", bridge) || Says(text, "twoway", bridge) then Some(InOut)
    else if Says(text, "in", bridge) then Some(In)
    else None
  }

  ghost function PresetNamed(text: string, bridge: bool): Option<Preset> {
    if Says(text, "off", bridge) then Some(Off)
    else if Says(text, "low", bridge) then Some(Low)
    else if Says(text, "medium", bridge) then Some(Medium)
    else if Says(text, "high", bridge) then Some(High)
    else if Says(text, "manual", bridge) then Some(Manual)
    else None
  }

  /** Both writers take a boolean as it is; this is what a text means to the native one. */
  ghost function FlagMeant(f: Flag): Option<bool> {
    match f
    case Given(on) => Some(on)
    case Spelled(t) =>
      if ToNative(t, "true") || ToNative(t, "1") || ToNative(t, "yes") || ToNative(t, "on") then Some(true)
      else if ToNative(t, "false") || ToNative(t, "0") || ToNative(t, "no") || ToNative(t, "off") then Some(false)
      else None
  }

  /** Function octet and parameters of each command. */
  function OnWire(c: Command): (byte, seq<byte>)
    requires InRange(c)
  {
    match c
    case SetMode(Out) => (3, [0xB7, 0])
    case SetMode(InOut) => (3, [0xB7, 1])
    case SetMode(In) => (3, [0xB7, 2])
    case SetSpeed(Off) => (3, [0x02, 0])
    case SetSpeed(Low) => (3, [0x02, 1])
    case SetSpeed(Medium) => (3, [0x02, 2])
    case SetSpeed(High) => (3, [0x02, 3])
    case SetSpeed(Manual) => (3, [0x02, 255])
    case SetManualSpeed(speed) => (3, [0x44, speed])
    case ResetFilterTimer => (2, [0x65])
    case TurnOn => (3, [0x01, 1])
    case TurnOff => (3, [0x01, 0])
  }

  lemma NativeModesAreNamed(text: string)
    ensures ParseMode(text) == ModeNamed(text, false)
  {
    NativeWord(text, "out");
    NativeWord(text, "oneway");
    NativeWord(text, "inout");
    NativeWord(text, "twoway");
    NativeWord(text, "in");
  }

  lemma BridgeModesAreNamed(text: string)
    ensures ModeMap(Normalized(text)) == ModeNamed(text, true)
  {
    BridgeWord(text, "out");
    BridgeWord(text, "oneway");
    BridgeWord(text, "inout");
    BridgeWord(text, "twoway");
    BridgeWord(text, "in");
  }

  lemma NativePresetsAreNamed(text: string)
    ensures ParseSpeed(text) == PresetNamed(text, false)
  {
    NativeWord(text, "off");
    NativeWord(text, "low");
    NativeWord(text, "medium");
    NativeWord(text, "high");
    NativeWord(text, "manual");
  }

  lemma BridgePresetsAreNamed(text: string)
    ensures SpeedMap(Normalized(text)) == PresetNamed(text, true)
  {
    BridgeWord(text, "off");
    BridgeWord(text, "low");
    BridgeWord(text, "medium");
    BridgeWord(text, "high");
    BridgeWord(text, "manual");
  }

  lemma TrueWords(text: string)
    ensures ParseFlag(Spelled(text)) == Some(true)
            <==> ToNative(text, "true") || ToNative(text, "1") || ToNative(text, "yes") || ToNative(text, "on")
  {
    NativeWord(text, "true");
    NativeWord(text, "1");
    NativeWord(text, "yes");
    NativeWord(text, "on");
  }

  lemma FalseWords(text: string)
    ensures ParseFlag(Spelled(text)) == Some(false)
            <==> ToNative(text, "false") || ToNative(text, "0") || ToNative(text, "no") || ToNative(text, "off")
  {
    NativeWord(text, "false");
    NativeWord(text, "0");
    NativeWord(text, "no");
    NativeWord(text, "off");
  }

  lemma FlagsAreMeant(f: Flag)
    ensures ParseFlag(f) == FlagMeant(f)
  {
    if f.Spelled? {
      TrueWords(f.word);
      FalseWords(f.word);
    }
  }

  // ---------------------------------------------------------- native writes

  function ModeText(a: Attrs): Option<string> {
    if a.mode.Some? then a.mode else a.ventilationMode
  }

  function PresetText(a: Attrs): Option<string> {
    if a.preset.Some? then a.preset else a.speed
  }

  ghost predicate Meaningless(f: Option<Flag>) {
    f.Some? && FlagMeant(f.value).None?
  }

  ghost predicate MeansYes(f: Option<Flag>) {
    f.Some? && FlagMeant(f.value) == Some(true)
  }

  /** The first fault of a write, in the order of the attributes. */
  ghost function Refusal(a: Attrs): Option<WriteError> {
    if ModeText(a).Some? && ModeNamed(ModeText(a).value, false).None? then Some(UnsupportedMode)
    else if PresetText(a).Some? && PresetNamed(PresetText(a).value, false).None? then Some(UnsupportedPreset)
    else if a.manualSpeed.Some? && !(0 <= a.manualSpeed.value <= 255) then Some(ManualSpeedOutOfRange)
    else if Meaningless(a.resetFilter) || Meaningless(a.resetFilterAlarm) || Meaningless(a.isOn) then
      Some(UnsupportedBoolean)
    else if ModeText(a).None? && PresetText(a).None? && a.manualSpeed.None? && a.isOn.None?
            && !MeansYes(a.resetFilter) && !MeansYes(a.resetFilterAlarm) then Some(NothingSupplied)
    else None
  }

  /** The commands a write that is not refused asks for. */
  ghost function Meant(a: Attrs): (cs: seq<Command>)
    requires Refusal(a).None?
    ensures forall c <- cs :: InRange(c)
  {
    (if ModeText(a).Some? then [SetMode(ModeNamed(ModeText(a).value, false).value)] else [])
    + (if PresetText(a).Some? then [SetSpeed(PresetNamed(PresetText(a).value, false).value)] else [])
    + (if a.manualSpeed.Some? then [SetManualSpeed(a.manualSpeed.value)] else [])
    + (if MeansYes(a.resetFilter) then [ResetFilterTimer] else [])
    + (if MeansYes(a.resetFilterAlarm) then [ResetFilterTimer] else [])
    + (if a.isOn.None? then [] else if MeansYes(a.isOn) then [TurnOn] else [TurnOff])
  }

  lemma AttributesAreMeant(a: Attrs)
    ensures ModeText(a) == OrElse(a.mode, a.ventilationMode) && PresetText(a) == OrElse(a.preset, a.speed)
    ensures ModeText(a).Some? ==> ParseMode(ModeText(a).value) == ModeNamed(ModeText(a).value, false)
    ensures PresetText(a).Some? ==> ParseSpeed(PresetText(a).value) == PresetNamed(PresetText(a).value, false)
    ensures forall f :: f in {a.resetFilter, a.resetFilterAlarm, a.isOn} ==>
              Unknown(f) == Meaningless(f) && On(f) == MeansYes(f)
  {
    if ModeText(a).Some? {
      NativeModesAreNamed(ModeText(a).value);
    }
    if PresetText(a).Some? {
      NativePresetsAreNamed(PresetText(a).value);
    }
    forall f | f in {a.resetFilter, a.resetFilterAlarm, a.isOn} && f.Some?
      ensures ParseFlag(f.value) == FlagMeant(f.value)
    {
      FlagsAreMeant(f.value);
    }
  }

  lemma NativeCommandsAreMeant(a: Attrs)
    ensures NativeCommands(a) == if Refusal(a).Some? then Err(Refusal(a).value) else Ok(Meant(a))
  {
    AttributesAreMeant(a);
  }

  lemma CommandIsOnWire(deviceId: seq<byte>, password: seq<byte>, c: Command)
    requires InRange(c)
    ensures Encode(deviceId, password, c) == Packet(deviceId, password, OnWire(c).0, OnWire(c).1)
  {
  }

  /**
   * What the packets of a write say, octet by octet, and what they are read back as: the commands the attributes
   * spell, in their order. A write is refused for the first attribute that spells nothing, and for asking nothing.
   */
  lemma WritesAreAsSpelled(deviceId: seq<byte>, password: seq<byte>, a: Attrs)
    requires |deviceId| < 0x100 && |password| < 0x100
    ensures match NativeCommands(a)
            case Err(e) => Refusal(a) == Some(e)
            case Ok(cs) =>
              && Refusal(a).None?
              && var packets := EncodeAll(deviceId, password, cs);
              && |packets| == |Meant(a)|
              && forall i :: 0 <= i < |packets| ==>
                   var c := Meant(a)[i];
                   InRange(c) && CommandOf(packets[i]) == Some(c)
                   && packets[i] == Packet(deviceId, password, OnWire(c).0, OnWire(c).1)
  {
    NativeCommandsAreMeant(a);
    if Refusal(a).None? {
      WritePacketsReadBack(deviceId, password, a);
      forall i | 0 <= i < |Meant(a)|
        ensures InRange(Meant(a)[i])
                && EncodeAll(deviceId, password, Meant(a))[i]
                   == Packet(deviceId, password, OnWire(Meant(a)[i]).0, OnWire(Meant(a)[i]).1)
      {
        assert Meant(a)[i] in Meant(a);
        CommandIsOnWire(deviceId, password, Meant(a)[i]);
      }
    }
  }

  // ------------------------------------------------------------- the bridge

  /** What Python takes for true. */
  predicate Taken(f: Option<Flag>) {
    f.Some? && if f.value.Given? then f.value.on else f.value.word != ""
  }

  /** What the bridge issues, and what it has issued already when it raises at the first attribute that it refuses. */
  ghost function BridgeMeant(a: Attrs): BridgeRun {
    var mode := if ModeText(a).None? then None else ModeNamed(ModeText(a).value, true);
    var preset := if PresetText(a).None? then None else PresetNamed(PresetText(a).value, true);
    var modes := if mode.Some? then [SetMode(mode.value)] else [];
    var presets := modes + if preset.Some? then [SetSpeed(preset.value)] else [];
    var reset := if a.resetFilter.Some? then a.resetFilter else a.resetFilterAlarm;
    if ModeText(a).Some? && mode.None? then BridgeRun([], true)
    else if PresetText(a).Some? && preset.None? then BridgeRun(modes, true)
    else if a.manualSpeed.Some? && !(0 <= a.manualSpeed.value <= 255) then BridgeRun(presets, true)
    else
      BridgeRun(presets + (if a.manualSpeed.Some? then [SetManualSpeed(a.manualSpeed.value)] else [])
                + ((if Taken(reset) then [ResetFilterTimer] else [])
                   + if a.isOn.None? then [] else if Taken(a.isOn) then [TurnOn] else [TurnOff]), false)
  }

  lemma BridgeIssuesWhatIsMeant(a: Attrs)
    ensures Bridge(a) == BridgeMeant(a)
  {
    var mode, preset, manual := BridgeMode(a), BridgePreset(a), BridgeManual(a);
    if ModeText(a).Some? {
      BridgeModesAreNamed(ModeText(a).value);
    }
    if PresetText(a).Some? {
      BridgePresetsAreNamed(PresetText(a).value);
    }
    SwitchesAreTaken(a);
    assert BridgeMeant(a) == if mode.raised then mode else
                             if preset.raised then BridgeRun(mode.issued, true) else
                             if manual.raised then BridgeRun(mode.issued + preset.issued, true) else
                             BridgeRun(mode.issued + preset.issued + manual.issued + BridgeSwitches(a), false);
  }

  lemma SwitchesAreTaken(a: Attrs)
    ensures var reset := if a.resetFilter.Some? then a.resetFilter else a.resetFilterAlarm;
            BridgeSwitches(a) == (if Taken(reset) then [ResetFilterTimer] else [])
                                 + if a.isOn.None? then [] else if Taken(a.isOn) then [TurnOn] else [TurnOff]
  {
  }
}
