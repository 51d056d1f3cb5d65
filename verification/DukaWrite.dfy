// Writing attributes: the native packet builder (internal/dukaone/native/client.go) and the Python bridge
// (internal/dukaone/bridge.py), two implementations of one table of commands.

module DukaWrite {
  import opened Common
  import opened Text
  import opened DukaPacket
  import opened DukaResponse
  import DukaRoundTrip

  datatype Mode = Out | InOut | In

  datatype Preset = Off | Low | Medium | High | Manual

  datatype Command =
    | SetMode(mode: Mode)
    | SetSpeed(preset: Preset)
    | SetManualSpeed(manual: int)
    | ResetFilterTimer
    | TurnOn
    | TurnOff

  function ModeByte(mode: Mode): byte {
    match mode
    case Out => 0
    case InOut => 1
    case In => 2
  }

  function PresetByte(preset: Preset): byte {
    match preset
    case Off => 0
    case Low => 1
    case Medium => 2
    case High => 3
    case Manual => 255
  }

  function FunctionOf(c: Command): byte {
    if c.ResetFilterTimer? then FUNC_WRITE else FUNC_WRITE_READ
  }

  function ParamsOf(c: Command): seq<byte> {
    match c
    case SetMode(mode) => [PARAM_VENTILATION_MODE, ModeByte(mode)]
    case SetSpeed(preset) => [PARAM_SPEED, PresetByte(preset)]
    case SetManualSpeed(manual) => [PARAM_MANUAL_SPEED, (manual % 0x100) as byte]
    case ResetFilterTimer => [PARAM_RESET_FILTER_TIMER]
    case TurnOn => [PARAM_ON_OFF, 1]
    case TurnOff => [PARAM_ON_OFF, 0]
  }

  function Encode(deviceId: seq<byte>, password: seq<byte>, c: Command): seq<byte> {
    Packet(deviceId, password, FunctionOf(c), ParamsOf(c))
  }

  /** Reading a command packet the way its receiver does: frame tests, texts, function, one parameter. */
  function CommandOf(packet: seq<byte>): Option<Command> {
    if !WellFramed(packet) then None
    else
      match SplitBody(packet[3..|packet| - 2])
      case Err(_) => None
      case Ok(frame) => CommandIn(frame)
  }

  function CommandIn(frame: Frame): Option<Command> {
    var ps := frame.params;
    if frame.fn == FUNC_WRITE then
      if |ps| == 1 && ps[0] == PARAM_RESET_FILTER_TIMER then Some(ResetFilterTimer) else None
    else if frame.fn == FUNC_WRITE_READ && |ps| == 2 then Write(ps[0], ps[1])
    else None
  }

  function Write(param: byte, value: byte): Option<Command> {
    if param == PARAM_MANUAL_SPEED then Some(SetManualSpeed(value))
    else if param == PARAM_ON_OFF && value <= 1 then Some(if value == 1 then TurnOn else TurnOff)
    else if param == PARAM_VENTILATION_MODE && value <= 2 then
      Some(SetMode(if value == 0 then Out else if value == 1 then InOut else In))
    else if param == PARAM_SPEED then
      match value
      case 0 => Some(SetSpeed(Off))
      case 1 => Some(SetSpeed(Low))
      case 2 => Some(SetSpeed(Medium))
      case 3 => Some(SetSpeed(High))
      case 255 => Some(SetSpeed(Manual))
      case _ => None
    else None
  }

  /** A boolean attribute, given as such or as a text. */
  datatype Flag = Given(on: bool) | Spelled(word: string)

  /** Attributes that are not null; one that is not supplied is None. */
  datatype Attrs = Attrs(
    mode: Option<string>,
    ventilationMode: Option<string>,
    preset: Option<string>,
    speed: Option<string>,
    manualSpeed: Option<int>,
    resetFilter: Option<Flag>,
    resetFilterAlarm: Option<Flag>,
    isOn: Option<Flag>)

  function OrElse<T>(first: Option<T>, second: Option<T>): Option<T> {
    if first.Some? then first else second
  }

  // ---------------------------------------------------------- native writes

  datatype WriteError =
    | UnsupportedMode | UnsupportedPreset | ManualSpeedOutOfRange | UnsupportedBoolean | NothingSupplied

  function ParseMode(value: string): Option<Mode> {
    var word := Lower(TrimSpace(value));
    if word == "out" || word == "oneway" then Some(Out)
    else if word == "inout" || word == "twoway" then Some(InOut)
    else if word == "in" then Some(In)
    else None
  }

  function ParseSpeed(value: string): Option<Preset> {
    var word := Lower(TrimSpace(value));
    if word == "off" then Some(Off)
    else if word == "low" then Some(Low)
    else if word == "medium" then Some(Medium)
    else if word == "high" then Some(High)
    else if word == "manual" then Some(Manual)
    else None
  }

  function NativeMode(a: Attrs): Result<seq<Command>, WriteError> {
    var mode := OrElse(a.mode, a.ventilationMode);
    if mode.None? then Ok([])
    else if ParseMode(mode.value).None? then Err(UnsupportedMode)
    else Ok([SetMode(ParseMode(mode.value).value)])
  }

  function NativePreset(a: Attrs): Result<seq<Command>, WriteError> {
    var preset := OrElse(a.preset, a.speed);
    if preset.None? then Ok([])
    else if ParseSpeed(preset.value).None? then Err(UnsupportedPreset)
    else Ok([SetSpeed(ParseSpeed(preset.value).value)])
  }

  function NativeManual(a: Attrs): Result<seq<Command>, WriteError> {
    if a.manualSpeed.None? then Ok([])
    else if a.manualSpeed.value < 0 || a.manualSpeed.value > 255 then Err(ManualSpeedOutOfRange)
    else Ok([SetManualSpeed(a.manualSpeed.value)])
  }

  function ParseFlag(f: Flag): Option<bool> {
    match f
    case Given(on) => Some(on)
    case Spelled(text) =>
      var word := Lower(TrimSpace(text));
      if word == "true" || word == "1" || word == "yes" || word == "on" then Some(true)
      else if word == "false" || word == "0" || word == "no" || word == "off" then Some(false)
      else None
  }

  predicate Unknown(f: Option<Flag>) {
    f.Some? && ParseFlag(f.value).None?
  }

  predicate On(f: Option<Flag>) {
    f.Some? && ParseFlag(f.value) == Some(true)
  }

  function Reset(on: bool): seq<Command> {
    if on then [ResetFilterTimer] else []
  }

  function NativeReset(f: Option<Flag>): Result<seq<Command>, WriteError> {
    if Unknown(f) then Err(UnsupportedBoolean) else Ok(Reset(On(f)))
  }

  function NativeSwitch(f: Option<Flag>): Result<seq<Command>, WriteError> {
    if f.None? then Ok([])
    else if Unknown(f) then Err(UnsupportedBoolean)
    else Ok([if On(f) then TurnOn else TurnOff])
  }

  /** One stage after another, until one fails. */
  function Also(first: Result<seq<Command>, WriteError>, second: Result<seq<Command>, WriteError>)
    : Result<seq<Command>, WriteError>
  {
    if first.Err? then first
    else if second.Err? then second
    else Ok(first.value + second.value)
  }

  /** What the native builder writes: everything, or nothing when any attribute is invalid. */
  function NativeCommands(a: Attrs): Result<seq<Command>, WriteError> {
    var speeds := Also(Also(NativeMode(a), NativePreset(a)), NativeManual(a));
    var resets := Also(Also(speeds, NativeReset(a.resetFilter)), NativeReset(a.resetFilterAlarm));
    var cs := Also(resets, NativeSwitch(a.isOn));
    if cs == Ok([]) then Err(NothingSupplied) else cs
  }

  function EncodeAll(deviceId: seq<byte>, password: seq<byte>, cs: seq<Command>): seq<seq<byte>> {
    seq(|cs|, i requires 0 <= i < |cs| => Encode(deviceId, password, cs[i]))
  }

  method BuildWritePackets(deviceId: seq<byte>, password: seq<byte>, a: Attrs)
    returns (r: Result<seq<seq<byte>>, WriteError>)
    ensures r == match NativeCommands(a)
                 case Ok(cs) => Ok(EncodeAll(deviceId, password, cs))
                 case Err(e) => Err(e)
  {
    var cs: seq<Command> := [];
    var mode := OrElse(a.mode, a.ventilationMode);
    if mode.Some? {
      var parsed := ParseMode(mode.value);
      if parsed.None? {
        return Err(UnsupportedMode);
      }
      cs := cs + [SetMode(parsed.value)];
    }
    assert cs == NativeMode(a).value;
    var preset := OrElse(a.preset, a.speed);
    if preset.Some? {
      var parsed := ParseSpeed(preset.value);
      if parsed.None? {
        return Err(UnsupportedPreset);
      }
      cs := cs + [SetSpeed(parsed.value)];
    }
    assert cs == NativeMode(a).value + NativePreset(a).value;
    ghost var speeds := Also(NativeMode(a), NativePreset(a));
    if a.manualSpeed.Some? {
      var manual := a.manualSpeed.value;
      if manual < 0 || manual > 255 {
        return Err(ManualSpeedOutOfRange);
      }
      cs := cs + [SetManualSpeed(manual)];
    }
    assert cs == speeds.value + NativeManual(a).value;
    var rest := AppendSwitches(cs, a);
    if rest.Err? {
      return Err(rest.error);
    }
    if |rest.value| == 0 {
      return Err(NothingSupplied);
    }
    return Ok(EncodeAll(deviceId, password, rest.value));
  }

  method AppendSwitches(before: seq<Command>, a: Attrs) returns (r: Result<seq<Command>, WriteError>)
    ensures r == Also(Also(Also(Ok(before), NativeReset(a.resetFilter)), NativeReset(a.resetFilterAlarm)),
                      NativeSwitch(a.isOn))
  {
    var cs := before;
    if a.resetFilter.Some? {
      var reset := ParseFlag(a.resetFilter.value);
      if reset.None? {
        return Err(UnsupportedBoolean);
      }
      if reset.value {
        cs := cs + [ResetFilterTimer];
      }
    }
    assert cs == before + NativeReset(a.resetFilter).value;
    ghost var filter := cs;
    if a.resetFilterAlarm.Some? {
      var reset := ParseFlag(a.resetFilterAlarm.value);
      if reset.None? {
        return Err(UnsupportedBoolean);
      }
      if reset.value {
        cs := cs + [ResetFilterTimer];
      }
    }
    assert cs == filter + NativeReset(a.resetFilterAlarm).value;
    ghost var resets := cs;
    if a.isOn.Some? {
      var on := ParseFlag(a.isOn.value);
      if on.None? {
        return Err(UnsupportedBoolean);
      }
      cs := cs + [if on.value then TurnOn else TurnOff];
    }
    assert cs == resets + NativeSwitch(a.isOn).value;
    return Ok(cs);
  }

  // ------------------------------------------------------------- the bridge

  /** The two dictionaries of the bridge; a missing key is None. */
  function ModeMap(word: string): Option<Mode> {
    if word == "out" then Some(Out)
    else if word == "oneway" then Some(Out)
    else if word == "inout" then Some(InOut)
    else if word == "twoway" then Some(InOut)
    else if word == "in" then Some(In)
    else None
  }

  function SpeedMap(word: string): Option<Preset> {
    if word == "off" then Some(Off)
    else if word == "low" then Some(Low)
    else if word == "medium" then Some(Medium)
    else if word == "high" then Some(High)
    else if word == "manual" then Some(Manual)
    else None
  }

  function Normalized(value: string): string {
    Lower(Trim(value, c => PythonSpace(c)))
  }

  /** The commands the bridge has issued when it returns or raises. */
  datatype BridgeRun = BridgeRun(issued: seq<Command>, raised: bool)

  function BridgeMode(a: Attrs): BridgeRun {
    var mode := OrElse(a.mode, a.ventilationMode);
    if mode.None? then BridgeRun([], false)
    else
      match ModeMap(Normalized(mode.value))
      case None => BridgeRun([], true)
      case Some(m) => BridgeRun([SetMode(m)], false)
  }

  function BridgePreset(a: Attrs): BridgeRun {
    var preset := OrElse(a.preset, a.speed);
    if preset.None? then BridgeRun([], false)
    else
      match SpeedMap(Normalized(preset.value))
      case None => BridgeRun([], true)
      case Some(p) => BridgeRun([SetSpeed(p)], false)
  }

  function BridgeManual(a: Attrs): BridgeRun {
    if a.manualSpeed.None? then BridgeRun([], false)
    else if a.manualSpeed.value < 0 || a.manualSpeed.value > 255 then BridgeRun([], true)
    else BridgeRun([SetManualSpeed(a.manualSpeed.value)], false)
  }

  /** One stage after another, until one raises. */
  function Then(first: BridgeRun, second: BridgeRun): BridgeRun {
    if first.raised then first else BridgeRun(first.issued + second.issued, second.raised)
  }

  /** What Python takes for true: every text but the empty one. */
  predicate Truthy(f: Option<Flag>) {
    f.Some? && match f.value
               case Given(on) => on
               case Spelled(text) => text != ""
  }

  function BridgeSwitches(a: Attrs): seq<Command> {
    Reset(Truthy(OrElse(a.resetFilter, a.resetFilterAlarm)))
    + if a.isOn.None? then [] else [if Truthy(a.isOn) then TurnOn else TurnOff]
  }

  function Bridge(a: Attrs): BridgeRun {
    var speeds := Then(Then(BridgeMode(a), BridgePreset(a)), BridgeManual(a));
    Then(speeds, BridgeRun(BridgeSwitches(a), false))
  }

  class BridgeClient {
    var issued: seq<Command>

    constructor ()
      ensures issued == []
    {
      issued := [];
    }

    method ApplyMode(a: Attrs) returns (raised: bool)
      modifies this
      ensures issued == old(issued) + BridgeMode(a).issued
      ensures raised == BridgeMode(a).raised
    {
      var mode := a.mode;
      if mode.None? {
        mode := a.ventilationMode;
      }
      if mode.None? {
        return false;
      }
      var known := ModeMap(Normalized(mode.value));
      if known.None? {
        return true;
      }
      issued := issued + [SetMode(known.value)];
      return false;
    }

    method ApplyPreset(a: Attrs) returns (raised: bool)
      modifies this
      ensures issued == old(issued) + BridgePreset(a).issued
      ensures raised == BridgePreset(a).raised
    {
      var preset := a.preset;
      if preset.None? {
        preset := a.speed;
      }
      if preset.None? {
        return false;
      }
      var known := SpeedMap(Normalized(preset.value));
      if known.None? {
        return true;
      }
      issued := issued + [SetSpeed(known.value)];
      return false;
    }

    method ApplyManualSpeed(a: Attrs) returns (raised: bool)
      modifies this
      ensures issued == old(issued) + BridgeManual(a).issued
      ensures raised == BridgeManual(a).raised
    {
      if a.manualSpeed.None? {
        return false;
      }
      var manual := a.manualSpeed.value;
      if manual < 0 || manual > 255 {
        return true;
      }
      issued := issued + [SetManualSpeed(manual)];
      return false;
    }

    method ApplyAttrs(a: Attrs) returns (raised: bool)
      modifies this
      ensures issued == old(issued) + Bridge(a).issued
      ensures raised == Bridge(a).raised
    {
      ghost var before, mode, preset, manual := issued, BridgeMode(a), BridgePreset(a), BridgeManual(a);
      raised := ApplyMode(a);
      if raised {
        return;
      }
      raised := ApplyPreset(a);
      Regroup(before, mode.issued, preset.issued);
      if raised {
        return;
      }
      raised := ApplyManualSpeed(a);
      Regroup(before, mode.issued + preset.issued, manual.issued);
      if raised {
        return;
      }
      ApplyResetAndSwitch(a);
      Regroup(before, mode.issued + preset.issued + manual.issued, BridgeSwitches(a));
    }

    method ApplyResetAndSwitch(a: Attrs)
      modifies this
      ensures issued == old(issued) + BridgeSwitches(a)
    {
      var reset := a.resetFilter;
      if reset.None? {
        reset := a.resetFilterAlarm;
      }
      if Truthy(reset) {
        issued := issued + [ResetFilterTimer];
      }
      if a.isOn.Some? {
        issued := issued + [if Truthy(a.isOn) then TurnOn else TurnOff];
      }
    }
  }

  // ------------------------------------------------------------- properties

  lemma CommandOfPacket(deviceId: seq<byte>, password: seq<byte>, fn: byte, params: seq<byte>)
    requires |deviceId| < 0x100 && |password| < 0x100
    ensures var p := Packet(deviceId, password, fn, params);
            CommandOf(p) == CommandIn(Frame(deviceId, password, fn, params))
  {
    BuiltPacketsAreWellFramed(deviceId, password, fn, params);
    DukaRoundTrip.FrameReadsBack(deviceId, password, fn, params);
  }

  lemma ParamsReadBack(c: Command, deviceId: seq<byte>, password: seq<byte>)
    requires InRange(c)
    ensures CommandIn(Frame(deviceId, password, FunctionOf(c), ParamsOf(c))) == Some(c)
  {
  }

  /** One command survives the wire, unless a text is too long for its length octet. */
  lemma CommandReadsBack(deviceId: seq<byte>, password: seq<byte>, c: Command)
    requires |deviceId| < 0x100 && |password| < 0x100
    requires InRange(c)
    ensures CommandOf(Encode(deviceId, password, c)) == Some(c)
  {
    CommandOfPacket(deviceId, password, FunctionOf(c), ParamsOf(c));
    ParamsReadBack(c, deviceId, password);
  }

  predicate InRange(c: Command) {
    c.SetManualSpeed? ==> 0 <= c.manual <= 255
  }

  lemma NativeCommandsAreInRange(a: Attrs)
    requires NativeCommands(a).Ok?
    ensures forall c <- NativeCommands(a).value :: InRange(c)
  {
    assert forall c <- NativeMode(a).value :: InRange(c);
    assert forall c <- NativePreset(a).value :: InRange(c);
    assert forall c <- NativeManual(a).value :: InRange(c);
  }

  /** The packets of one write read back as its commands, in order, and no manual speed is cut to 8 bits. */
  lemma WritePacketsReadBack(deviceId: seq<byte>, password: seq<byte>, a: Attrs)
    requires |deviceId| < 0x100 && |password| < 0x100
    requires NativeCommands(a).Ok?
    ensures var cs := NativeCommands(a).value;
            var packets := EncodeAll(deviceId, password, cs);
            |packets| == |cs| && forall i :: 0 <= i < |cs| ==> CommandOf(packets[i]) == Some(cs[i])
  {
    var cs := NativeCommands(a).value;
    NativeCommandsAreInRange(a);
    forall i | 0 <= i < |cs| ensures CommandOf(EncodeAll(deviceId, password, cs)[i]) == Some(cs[i]) {
      CommandReadsBack(deviceId, password, cs[i]);
    }
  }

  /** A text that keeps a letter at both ends is trimmed alike by Go and by Python. */
  lemma LettersAreTrimmedAlike(value: string)
    requires var word := Lower(TrimSpace(value));
             word != [] && 'a' <= word[0] <= 'z' && 'a' <= word[|word| - 1] <= 'z'
    ensures Normalized(value) == Lower(TrimSpace(value))
  {
    var word := TrimSpace(value);
    var before, after := TrimSplits(value, c => GoSpace(c));
    TrimDropsPadding(before, word, after, c => PythonSpace(c));
  }

  lemma AcceptedModesAgree(value: string)
    requires ParseMode(value).Some?
    ensures ModeMap(Normalized(value)) == ParseMode(value)
  {
    LettersAreTrimmedAlike(value);
  }

  lemma AcceptedSpeedsAgree(value: string)
    requires ParseSpeed(value).Some?
    ensures SpeedMap(Normalized(value)) == ParseSpeed(value)
  {
    LettersAreTrimmedAlike(value);
  }

  /** A text that native reads as false and Python as true. */
  predicate Misread(f: Option<Flag>) {
    f.Some? && f.value.Spelled? && ParseFlag(f.value) == Some(false)
  }

  /**
   * The resets differ: the key the bridge looks at is misread while native does not reset for the other one, or it
   * is not misread and native resets for the other one as well.
   */
  predicate ResetsDiffer(a: Attrs) {
    if a.resetFilter.None? then Misread(a.resetFilterAlarm)
    else Misread(a.resetFilter) != On(a.resetFilterAlarm)
  }

  lemma KnownFlag(f: Option<Flag>)
    requires f.Some? && !Unknown(f)
    ensures Truthy(f) == (On(f) || Misread(f)) && !(On(f) && Misread(f))
  {
    if f.value.Spelled? && f.value.word == "" {
      assert Lower(TrimSpace("")) == "";
    }
  }

  lemma ResetsAgreeIff(a: Attrs)
    requires !Unknown(a.resetFilter) && !Unknown(a.resetFilterAlarm)
    ensures Reset(On(a.resetFilter)) + Reset(On(a.resetFilterAlarm))
            == Reset(Truthy(OrElse(a.resetFilter, a.resetFilterAlarm)))
            <==> !ResetsDiffer(a)
  {
    if a.resetFilter.Some? {
      KnownFlag(a.resetFilter);
    }
    if a.resetFilterAlarm.Some? {
      KnownFlag(a.resetFilterAlarm);
    }
    assert |Reset(On(a.resetFilter)) + Reset(On(a.resetFilterAlarm))|
           == (if On(a.resetFilter) then 1 else 0) + if On(a.resetFilterAlarm) then 1 else 0;
  }

  /** What native accepts the bridge accepts, and they issue the same commands exactly when no flag parts them. */
  lemma NativeMatchesBridge(a: Attrs)
    requires NativeCommands(a).Ok?
    ensures !Bridge(a).raised
    ensures Bridge(a).issued == NativeCommands(a).value <==> !ResetsDiffer(a) && !Misread(a.isOn)
  {
    var mode, preset := OrElse(a.mode, a.ventilationMode), OrElse(a.preset, a.speed);
    if mode.Some? {
      AcceptedModesAgree(mode.value);
    }
    if preset.Some? {
      AcceptedSpeedsAgree(preset.value);
    }
    SwitchesAgreeIff(NativeMode(a).value + NativePreset(a).value + NativeManual(a).value, a);
  }

  lemma SwitchesAgreeIff(before: seq<Command>, a: Attrs)
    requires !Unknown(a.resetFilter) && !Unknown(a.resetFilterAlarm) && !Unknown(a.isOn)
    ensures before + BridgeSwitches(a)
            == before + Reset(On(a.resetFilter)) + Reset(On(a.resetFilterAlarm)) + NativeSwitch(a.isOn).value
            <==> !ResetsDiffer(a) && !Misread(a.isOn)
  {
    ResetsAgreeIff(a);
    if a.isOn.Some? {
      KnownFlag(a.isOn);
    }
    var native, bridge := Reset(On(a.resetFilter)) + Reset(On(a.resetFilterAlarm)),
                          Reset(Truthy(OrElse(a.resetFilter, a.resetFilterAlarm)));
    var x := NativeSwitch(a.isOn).value;
    var y := if a.isOn.None? then [] else [if Truthy(a.isOn) then TurnOn else TurnOff];
    Associate(before, Reset(On(a.resetFilter)), Reset(On(a.resetFilterAlarm)), x);
    SameFrontSameRest(before, bridge + y, native + x);
    EndsApart(bridge, y, native, x);
  }

  lemma Associate<T>(a: seq<T>, b: seq<T>, c: seq<T>, d: seq<T>)
    ensures a + b + c + d == a + ((b + c) + d)
  {
  }

  lemma SameFrontSameRest<T>(front: seq<T>, x: seq<T>, y: seq<T>)
    ensures front + x == front + y <==> x == y
  {
    assert (front + x)[|front|..] == x && (front + y)[|front|..] == y;
  }

  lemma EndsApart<T>(a: seq<T>, x: seq<T>, b: seq<T>, y: seq<T>)
    requires |x| == |y|
    ensures a + x == b + y <==> a == b && x == y
  {
    if a + x == b + y {
      assert a == (a + x)[..|a|] && b == (b + y)[..|b|];
      assert x == (a + x)[|a|..] && y == (b + y)[|b|..];
    }
  }

  predicate HasSeparator(value: string) {
    exists c <- value :: Separator(c)
  }

  lemma {:induction false} LowerKeeps(s: string, c: char)
    requires Separator(c)
    ensures c in Lower(s) <==> c in s
  {
    forall i | 0 <= i < |s|
      ensures Lower(s)[i] == c <==> s[i] == c
    {
    }
  }

  /** A text whose trimmed lower case is a word without separators has none itself. */
  lemma PlainWordPlainText(value: string)
    requires !HasSeparator(Lower(TrimSpace(value)))
    ensures !HasSeparator(value)
  {
    var before, after := TrimSplits(value, c => GoSpace(c));
    forall c | c in TrimSpace(value) && Separator(c)
      ensures c in Lower(TrimSpace(value))
    {
      LowerKeeps(TrimSpace(value), c);
    }
    assert forall c <- value :: c in before || c in TrimSpace(value) || c in after;
  }

  lemma PlainTextTrimsAlike(value: string)
    requires !HasSeparator(value)
    ensures Normalized(value) == Lower(TrimSpace(value))
  {
    TrimAgrees(value, c => GoSpace(c), c => PythonSpace(c));
  }

  lemma ModeWordIsPlain(value: string)
    requires ParseMode(value).Some?
    ensures !HasSeparator(Lower(TrimSpace(value)))
  {
  }

  lemma PresetWordIsPlain(value: string)
    requires ParseSpeed(value).Some?
    ensures !HasSeparator(Lower(TrimSpace(value)))
  {
  }

  /** Of the modes the bridge knows, native refuses exactly those with one of the four ASCII separators around them. */
  lemma KnownModeIsRefusedIff(value: string)
    requires ModeMap(Normalized(value)).Some?
    ensures ParseMode(value).None? <==> HasSeparator(value)
  {
    if !HasSeparator(value) {
      PlainTextTrimsAlike(value);
    } else if ParseMode(value).Some? {
      ModeWordIsPlain(value);
      PlainWordPlainText(value);
    }
  }

  /** The same for presets. */
  lemma KnownPresetIsRefusedIff(value: string)
    requires SpeedMap(Normalized(value)).Some?
    ensures ParseSpeed(value).None? <==> HasSeparator(value)
  {
    if !HasSeparator(value) {
      PlainTextTrimsAlike(value);
    } else if ParseSpeed(value).Some? {
      PresetWordIsPlain(value);
      PlainWordPlainText(value);
    }
  }

  /** No attribute asks native for a command. */
  predicate AsksForNothing(a: Attrs) {
    && a.mode.None? && a.ventilationMode.None? && a.preset.None? && a.speed.None?
    && a.manualSpeed.None? && a.isOn.None? && !On(a.resetFilter) && !On(a.resetFilterAlarm)
  }

  predicate Padded(value: Option<string>) {
    value.Some? && HasSeparator(value.value)
  }

  /**
   * Native refuses exactly what the bridge raises on, what asks for nothing, a mode or preset with a separator
   * around it, and a boolean in a spelling it does not know.
   */
  lemma NativeRefusesIff(a: Attrs)
    ensures NativeCommands(a).Err?
            <==> || Bridge(a).raised || AsksForNothing(a)
                 || Padded(OrElse(a.mode, a.ventilationMode)) || Padded(OrElse(a.preset, a.speed))
                 || Unknown(a.resetFilter) || Unknown(a.resetFilterAlarm) || Unknown(a.isOn)
  {
    var mode, preset := OrElse(a.mode, a.ventilationMode), OrElse(a.preset, a.speed);
    if mode.Some? {
      ModeIsAcceptedIff(mode.value);
    }
    if preset.Some? {
      PresetIsAcceptedIff(preset.value);
    }
  }

  lemma ModeIsAcceptedIff(value: string)
    ensures ParseMode(value).Some? <==> ModeMap(Normalized(value)).Some? && !HasSeparator(value)
  {
    if ParseMode(value).Some? {
      AcceptedModesAgree(value);
    }
    if ModeMap(Normalized(value)).Some? {
      KnownModeIsRefusedIff(value);
    }
  }

  lemma PresetIsAcceptedIff(value: string)
    ensures ParseSpeed(value).Some? <==> SpeedMap(Normalized(value)).Some? && !HasSeparator(value)
  {
    if ParseSpeed(value).Some? {
      AcceptedSpeedsAgree(value);
    }
    if SpeedMap(Normalized(value)).Some? {
      KnownPresetIsRefusedIff(value);
    }
  }

  /** Any separator in front of any mode parts them: the bridge sets the mode that native refuses. */
  lemma SeparatorPaddingPartsThem(separator: char, word: string, a: Attrs)
    requires Separator(separator) && ModeMap(word).Some?
    requires a == Attrs(Some([separator] + word), None, None, None, None, None, None, None)
    ensures NativeCommands(a) == Err(UnsupportedMode)
    ensures Bridge(a) == BridgeRun([SetMode(ModeMap(word).value)], false)
  {
    PaddedIsNormalized(separator, word);
    assert ([separator] + word)[0] == separator;
    KnownModeIsRefusedIff([separator] + word);
  }

  predicate Letters(word: string) {
    word != "" && forall i :: 0 <= i < |word| ==> 'a' <= word[i] <= 'z'
  }

  lemma ModesAreLetters(word: string)
    requires ModeMap(word).Some?
    ensures Letters(word)
  {
  }

  lemma LettersAreLower(word: string)
    requires Letters(word)
    ensures Lower(word) == word
  {
  }

  lemma PaddedIsNormalized(separator: char, word: string)
    requires Separator(separator) && ModeMap(word).Some?
    ensures Normalized([separator] + word) == word
  {
    ModesAreLetters(word);
    LettersAreLower(word);
    TrimDropsPadding([separator], word, "", c => PythonSpace(c));
    assert [separator] + word + "" == [separator] + word;
  }
}
