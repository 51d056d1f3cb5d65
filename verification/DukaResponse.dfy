// internal/dukaone/native/response.go: the packet parser, and its exact relation to the printer of DukaPacket.

module DukaResponse {
  import opened Common
  import opened DukaPacket

  const SPEED_OFF: byte := 0
  const EXTENDED: byte := 0xFE

  datatype FirmwareDate = FirmwareDate(first: byte, second: byte, year: int)

  /** An absent reading is None; an absent text is empty. */
  datatype State = State(
    deviceId: seq<byte>,
    ipAddress: seq<byte>,
    speed: Option<byte>,
    mode: Option<byte>,
    manualSpeed: Option<byte>,
    isOn: Option<bool>,
    humidity: Option<byte>,
    filterAlarm: Option<bool>,
    filterTimer: Option<int>,
    fanRpm: Option<int>,
    firmwareVersion: Option<(byte, byte)>,
    firmwareDate: Option<FirmwareDate>,
    unitType: Option<byte>,
    searchDeviceId: seq<byte>)

  function Blank(deviceId: seq<byte>): State {
    State(deviceId, [], None, None, None, None, None, None, None, None, None, None, None, [])
  }

  datatype DecodeError =
    | PacketTooShort
    | InvalidHeader
    | BadChecksum
    | ShortStringLength
    | ShortStringPayload
    | MissingFunction
    | UnexpectedFunction(fn: byte)
    | InvalidExtendedParameter
    | UnknownParameter(param: byte)
    | ParameterOverruns(param: byte)

  /** Faulted: a value is indexed past its end, which stops the program instead of returning an error. */
  datatype Outcome = Decoded(state: State) | Rejected(error: DecodeError) | Faulted

  // ------------------------------------------------------------- the fields

  /** The size of each parameter that may appear without a size octet. */
  function ParameterSize(param: byte): Option<nat> {
    match param
    case 0x7D | 0x95 | 0x96 => Some(0)
    case 0x01 | 0x02 | 0x06 | 0x07 | 0x0F | 0x14 | 0x16 | 0x19 | 0x25 | 0x2D | 0x32 | 0x44 | 0x65 | 0x66 | 0x72
       | 0x80 | 0x83 | 0x85 | 0x87 | 0x88 | 0x94 | 0x99 | 0x9A | 0x9B | 0xB7 => Some(1)
    case 0x24 | 0x4A | 0x4B | 0xB9 => Some(2)
    case 0x0B | 0x64 | 0x6F => Some(3)
    case 0x70 | 0x7E | 0x9C | 0x9D | 0x9E => Some(4)
    case 0x77 | 0x86 => Some(6)
    case 0x7C => Some(16)
    case _ => None
  }

  /** How many octets of the value the branch for this parameter reads. */
  function OctetsRead(param: byte): nat {
    if param == PARAM_READ_FIRMWARE then 6
    else if param == PARAM_FILTER_TIMER then 3
    else if param == PARAM_FAN1_RPM then 2
    else if param == PARAM_ON_OFF || param == PARAM_SPEED || param == PARAM_MANUAL_SPEED
            || param == PARAM_CURRENT_HUMIDITY || param == PARAM_VENTILATION_MODE || param == PARAM_UNIT_TYPE
            || param == PARAM_FILTER_ALARM then 1
    else 0
  }

  datatype Field = Plain(param: byte, value: seq<byte>) | Extended(param: byte, value: seq<byte>)

  /** A field that has a wire form: the table fixes a plain size, one octet holds an extended size. */
  predicate Printable(f: Field) {
    match f
    case Plain(param, value) => ParameterSize(param) == Some(|value|)
    case Extended(_, value) => |value| < 0x100
  }

  /** The value is long enough for the branch that reads it. */
  predicate Complete(f: Field) {
    OctetsRead(f.param) <= |f.value|
  }

  predicate AllPrintable(fs: seq<Field>) {
    forall f <- fs :: Printable(f)
  }

  predicate AllComplete(fs: seq<Field>) {
    forall f <- fs :: Complete(f)
  }

  function Wire(f: Field): seq<byte> {
    match f
    case Plain(param, value) => [param] + value
    case Extended(param, value) => [0xFE, (|value| % 0x100) as byte, param] + value
  }

  function WireAll(fs: seq<Field>): seq<byte> {
    if fs == [] then [] else Wire(fs[0]) + WireAll(fs[1..])
  }

  /** The size table can never make a plain field too short for its branch. */
  lemma PlainFieldsAreComplete(f: Field)
    requires f.Plain? && Printable(f)
    ensures Complete(f)
  {
  }

  /** ... nor too long: it reads all of a value, but one of the two octets of the unit type. */
  lemma SizesAreWhatIsRead()
    ensures forall p: byte :: p in {0x01, 0x02, 0x25, 0x44, 0x88, 0xB7} ==>
              OctetsRead(p) == 1 && ParameterSize(p) == Some(1)
    ensures OctetsRead(0x4A) == 2 && ParameterSize(0x4A) == Some(2)
    ensures OctetsRead(0x64) == 3 && ParameterSize(0x64) == Some(3)
    ensures OctetsRead(0x86) == 6 && ParameterSize(0x86) == Some(6)
    ensures OctetsRead(0xB9) == 1 && ParameterSize(0xB9) == Some(2)
    ensures ParameterSize(0x7C) == Some(16)
    ensures forall p: byte :: OctetsRead(p) > 0 ==>
              p in {0x01, 0x02, 0x25, 0x44, 0x88, 0xB7, 0x4A, 0x64, 0x86, 0xB9}
  {
  }

  function TrimNull(value: seq<byte>): (text: seq<byte>)
    ensures text <= value
    ensures text == [] || text[|text| - 1] != 0
    ensures forall i :: |text| <= i < |value| ==> value[i] == 0
  {
    if value != [] && value[|value| - 1] == 0 then TrimNull(value[..|value| - 1]) else value
  }

  method TrimNullAscii(value: seq<byte>) returns (text: seq<byte>)
    ensures text == TrimNull(value)
  {
    var end := |value|;
    while end > 0 && value[end - 1] == 0
      invariant 0 <= end <= |value|
      invariant TrimNull(value[..end]) == TrimNull(value)
    {
      assert value[..end][..end - 1] == value[..end - 1];
      end := end - 1;
    }
    text := value[..end];
  }

  function FilterMinutes(value: seq<byte>): int
    requires |value| >= 3
  {
    value[0] as int + (value[2] as int * 24 + value[1] as int) * 60
  }

  /** The state after one field: the component of its parameter is replaced, every other one is kept. */
  function Apply(st: State, f: Field): State
    requires Complete(f)
  {
    var v, p := f.value, f.param;
    State(
      st.deviceId,
      st.ipAddress,
      if p == PARAM_SPEED then Some(v[0]) else st.speed,
      if p == PARAM_VENTILATION_MODE then Some(v[0]) else st.mode,
      if p == PARAM_MANUAL_SPEED then Some(v[0]) else st.manualSpeed,
      if p == PARAM_ON_OFF then Some(v[0] != 0) else st.isOn,
      if p == PARAM_CURRENT_HUMIDITY then Some(v[0]) else st.humidity,
      if p == PARAM_FILTER_ALARM then Some(v[0] != 0) else st.filterAlarm,
      if p == PARAM_FILTER_TIMER then Some(FilterMinutes(v)) else st.filterTimer,
      if p == PARAM_FAN1_RPM then Some(LittleEndian16(v[0], v[1])) else st.fanRpm,
      if p == PARAM_READ_FIRMWARE then Some((v[0], v[1])) else st.firmwareVersion,
      if p == PARAM_READ_FIRMWARE then Some(FirmwareDate(v[2], v[3], LittleEndian16(v[4], v[5])))
      else st.firmwareDate,
      if p == PARAM_UNIT_TYPE then Some(v[0]) else st.unitType,
      if p == PARAM_SEARCH then TrimNull(v) else st.searchDeviceId)
  }

  function ApplyAll(st: State, fs: seq<Field>): State
    requires AllComplete(fs)
    decreases |fs|
  {
    if fs == [] then st else ApplyAll(Apply(st, fs[0]), fs[1..])
  }

  function ForceOffSpeed(st: State): State {
    if st.isOn == Some(false) then st.(speed := Some(SPEED_OFF)) else st
  }

  // ------------------------------------------------------- the specification

  datatype FieldRead = Got(field: Field, used: nat) | BadField(error: DecodeError)

  function ReadField(s: seq<byte>): (r: FieldRead)
    requires s != []
    ensures r.Got? ==> 0 < r.used <= |s|
  {
    if s[0] == EXTENDED then
      if |s| < 3 then BadField(InvalidExtendedParameter)
      else
        var used := 3 + s[1] as int;
        if used > |s| then BadField(ParameterOverruns(s[2])) else Got(Extended(s[2], s[3..used]), used)
    else
      match ParameterSize(s[0])
      case None => BadField(UnknownParameter(s[0]))
      case Some(size) =>
        if 1 + size > |s| then BadField(ParameterOverruns(s[0])) else Got(Plain(s[0], s[1..1 + size]), 1 + size)
  }

  function DecodeParams(s: seq<byte>, st: State): Outcome
    decreases |s|
  {
    if s == [] then Decoded(ForceOffSpeed(st))
    else
      match ReadField(s)
      case BadField(e) => Rejected(e)
      case Got(f, used) => if Complete(f) then DecodeParams(s[used..], Apply(st, f)) else Faulted
  }

  /** A length-prefixed text at the front of `s`, which ends where the checksum begins. */
  function ReadString(s: seq<byte>): (r: Result<seq<byte>, DecodeError>)
    ensures r.Ok? ==> 1 + |r.value| <= |s| && |r.value| < 0x100
  {
    if s == [] then Err(ShortStringLength)
    else
      var end := 1 + s[0] as int;
      if end > |s| then Err(ShortStringPayload) else Ok(s[1..end])
  }

  datatype Frame = Frame(deviceId: seq<byte>, password: seq<byte>, fn: byte, params: seq<byte>)

  function SplitBody(body: seq<byte>): Result<Frame, DecodeError> {
    match ReadString(body)
    case Err(e) => Err(e)
    case Ok(deviceId) =>
      var afterId := body[1 + |deviceId|..];
      match ReadString(afterId)
      case Err(e) => Err(e)
      case Ok(password) =>
        var rest := afterId[1 + |password|..];
        if rest == [] then Err(MissingFunction) else Ok(Frame(deviceId, password, rest[0], rest[1..]))
  }

  function Decode(data: seq<byte>): Outcome {
    if |data| < 6 then Rejected(PacketTooShort)
    else if !ValidHeader(data) then Rejected(InvalidHeader)
    else if !ValidChecksum(data) then Rejected(BadChecksum)
    else
      match SplitBody(data[3..|data| - 2])
      case Err(e) => Rejected(e)
      case Ok(frame) =>
        if frame.fn != FUNC_RESPONSE then Rejected(UnexpectedFunction(frame.fn))
        else DecodeParams(frame.params, Blank(frame.deviceId))
  }

  // --------------------------------------------------------------- the code

  method ReadStringAt(data: seq<byte>, start: nat) returns (r: Result<seq<byte>, DecodeError>, pos: nat)
    requires 2 <= |data| && start <= |data| - 2
    ensures r == ReadString(data[start..|data| - 2])
    ensures r.Ok? ==> pos == start + 1 + |r.value| <= |data| - 2
  {
    pos := start;
    if pos >= |data| - 2 {
      return Err(ShortStringLength), pos;
    }
    var size := data[pos] as int;
    pos := pos + 1;
    if pos + size > |data| - 2 {
      return Err(ShortStringPayload), pos;
    }
    SliceOfSlice(data, start, |data| - 2, 1, 1 + size);
    return Ok(data[pos..pos + size]), pos + size;
  }

  method DecodeResponse(data: seq<byte>) returns (outcome: Outcome)
    ensures outcome == Decode(data)
  {
    if |data| < 6 {
      return Rejected(PacketTooShort);
    }
    if data[0] != HEADER[0] || data[1] != HEADER[1] || data[2] != HEADER[2] {
      return Rejected(InvalidHeader);
    }
    assert data[..3] == HEADER;
    var end := |data| - 2;
    var expected := Checksum(data[..end]);
    if expected != LittleEndian16(data[end], data[end + 1]) {
      return Rejected(BadChecksum);
    }
    var head, pos := ReadHead(data);
    if head.Err? {
      return Rejected(head.error);
    }
    if head.value.fn != FUNC_RESPONSE {
      return Rejected(UnexpectedFunction(head.value.fn));
    }
    outcome := DecodeParameters(data, pos, Blank(head.value.deviceId));
  }

  /** The two texts and the function octet; the parameters start at `pos`. */
  method ReadHead(data: seq<byte>) returns (head: Result<Frame, DecodeError>, pos: nat)
    requires 6 <= |data|
    ensures head == SplitBody(data[3..|data| - 2])
    ensures head.Ok? ==> pos <= |data| - 2 && head.value.params == data[pos..|data| - 2]
  {
    var end := |data| - 2;
    var id;
    id, pos := ReadStringAt(data, 3);
    if id.Err? {
      return Err(id.error), pos;
    }
    SliceOfSlice(data, 3, end, pos - 3, end - 3);
    ghost var afterId := pos;
    var password;
    password, pos := ReadStringAt(data, pos);
    if password.Err? {
      return Err(password.error), pos;
    }
    SliceOfSlice(data, afterId, end, pos - afterId, end - afterId);
    if pos >= end {
      return Err(MissingFunction), pos;
    }
    SliceOfSlice(data, pos, end, 1, end - pos);
    return Ok(Frame(id.value, password.value, data[pos], data[pos + 1..end])), pos + 1;
  }

  /** The field that starts at `start`; the parameters end where the checksum begins. */
  method ReadFieldAt(data: seq<byte>, start: nat) returns (read: FieldRead)
    requires 2 <= |data| && start < |data| - 2
    ensures read == ReadField(data[start..|data| - 2])
  {
    var pos, end := start, |data| - 2;
    ghost var rest := data[start..end];
    var param := data[pos];
    var size: int := 1;
    pos := pos + 1;
    var extended := param == EXTENDED;
    if extended {
      if pos + 1 >= end {
        return BadField(InvalidExtendedParameter);
      }
      size := data[pos];
      pos := pos + 1;
      param := data[pos];
      pos := pos + 1;
    } else {
      var known := ParameterSize(param);
      if known.None? {
        return BadField(UnknownParameter(param));
      }
      size := known.value;
    }
    if pos + size > end {
      return BadField(ParameterOverruns(param));
    }
    SliceOfSlice(data, start, end, pos - start, pos - start + size);
    var value := data[pos..pos + size];
    return Got(if extended then Extended(param, value) else Plain(param, value), pos + size - start);
  }

  method StoreField(st: State, f: Field) returns (next: State)
    requires Complete(f)
    ensures next == Apply(st, f)
  {
    var value := f.value;
    next := st;
    if f.param == PARAM_ON_OFF {
      next := st.(isOn := Some(value[0] != 0));
    } else if f.param == PARAM_SPEED {
      next := st.(speed := Some(value[0]));
    } else if f.param == PARAM_MANUAL_SPEED {
      next := st.(manualSpeed := Some(value[0]));
    } else if f.param == PARAM_FAN1_RPM {
      next := st.(fanRpm := Some(LittleEndian16(value[0], value[1])));
    } else if f.param == PARAM_CURRENT_HUMIDITY {
      next := st.(humidity := Some(value[0]));
    } else if f.param == PARAM_VENTILATION_MODE {
      next := st.(mode := Some(value[0]));
    } else if f.param == PARAM_READ_FIRMWARE {
      var year := LittleEndian16(value[4], value[5]);
      next := st.(firmwareVersion := Some((value[0], value[1])),
                  firmwareDate := Some(FirmwareDate(value[2], value[3], year)));
    } else if f.param == PARAM_UNIT_TYPE {
      next := st.(unitType := Some(value[0]));
    } else if f.param == PARAM_FILTER_ALARM {
      next := st.(filterAlarm := Some(value[0] != 0));
    } else if f.param == PARAM_FILTER_TIMER {
      next := st.(filterTimer := Some(FilterMinutes(value)));
    } else if f.param == PARAM_SEARCH {
      var text := TrimNullAscii(value);
      next := st.(searchDeviceId := text);
    }
  }

  /** What one turn of the loop comes to: `Go` when the field in front was stored. */
  datatype Turn = Stop(outcome: Outcome) | Go(state: State, used: nat)

  function TurnOf(s: seq<byte>, st: State): Turn
    requires s != []
  {
    var read := ReadField(s);
    if read.BadField? then Stop(Rejected(read.error))
    else if |read.field.value| < OctetsRead(read.field.param) then Stop(Faulted)
    else Go(Apply(st, read.field), read.used)
  }

  lemma ParamsStep(s: seq<byte>, st: State)
    requires s != []
    ensures var turn := TurnOf(s, st);
            && (turn.Go? ==> 0 < turn.used <= |s|)
            && DecodeParams(s, st) == if turn.Stop? then turn.outcome else DecodeParams(s[turn.used..], turn.state)
  {
  }

  /** One turn of the loop; `meaning` is what the parameters left come to. */
  method DecodeField(data: seq<byte>, pos: nat, st: State, ghost rest: seq<byte>,
                     ghost meaning: (seq<byte>, State) -> Outcome)
    returns (turn: Turn)
    requires 2 <= |data| && pos < |data| - 2 && rest == data[pos..|data| - 2]
    requires Means(meaning)
    ensures turn.Stop? ==> turn.outcome == meaning(rest, st)
    ensures turn.Go? ==> 0 < turn.used <= |rest| && meaning(rest[turn.used..], turn.state) == meaning(rest, st)
  {
    ParamsStep(rest, st);
    var read := ReadFieldAt(data, pos);
    if read.BadField? {
      assert DecodeParams(rest, st) == Rejected(read.error);
      return Stop(Rejected(read.error));
    }
    if |read.field.value| < OctetsRead(read.field.param) {
      assert DecodeParams(rest, st) == Faulted;
      return Stop(Faulted);
    }
    var next := StoreField(st, read.field);
    assert DecodeParams(rest, st) == DecodeParams(rest[read.used..], next);
    return Go(next, read.used);
  }

  ghost predicate Means(meaning: (seq<byte>, State) -> Outcome) {
    forall s, st {:trigger DecodeParams(s, st)} :: DecodeParams(s, st) == meaning(s, st)
  }

  lemma RestAfter(data: seq<byte>, pos: nat, end: nat, used: nat)
    requires pos + used <= end <= |data|
    ensures data[pos..end][used..] == data[pos + used..end]
  {
  }

  /** The loop over the parameters, from `start` to where the checksum begins. */
  method DecodeFields(data: seq<byte>, start: nat, blank: State, ghost meaning: (seq<byte>, State) -> Outcome)
    returns (failure: Option<Outcome>, state: State)
    requires 2 <= |data| && start <= |data| - 2 && Means(meaning)
    ensures meaning(data[start..|data| - 2], blank) == if failure.Some? then failure.value else meaning([], state)
  {
    var pos, end := start, |data| - 2;
    state := blank;
    ghost var rest := data[start..end];
    while pos < end
      invariant pos <= end && rest == data[pos..end]
      invariant meaning(rest, state) == meaning(data[start..end], blank)
    {
      var turn := DecodeField(data, pos, state, rest, meaning);
      if turn.Stop? {
        return Some(turn.outcome), state;
      }
      state := turn.state;
      RestAfter(data, pos, end, turn.used);
      pos := pos + turn.used;
      rest := rest[turn.used..];
    }
    assert rest == [];
    return None, state;
  }

  method DecodeParameters(data: seq<byte>, start: nat, blank: State) returns (outcome: Outcome)
    requires 2 <= |data| && start <= |data| - 2
    ensures outcome == DecodeParams(data[start..|data| - 2], blank)
  {
    var failure, state := DecodeFields(data, start, blank, DecodeParams);
    if failure.Some? {
      return failure.value;
    }
    if state.isOn.Some? && !state.isOn.value {
      state := state.(speed := Some(SPEED_OFF));
    }
    return Decoded(state);
  }
}
