// The response parser and the packet printer are exact inverses of each other.

module DukaRoundTrip {
  import opened Common
  import opened DukaPacket
  import opened DukaResponse

  // ------------------------------------------------------- fields and frames

  lemma FieldReadsBack(f: Field, tail: seq<byte>)
    requires Printable(f)
    ensures ReadField(Wire(f) + tail) == Got(f, |Wire(f)|)
    ensures (Wire(f) + tail)[|Wire(f)|..] == tail
  {
    var s := Wire(f) + tail;
    match f
    case Plain(param, value) =>
      assert s[0] == param && s[1..1 + |value|] == value;
    case Extended(param, value) =>
      assert s[0] == EXTENDED && s[1] == |value| && s[2] == param && s[3..3 + |value|] == value;
  }

  lemma ReadFieldPrintsBack(s: seq<byte>)
    requires s != [] && ReadField(s).Got?
    ensures var r := ReadField(s);
            Printable(r.field) && |Wire(r.field)| == r.used && s == Wire(r.field) + s[r.used..]
  {
  }

  /** Complete fields are consumed one after the other, whatever follows them. */
  lemma {:induction false} FieldsAreConsumed(fs: seq<Field>, tail: seq<byte>, st: State)
    requires AllPrintable(fs) && AllComplete(fs)
    ensures DecodeParams(WireAll(fs) + tail, st) == DecodeParams(tail, ApplyAll(st, fs))
    decreases |fs|
  {
    if fs == [] {
      assert WireAll(fs) + tail == tail;
    } else {
      var rest := WireAll(fs[1..]) + tail;
      assert WireAll(fs) + tail == Wire(fs[0]) + rest;
      FieldReadsBack(fs[0], rest);
      FieldsAreConsumed(fs[1..], tail, Apply(st, fs[0]));
    }
  }

  lemma WireAllOfMore(f: Field, more: seq<Field>, tail: seq<byte>)
    ensures WireAll([f] + more) + tail == Wire(f) + (WireAll(more) + tail)
    ensures Complete(f) && AllComplete(more) ==> AllComplete([f] + more)
    ensures forall st :: Complete(f) && AllComplete(more) ==>
              ApplyAll(st, [f] + more) == ApplyAll(Apply(st, f), more)
  {
  }

  /** The other way: all parameters start with the wire form of complete fields, and what follows stops the parser. */
  lemma {:induction false} ParamsPrintBack(s: seq<byte>, st: State) returns (fs: seq<Field>, tail: seq<byte>)
    ensures AllPrintable(fs) && AllComplete(fs) && s == WireAll(fs) + tail
    ensures DecodeParams(s, st) == DecodeParams(tail, ApplyAll(st, fs))
    ensures match DecodeParams(s, st)
            case Decoded(_) => tail == []
            case Faulted => tail != [] && ReadField(tail).Got? && !Complete(ReadField(tail).field)
            case Rejected(e) => tail != [] && ReadField(tail) == BadField(e)
    decreases |s|
  {
    if s == [] {
      fs, tail := [], [];
    } else {
      var read := ReadField(s);
      if read.Got? {
        ReadFieldPrintsBack(s);
      }
      if read.Got? && Complete(read.field) {
        var more;
        more, tail := ParamsPrintBack(s[read.used..], Apply(st, read.field));
        fs := [read.field] + more;
        WireAllOfMore(read.field, more, tail);
      } else {
        fs, tail := [], s;
      }
    }
  }

  lemma StringReadsBack(text: seq<byte>, tail: seq<byte>)
    requires |text| < 0x100
    ensures ReadString(LengthPrefixed(text) + tail) == Ok(text)
    ensures (LengthPrefixed(text) + tail)[1 + |text|..] == tail
  {
  }

  /** A frame survives the trip exactly when each text fits its one-octet length. */
  lemma FrameReadsBack(deviceId: seq<byte>, password: seq<byte>, fn: byte, params: seq<byte>)
    ensures SplitBody(Body(deviceId, password, fn, params)) == Ok(Frame(deviceId, password, fn, params))
            <==> |deviceId| < 0x100 && |password| < 0x100
  {
    var body := Body(deviceId, password, fn, params);
    if |deviceId| < 0x100 && |password| < 0x100 {
      var afterId := LengthPrefixed(password) + ([fn] + params);
      assert body == LengthPrefixed(deviceId) + afterId;
      StringReadsBack(deviceId, afterId);
      StringReadsBack(password, [fn] + params);
    }
  }

  lemma FramePrintsBack(body: seq<byte>)
    requires SplitBody(body).Ok?
    ensures var f := SplitBody(body).value;
            |f.deviceId| < 0x100 && |f.password| < 0x100 && body == Body(f.deviceId, f.password, f.fn, f.params)
  {
  }

  lemma PacketsWithOneBodyAreEqual(a: seq<byte>, b: seq<byte>)
    requires WellFramed(a) && WellFramed(b) && a[3..|a| - 2] == b[3..|b| - 2]
    ensures a == b
  {
    WellFramedIsBuiltFromItsBody(a);
    WellFramedIsBuiltFromItsBody(b);
  }

  // ---------------------------------------------------------- whole packets

  /** A response with these contents; `params` are the octets after the function octet. */
  ghost predicate IsResponse(data: seq<byte>, deviceId: seq<byte>, password: seq<byte>, params: seq<byte>) {
    |deviceId| < 0x100 && |password| < 0x100 && data == Packet(deviceId, password, 6, params)
  }

  ghost predicate IsPrinted(data: seq<byte>, deviceId: seq<byte>, password: seq<byte>, fs: seq<Field>) {
    AllPrintable(fs) && IsResponse(data, deviceId, password, WireAll(fs))
  }

  function Reading(deviceId: seq<byte>, fs: seq<Field>): State
    requires AllComplete(fs)
  {
    ForceOffSpeed(ApplyAll(Blank(deviceId), fs))
  }

  lemma ResponseDecodesItsParams(data: seq<byte>, deviceId: seq<byte>, password: seq<byte>, params: seq<byte>)
    requires IsResponse(data, deviceId, password, params)
    ensures Decode(data) == DecodeParams(params, Blank(deviceId))
  {
    BuiltPacketsAreWellFramed(deviceId, password, FUNC_RESPONSE, params);
    FrameReadsBack(deviceId, password, FUNC_RESPONSE, params);
  }

  lemma UnlessRejectedItIsAResponse(data: seq<byte>) returns (frame: Frame)
    requires !Decode(data).Rejected?
    ensures IsResponse(data, frame.deviceId, frame.password, frame.params)
    ensures Decode(data) == DecodeParams(frame.params, Blank(frame.deviceId))
  {
    var body := data[3..|data| - 2];
    frame := SplitBody(body).value;
    FramePrintsBack(body);
    BuiltPacketsAreWellFramed(frame.deviceId, frame.password, frame.fn, frame.params);
    PacketsWithOneBodyAreEqual(data, Packet(frame.deviceId, frame.password, frame.fn, frame.params));
  }

  /** Printing then parsing gives the reading of the printed fields. */
  lemma PrintedResponsesDecode(data: seq<byte>, deviceId: seq<byte>, password: seq<byte>, fs: seq<Field>)
    requires IsPrinted(data, deviceId, password, fs) && AllComplete(fs)
    ensures Decode(data) == Decoded(Reading(deviceId, fs))
  {
    ResponseDecodesItsParams(data, deviceId, password, WireAll(fs));
    FieldsAreConsumed(fs, [], Blank(deviceId));
    assert WireAll(fs) + [] == WireAll(fs);
  }

  /** The accepted packets, with the state each one gives, are exactly the printed ones. */
  lemma AcceptedExactlyWhenPrinted(data: seq<byte>, st: State)
    ensures Decode(data) == Decoded(st)
            <==> exists deviceId, password, fs ::
                   IsPrinted(data, deviceId, password, fs) && AllComplete(fs) && st == Reading(deviceId, fs)
  {
    if Decode(data) == Decoded(st) {
      var frame := UnlessRejectedItIsAResponse(data);
      var fs, tail := ParamsPrintBack(frame.params, Blank(frame.deviceId));
      assert WireAll(fs) + tail == WireAll(fs);
      assert IsPrinted(data, frame.deviceId, frame.password, fs);
    }
    forall deviceId, password, fs | IsPrinted(data, deviceId, password, fs) && AllComplete(fs)
      ensures Decode(data) == Decoded(Reading(deviceId, fs))
    {
      PrintedResponsesDecode(data, deviceId, password, fs);
    }
  }

  lemma FrontsAgree(f: Field, fs: seq<byte>, g: Field, gs: seq<byte>)
    requires Printable(f) && Printable(g) && Wire(f) + fs == Wire(g) + gs
    ensures f == g && fs == gs
  {
    FieldReadsBack(f, fs);
    FieldReadsBack(g, gs);
  }

  lemma SameFrontAndRest(fs: seq<Field>, gs: seq<Field>)
    requires fs != [] && gs != [] && fs[0] == gs[0] && fs[1..] == gs[1..]
    ensures fs == gs
  {
  }

  lemma WireIsNotEmpty(fs: seq<Field>)
    ensures WireAll(fs) == [] <==> fs == []
  {
  }

  lemma {:induction false} WireAllIsInjective(fs: seq<Field>, gs: seq<Field>)
    requires AllPrintable(fs) && AllPrintable(gs) && WireAll(fs) == WireAll(gs)
    ensures fs == gs
    decreases |fs|
  {
    WireIsNotEmpty(fs);
    WireIsNotEmpty(gs);
    if fs != [] {
      FrontsAgree(fs[0], WireAll(fs[1..]), gs[0], WireAll(gs[1..]));
      WireAllIsInjective(fs[1..], gs[1..]);
      SameFrontAndRest(fs, gs);
    }
  }

  /** One packet is the print of at most one device id, password and field list. */
  lemma PrintingIsUnique(data: seq<byte>, id1: seq<byte>, pw1: seq<byte>, fs1: seq<Field>,
                         id2: seq<byte>, pw2: seq<byte>, fs2: seq<Field>)
    requires IsPrinted(data, id1, pw1, fs1) && IsPrinted(data, id2, pw2, fs2)
    ensures id1 == id2 && pw1 == pw2 && fs1 == fs2
  {
    BuiltPacketsAreWellFramed(id1, pw1, FUNC_RESPONSE, WireAll(fs1));
    BuiltPacketsAreWellFramed(id2, pw2, FUNC_RESPONSE, WireAll(fs2));
    FrameReadsBack(id1, pw1, FUNC_RESPONSE, WireAll(fs1));
    FrameReadsBack(id2, pw2, FUNC_RESPONSE, WireAll(fs2));
    WireAllIsInjective(fs1, fs2);
  }

  /** The program faults exactly on responses whose complete fields are followed by a short extended one. */
  lemma FaultsExactlyOnShortExtendedField(data: seq<byte>)
    ensures Decode(data) == Faulted
            <==> exists deviceId, password, fs, short, tail ::
                   FaultsAt(data, deviceId, password, fs, short, tail)
  {
    if Decode(data) == Faulted {
      var frame := UnlessRejectedItIsAResponse(data);
      var fs, rest := ParamsPrintBack(frame.params, Blank(frame.deviceId));
      ReadFieldPrintsBack(rest);
      var read := ReadField(rest);
      if read.field.Plain? {
        PlainFieldsAreComplete(read.field);
      }
      assert FaultsAt(data, frame.deviceId, frame.password, fs, read.field, rest[read.used..]);
    }
    forall deviceId, password, fs, short, tail | FaultsAt(data, deviceId, password, fs, short, tail)
      ensures Decode(data) == Faulted
    {
      var rest := Wire(short) + tail;
      ResponseDecodesItsParams(data, deviceId, password, WireAll(fs) + rest);
      FieldsAreConsumed(fs, rest, Blank(deviceId));
      FieldReadsBack(short, tail);
    }
  }

  ghost predicate FaultsAt(data: seq<byte>, deviceId: seq<byte>, password: seq<byte>, fs: seq<Field>, short: Field,
                           tail: seq<byte>)
  {
    && AllPrintable(fs) && AllComplete(fs)
    && short.Extended? && Printable(short) && !Complete(short)
    && IsResponse(data, deviceId, password, WireAll(fs) + (Wire(short) + tail))
  }

  /** Accepted or not, a well framed packet with one octet changed is rejected. */
  lemma OneAlteredByteIsRejected(data: seq<byte>, i: nat, b: byte)
    requires !Decode(data).Rejected? && i < |data| && b != data[i]
    ensures Decode(data[i := b]) == Rejected(if i < 3 then InvalidHeader else BadChecksum)
  {
    OneAlteredByteIsDetected(data, i, b);
    if i >= 3 {
      assert data[i := b][..3] == data[..3];
    }
  }

  // ---------------------------------------------------------- last one wins

  /** The value of the last field with this parameter. */
  function Last(fs: seq<Field>, param: byte): Option<seq<byte>> {
    if fs == [] then None
    else if fs[|fs| - 1].param == param then Some(fs[|fs| - 1].value)
    else Last(fs[..|fs| - 1], param)
  }

  /** The place of that field, or -1. */
  lemma {:induction false} LastIsTheLast(fs: seq<Field>, param: byte) returns (i: int)
    ensures -1 <= i < |fs| && (i == -1 <==> Last(fs, param).None?)
    ensures i >= 0 ==> fs[i].param == param && Last(fs, param) == Some(fs[i].value)
    ensures forall j :: i < j < |fs| ==> fs[j].param != param
  {
    if fs == [] || fs[|fs| - 1].param == param {
      i := |fs| - 1;
    } else {
      var before := fs[..|fs| - 1];
      i := LastIsTheLast(before, param);
      assert forall j :: 0 <= j < |before| ==> before[j] == fs[j];
    }
  }

  function Octet(v: Option<seq<byte>>): Option<byte> {
    if v.Some? && |v.value| >= 1 then Some(v.value[0]) else None
  }

  function Flag(v: Option<seq<byte>>): Option<bool> {
    if Octet(v).Some? then Some(Octet(v).value != 0) else None
  }

  function Word(v: Option<seq<byte>>): Option<int> {
    if v.Some? && |v.value| >= 2 then Some(v.value[0] as int + 256 * v.value[1] as int) else None
  }

  function Minutes(v: Option<seq<byte>>): Option<int> {
    if v.Some? && |v.value| >= 3 then
      Some(v.value[0] as int + 60 * v.value[1] as int + 24 * 60 * v.value[2] as int)
    else None
  }

  function Version(v: Option<seq<byte>>): Option<(byte, byte)> {
    if v.Some? && |v.value| >= 6 then Some((v.value[0], v.value[1])) else None
  }

  function Date(v: Option<seq<byte>>): Option<FirmwareDate> {
    if v.Some? && |v.value| >= 6 then
      Some(FirmwareDate(v.value[2], v.value[3], v.value[4] as int + 256 * v.value[5] as int))
    else None
  }

  /** A state told field by field: each component is what `last` gives for its own parameter, by its number. */
  function FromLast(deviceId: seq<byte>, last: byte -> Option<seq<byte>>): State {
    State(
      deviceId, [],
      Octet(last(0x02)),
      Octet(last(0xB7)),
      Octet(last(0x44)),
      Flag(last(0x01)),
      Octet(last(0x25)),
      Flag(last(0x88)),
      Minutes(last(0x64)),
      Word(last(0x4A)),
      Version(last(0x86)),
      Date(last(0x86)),
      Octet(last(0xB9)),
      if last(0x7C).Some? then TrimNull(last(0x7C).value) else [])
  }

  lemma {:induction false} ApplyAllSnoc(st: State, fs: seq<Field>, f: Field)
    requires AllComplete(fs) && Complete(f)
    ensures AllComplete(fs + [f])
    ensures ApplyAll(st, fs + [f]) == Apply(ApplyAll(st, fs), f)
    decreases |fs|
  {
    if fs == [] {
      assert fs + [f] == [f];
    } else {
      assert (fs + [f])[1..] == fs[1..] + [f];
      ApplyAllSnoc(Apply(st, fs[0]), fs[1..], f);
    }
  }

  lemma ApplyReplacesTheLast(deviceId: seq<byte>, last: byte -> Option<seq<byte>>, f: Field)
    requires Complete(f)
    ensures Apply(FromLast(deviceId, last), f)
            == FromLast(deviceId, (p: byte) => if p == f.param then Some(f.value) else last(p))
  {
  }

  lemma OneMoreField(deviceId: seq<byte>, before: seq<Field>, f: Field)
    requires Complete(f)
    ensures Apply(FromLast(deviceId, p => Last(before, p)), f) == FromLast(deviceId, p => Last(before + [f], p))
  {
    ApplyReplacesTheLast(deviceId, p => Last(before, p), f);
    LastOfOneMore(before, f);
    SameLastSameState(deviceId, p => Last(before + [f], p),
                      (p: byte) => if p == f.param then Some(f.value) else Last(before, p));
  }

  lemma {:induction false} EachFieldIsStoredLast(deviceId: seq<byte>, fs: seq<Field>)
    requires AllComplete(fs)
    ensures ApplyAll(Blank(deviceId), fs) == FromLast(deviceId, p => Last(fs, p))
    decreases |fs|
  {
    if fs != [] {
      var before, f := fs[..|fs| - 1], fs[|fs| - 1];
      assert fs == before + [f];
      EachFieldIsStoredLast(deviceId, before);
      ApplyAllSnoc(Blank(deviceId), before, f);
      OneMoreField(deviceId, before, f);
    }
  }

  lemma LastOfOneMore(before: seq<Field>, f: Field)
    ensures forall p: byte :: Last(before + [f], p) == if p == f.param then Some(f.value) else Last(before, p)
  {
  }

  lemma SameLastSameState(deviceId: seq<byte>, a: byte -> Option<seq<byte>>, b: byte -> Option<seq<byte>>)
    requires forall p: byte :: a(p) == b(p)
    ensures FromLast(deviceId, a) == FromLast(deviceId, b)
  {
  }

  /** Reading a packet is reading the last field of each parameter, except that an off device has speed off. */
  lemma LastFieldWins(deviceId: seq<byte>, fs: seq<Field>)
    requires AllComplete(fs)
    ensures var last := FromLast(deviceId, p => Last(fs, p));
            Reading(deviceId, fs) == if last.isOn == Some(false) then last.(speed := Some(0)) else last
  {
    EachFieldIsStoredLast(deviceId, fs);
  }
}
