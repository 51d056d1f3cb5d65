// Why internal/dukaone/native/response.go refuses a packet: the exact condition for each of its errors.

module DukaRejection {
  import opened Common
  import opened DukaPacket
  import opened DukaResponse
  import opened DukaRoundTrip

  predicate HasHeader(data: seq<byte>) {
    |data| >= 6 && data[0] == 0xFD && data[1] == 0xFD && data[2] == 0x02
  }

  /** The last two octets hold the sum of those from the third on. */
  predicate SumsUp(data: seq<byte>)
    requires |data| >= 6
  {
    var n := |data| - 2;
    data[n] as int + 256 * data[n + 1] as int == Sum(data[2..n]) % 65536
  }

  predicate Framed(data: seq<byte>) {
    HasHeader(data) && SumsUp(data)
  }

  /** What lies between header and checksum. */
  function Within(data: seq<byte>): seq<byte>
    requires |data| >= 6
  {
    data[3..|data| - 2]
  }

  /** A text behind its length octet, and what follows. */
  predicate TextThen(s: seq<byte>, text: seq<byte>, rest: seq<byte>) {
    |text| < 0x100 && s == [|text| as byte] + text + rest
  }

  predicate CutShort(s: seq<byte>) {
    s != [] && |s| <= s[0] as int
  }

  predicate IsPacket(data: seq<byte>, id: seq<byte>, password: seq<byte>, fn: byte, params: seq<byte>) {
    |id| < 0x100 && |password| < 0x100 && data == Packet(id, password, fn, params)
  }

  ghost predicate HasFunction(data: seq<byte>, fn: byte) {
    exists id, password, params :: IsPacket(data, id, password, fn, params)
  }

  /** The body ends where a text should have its length. */
  ghost predicate EndsBeforeLength(body: seq<byte>) {
    body == [] || exists id :: TextThen(body, id, [])
  }

  /** A text is longer than what is left. */
  ghost predicate EndsInText(body: seq<byte>) {
    CutShort(body) || exists id, rest :: TextThen(body, id, rest) && CutShort(rest)
  }

  /** Two texts and nothing else. */
  ghost predicate EndsBeforeFunction(body: seq<byte>) {
    exists id, rest, password :: TextThen(body, id, rest) && TextThen(rest, password, [])
  }

  /** The parameters of a response: complete fields, and then `tail`. */
  ghost predicate ResponseEndsIn(data: seq<byte>, tail: seq<byte>) {
    exists id, password, fs ::
      && IsResponse(data, id, password, WireAll(fs) + tail)
      && AllPrintable(fs) && AllComplete(fs)
  }

  /** What stands where the parser stops. */
  predicate BadTail(tail: seq<byte>, e: DecodeError) {
    tail != [] &&
    match e
    case InvalidExtendedParameter => |tail| <= 2 && tail[0] == 0xFE
    case UnknownParameter(p) => tail[0] == p != 0xFE && ParameterSize(p).None?
    case ParameterOverruns(p) =>
      if tail[0] == 0xFE then 3 <= |tail| < 3 + tail[1] as int && tail[2] == p
      else tail[0] == p && ParameterSize(p).Some? && |tail| < 1 + ParameterSize(p).value
    case _ => false
  }

  ghost predicate RejectedFor(data: seq<byte>, e: DecodeError) {
    match e
    case PacketTooShort => |data| < 6
    case InvalidHeader => |data| >= 6 && !HasHeader(data)
    case BadChecksum => HasHeader(data) && !SumsUp(data)
    case ShortStringLength => Framed(data) && EndsBeforeLength(Within(data))
    case ShortStringPayload => Framed(data) && EndsInText(Within(data))
    case MissingFunction => Framed(data) && EndsBeforeFunction(Within(data))
    case UnexpectedFunction(fn) => fn != 6 && HasFunction(data, fn)
    case _ => exists tail :: ResponseEndsIn(data, tail) && BadTail(tail, e)
  }

  lemma FrameTests(data: seq<byte>)
    requires |data| >= 6
    ensures HasHeader(data) <==> ValidHeader(data)
    ensures SumsUp(data) <==> ValidChecksum(data)
  {
    var n := |data| - 2;
    assert data[..n][2..] == data[2..n];
    assert HasHeader(data) ==> data[..3] == HEADER;
  }

  lemma TextIsRead(s: seq<byte>)
    ensures ReadString(s) == Err(ShortStringLength) <==> s == []
    ensures ReadString(s) == Err(ShortStringPayload) <==> CutShort(s)
    ensures ReadString(s).Ok? ==> TextThen(s, ReadString(s).value, s[1 + |ReadString(s).value|..])
    ensures ReadString(s).Err? ==> s == [] || CutShort(s)
  {
  }

  lemma ReadTextIsThis(s: seq<byte>, text: seq<byte>, rest: seq<byte>)
    requires TextThen(s, text, rest)
    ensures ReadString(s) == Ok(text) && s[1 + |text|..] == rest
  {
  }

  lemma SplitFailsAtFirst(body: seq<byte>)
    ensures SplitBody(body) == Err(ShortStringLength) <==> EndsBeforeLength(body)
    ensures SplitBody(body) == Err(ShortStringPayload) <==> EndsInText(body)
  {
    TextIsRead(body);
    if ReadString(body).Ok? {
      TextIsRead(body[1 + |ReadString(body).value|..]);
    }
    forall id, rest | TextThen(body, id, rest)
      ensures ReadString(body) == Ok(id) && body[1 + |id|..] == rest
    {
      ReadTextIsThis(body, id, rest);
    }
  }

  lemma SplitFailsAtFunction(body: seq<byte>)
    ensures SplitBody(body) == Err(MissingFunction) <==> EndsBeforeFunction(body)
    ensures SplitBody(body).Err? ==>
              SplitBody(body).error in {ShortStringLength, ShortStringPayload, MissingFunction}
  {
    if SplitBody(body) == Err(MissingFunction) {
      TextIsRead(body);
      TextIsRead(body[1 + |ReadString(body).value|..]);
    }
    forall id, rest, password | TextThen(body, id, rest) && TextThen(rest, password, [])
      ensures SplitBody(body) == Err(MissingFunction)
    {
      ReadTextIsThis(body, id, rest);
      ReadTextIsThis(rest, password, []);
    }
  }

  lemma BuiltIsRejected(data: seq<byte>, id: seq<byte>, password: seq<byte>, fn: byte, params: seq<byte>)
    requires IsPacket(data, id, password, fn, params) && fn != 6
    ensures Decode(data) == Rejected(UnexpectedFunction(fn))
  {
    BuiltPacketsAreWellFramed(id, password, fn, params);
    FrameReadsBack(id, password, fn, params);
  }

  lemma HeldIsBuilt(data: seq<byte>) returns (frame: Frame)
    requires WellFramed(data) && SplitBody(Within(data)).Ok?
    ensures SplitBody(Within(data)) == Ok(frame) && |frame.deviceId| < 0x100 && |frame.password| < 0x100
    ensures data == Packet(frame.deviceId, frame.password, frame.fn, frame.params)
  {
    frame := SplitBody(Within(data)).value;
    FramePrintsBack(Within(data));
    BuiltPacketsAreWellFramed(frame.deviceId, frame.password, frame.fn, frame.params);
    PacketsWithOneBodyAreEqual(data, Packet(frame.deviceId, frame.password, frame.fn, frame.params));
  }

  predicate OfFrame(e: DecodeError) {
    e in {PacketTooShort, InvalidHeader, BadChecksum, ShortStringLength, ShortStringPayload, MissingFunction}
  }

  lemma FrameIsRejectedFor(data: seq<byte>, e: DecodeError)
    requires OfFrame(e)
    ensures Decode(data) == Rejected(e) <==> RejectedFor(data, e)
  {
    if |data| >= 6 {
      FrameTests(data);
      SplitFailsAtFirst(Within(data));
      SplitFailsAtFunction(Within(data));
      FrameErrors(data, e);
    }
  }

  /** Errors of the frame do not come from the parameters. */
  lemma FrameErrors(data: seq<byte>, e: DecodeError)
    requires |data| >= 6 && OfFrame(e)
    ensures Decode(data) == Rejected(e)
            <==> if !ValidHeader(data) then e == InvalidHeader
                 else if !ValidChecksum(data) then e == BadChecksum
                 else SplitBody(Within(data)) == Err(e)
  {
    SplitFailsAtFunction(Within(data));
    if WellFramed(data) && SplitBody(Within(data)).Ok? {
      var frame := SplitBody(Within(data)).value;
      ParamErrors(frame.params, Blank(frame.deviceId));
    }
  }

  lemma ParamErrors(params: seq<byte>, st: State)
    ensures DecodeParams(params, st).Rejected? ==>
              var e := DecodeParams(params, st).error;
              e.InvalidExtendedParameter? || e.UnknownParameter? || e.ParameterOverruns?
  {
    var fs, tail := ParamsPrintBack(params, st);
  }

  lemma RejectedHasFunction(data: seq<byte>, fn: byte)
    requires Decode(data) == Rejected(UnexpectedFunction(fn))
    ensures fn != 6 && HasFunction(data, fn)
  {
    SplitFailsAtFunction(Within(data));
    var frame := HeldIsBuilt(data);
    ParamErrors(frame.params, Blank(frame.deviceId));
    assert IsPacket(data, frame.deviceId, frame.password, fn, frame.params);
  }

  lemma OtherFunctionIsRejected(data: seq<byte>, fn: byte)
    requires fn != 6 && HasFunction(data, fn)
    ensures Decode(data) == Rejected(UnexpectedFunction(fn))
  {
    var id, password, params :| IsPacket(data, id, password, fn, params);
    BuiltIsRejected(data, id, password, fn, params);
  }

  lemma FunctionIsRejectedFor(data: seq<byte>, fn: byte)
    ensures Decode(data) == Rejected(UnexpectedFunction(fn)) <==> RejectedFor(data, UnexpectedFunction(fn))
  {
    if Decode(data) == Rejected(UnexpectedFunction(fn)) {
      RejectedHasFunction(data, fn);
    } else if fn != 6 && HasFunction(data, fn) {
      OtherFunctionIsRejected(data, fn);
    }
  }

  lemma BadTailIsRead(tail: seq<byte>, e: DecodeError)
    requires tail != []
    ensures ReadField(tail) == BadField(e) <==> BadTail(tail, e)
  {
  }

  lemma ParametersAreRejectedFor(data: seq<byte>, e: DecodeError)
    requires !OfFrame(e) && !e.UnexpectedFunction?
    ensures Decode(data) == Rejected(e) <==> exists tail :: ResponseEndsIn(data, tail) && BadTail(tail, e)
  {
    if Decode(data) == Rejected(e) {
      SplitFailsAtFunction(Within(data));
      var frame := HeldIsBuilt(data);
      var fs, tail := ParamsPrintBack(frame.params, Blank(frame.deviceId));
      assert IsResponse(data, frame.deviceId, frame.password, WireAll(fs) + tail);
      BadTailIsRead(tail, e);
    }
    forall tail | ResponseEndsIn(data, tail) && BadTail(tail, e)
      ensures Decode(data) == Rejected(e)
    {
      var id, password, fs :| IsResponse(data, id, password, WireAll(fs) + tail)
                              && AllPrintable(fs) && AllComplete(fs);
      ResponseDecodesItsParams(data, id, password, WireAll(fs) + tail);
      FieldsAreConsumed(fs, tail, Blank(id));
      BadTailIsRead(tail, e);
    }
  }

  /** Every error has its exact condition on the octets of the packet. */
  lemma RejectedExactlyFor(data: seq<byte>, e: DecodeError)
    ensures Decode(data) == Rejected(e) <==> RejectedFor(data, e)
  {
    if OfFrame(e) {
      FrameIsRejectedFor(data, e);
    } else if e.UnexpectedFunction? {
      FunctionIsRejectedFor(data, e.fn);
    } else {
      ParametersAreRejectedFor(data, e);
    }
  }
}
