// internal/dukaone/native/client.go: reading the state of one device from whatever datagrams arrive.

module DukaClient {
  import opened Common
  import opened DukaPacket
  import opened DukaResponse
  import DukaRoundTrip

  predicate HasLiveStatus(st: State) {
    st.isOn.Some? || st.speed.Some? || st.mode.Some? || st.manualSpeed.Some? || st.humidity.Some?
    || st.filterAlarm.Some? || st.filterTimer.Some? || st.fanRpm.Some?
  }

  /** Present readings of `src` replace those of `dst`; the search id is not merged. */
  function Merge(dst: State, src: State): State {
    State(
      if src.deviceId != [] then src.deviceId else dst.deviceId,
      if src.ipAddress != [] then src.ipAddress else dst.ipAddress,
      Newer(dst.speed, src.speed), Newer(dst.mode, src.mode), Newer(dst.manualSpeed, src.manualSpeed),
      Newer(dst.isOn, src.isOn), Newer(dst.humidity, src.humidity), Newer(dst.filterAlarm, src.filterAlarm),
      Newer(dst.filterTimer, src.filterTimer), Newer(dst.fanRpm, src.fanRpm),
      Newer(dst.firmwareVersion, src.firmwareVersion), Newer(dst.firmwareDate, src.firmwareDate),
      Newer(dst.unitType, src.unitType), dst.searchDeviceId)
  }

  /** What one turn of the read loop meets: a datagram, a quiet wait, or a failed socket call. */
  datatype Event = Datagram(data: seq<byte>, host: seq<byte>) | Quiet | SocketFailed

  datatype ReadResult = Read(state: State) | NoResponse | IoError | Crashed

  /** The datagram, when it parses and comes from the device that was asked. */
  function Response(deviceId: seq<byte>, e: Event): Option<State> {
    if e.Datagram? && Decode(e.data).Decoded? && Decode(e.data).state.deviceId == deviceId
    then Some(Decode(e.data).state.(ipAddress := e.host)) else None
  }

  function Conclude(st: State): ReadResult {
    if !HasLiveStatus(st) && st.firmwareVersion.None? then NoResponse else Read(st)
  }

  /** The loop: it ends with the first live status, with a failure, or when the events run out at the deadline. */
  function ReadLoop(deviceId: seq<byte>, st: State, events: seq<Event>): ReadResult
    decreases |events|
  {
    if events == [] then Conclude(st)
    else
      var e := events[0];
      if e.SocketFailed? then IoError
      else if e.Datagram? && Decode(e.data).Faulted? then Crashed
      else
        var response := Response(deviceId, e);
        if response.None? then ReadLoop(deviceId, st, events[1..])
        else
          var merged := Merge(st, response.value);
          if HasLiveStatus(merged) then Conclude(merged) else ReadLoop(deviceId, merged, events[1..])
  }

  method ReadState(deviceId: seq<byte>, events: seq<Event>) returns (result: ReadResult)
    ensures result == ReadLoop(deviceId, Blank(deviceId), events)
    ensures ComesOut(deviceId, events, result)
  {
    ReadStateHasOutcome(deviceId, events);
    var state := Blank(deviceId);
    var i := 0;
    while i < |events|
      invariant i <= |events|
      invariant ReadLoop(deviceId, state, events[i..]) == ReadLoop(deviceId, Blank(deviceId), events)
    {
      var e := events[i];
      assert events[i..][1..] == events[i + 1..];
      i := i + 1;
      match e {
        case SocketFailed =>
          return IoError;
        case Quiet =>
        case Datagram(data, host) =>
          var response := DecodeResponse(data);
          if response.Faulted? {
            return Crashed;
          }
          if response.Decoded? && response.state.deviceId == deviceId {
            state := MergeState(state, response.state.(ipAddress := host));
            if HasLiveStatus(state) {
              break;
            }
          }
      }
    }
    if !HasLiveStatus(state) && state.firmwareVersion.None? {
      return NoResponse;
    }
    return Read(state);
  }

  method MergeState(dst: State, src: State) returns (merged: State)
    ensures merged == Merge(dst, src)
  {
    var deviceId, ipAddress := dst.deviceId, dst.ipAddress;
    if src.deviceId != [] {
      deviceId := src.deviceId;
    }
    if src.ipAddress != [] {
      ipAddress := src.ipAddress;
    }
    var speed := Overwrite(dst.speed, src.speed);
    var mode := Overwrite(dst.mode, src.mode);
    var manualSpeed := Overwrite(dst.manualSpeed, src.manualSpeed);
    var isOn := Overwrite(dst.isOn, src.isOn);
    var humidity := Overwrite(dst.humidity, src.humidity);
    var filterAlarm := Overwrite(dst.filterAlarm, src.filterAlarm);
    var filterTimer := Overwrite(dst.filterTimer, src.filterTimer);
    var fanRpm := Overwrite(dst.fanRpm, src.fanRpm);
    var firmwareVersion := Overwrite(dst.firmwareVersion, src.firmwareVersion);
    var firmwareDate := Overwrite(dst.firmwareDate, src.firmwareDate);
    var unitType := Overwrite(dst.unitType, src.unitType);
    merged := State(deviceId, ipAddress, speed, mode, manualSpeed, isOn, humidity, filterAlarm, filterTimer, fanRpm,
                    firmwareVersion, firmwareDate, unitType, dst.searchDeviceId);
  }

  method Overwrite<T>(dst: Option<T>, src: Option<T>) returns (r: Option<T>)
    ensures r == Newer(dst, src)
  {
    r := dst;
    if src.Some? {
      r := src;
    }
  }

  // ------------------------------------------------------------- properties

  /** A device that is off has speed off. */
  predicate OffMeansStill(st: State) {
    st.isOn == Some(false) ==> st.speed == Some(SPEED_OFF)
  }

  lemma {:induction false} DecodedParamsAreStillWhenOff(s: seq<byte>, st: State)
    ensures DecodeParams(s, st).Decoded? ==> OffMeansStill(DecodeParams(s, st).state)
    decreases |s|
  {
    if s != [] && ReadField(s).Got? && Complete(ReadField(s).field) {
      var read := ReadField(s);
      DecodedParamsAreStillWhenOff(s[read.used..], Apply(st, read.field));
    }
  }

  lemma DecodedStatesAreStillWhenOff(data: seq<byte>)
    ensures Decode(data).Decoded? ==> OffMeansStill(Decode(data).state)
  {
    if Decode(data).Decoded? {
      var frame := SplitBody(data[3..|data| - 2]).value;
      DecodedParamsAreStillWhenOff(frame.params, Blank(frame.deviceId));
    }
  }

  /** Merging two consistent states breaks consistency exactly when a bare speed meets a device known to be off. */
  lemma MergeKeepsStillnessIff(dst: State, src: State)
    requires OffMeansStill(dst) && OffMeansStill(src)
    ensures OffMeansStill(Merge(dst, src))
            <==> !(dst.isOn == Some(false) && src.isOn.None? && src.speed.Some? && src.speed != Some(SPEED_OFF))
  {
  }

  lemma SingleFieldResponse(deviceId: seq<byte>, password: seq<byte>, f: Field) returns (data: seq<byte>)
    requires |deviceId| < 0x100 && |password| < 0x100 && Printable(f) && Complete(f)
    ensures Decode(data) == Decoded(ForceOffSpeed(Apply(Blank(deviceId), f)))
  {
    data := Packet(deviceId, password, FUNC_RESPONSE, WireAll([f]));
    DukaRoundTrip.ResponseDecodesItsParams(data, deviceId, password, WireAll([f]));
    assert WireAll([f]) == Wire(f) + [];
    DukaRoundTrip.FieldReadsBack(f, []);
  }

  /** ... which two genuine responses of one device do reach. */
  lemma MergeAloneCanBreakStillness(deviceId: seq<byte>, password: seq<byte>)
    requires |deviceId| < 0x100 && |password| < 0x100
    ensures exists off, fast ::
              && Decode(off).Decoded? && Decode(fast).Decoded?
              && Decode(off).state.deviceId == Decode(fast).state.deviceId == deviceId
              && !OffMeansStill(Merge(Decode(off).state, Decode(fast).state))
  {
    var off := SingleFieldResponse(deviceId, password, Plain(PARAM_ON_OFF, [0]));
    var fast := SingleFieldResponse(deviceId, password, Plain(PARAM_SPEED, [3]));
    MergeKeepsStillnessIff(Decode(off).state, Decode(fast).state);
  }

  datatype Live = Live(isOn: Option<bool>, speed: Option<byte>, mode: Option<byte>, manualSpeed: Option<byte>,
                       humidity: Option<byte>, filterAlarm: Option<bool>, filterTimer: Option<int>, fanRpm: Option<int>)

  function LivePart(st: State): Live {
    Live(st.isOn, st.speed, st.mode, st.manualSpeed, st.humidity, st.filterAlarm, st.filterTimer, st.fanRpm)
  }

  /** The first response of the device that carries a live reading. */
  function FirstLive(deviceId: seq<byte>, events: seq<Event>): Option<State> {
    if events == [] then None
    else
      var response := Response(deviceId, events[0]);
      if response.Some? && HasLiveStatus(response.value) then response else FirstLive(deviceId, events[1..])
  }

  /** The live readings that come back are those of one datagram, never a mixture of two. */
  lemma {:induction false} ReadingComesFromOneDatagram(deviceId: seq<byte>, st: State, events: seq<Event>)
    requires !HasLiveStatus(st)
    decreases |events|
    ensures var result := ReadLoop(deviceId, st, events);
            result.Read? ==>
              LivePart(result.state) == match FirstLive(deviceId, events)
                                        case Some(response) => LivePart(response)
                                        case None => LivePart(Blank(deviceId))
  {
    if events != [] {
      var response := Response(deviceId, events[0]);
      if response.None? {
        ReadingComesFromOneDatagram(deviceId, st, events[1..]);
      } else if !HasLiveStatus(Merge(st, response.value)) {
        ReadingComesFromOneDatagram(deviceId, Merge(st, response.value), events[1..]);
      }
    }
  }

  lemma {:induction false} FirstLiveIsStillWhenOff(deviceId: seq<byte>, events: seq<Event>)
    ensures FirstLive(deviceId, events).Some? ==> OffMeansStill(FirstLive(deviceId, events).value)
  {
    if events != [] {
      if events[0].Datagram? {
        DecodedStatesAreStillWhenOff(events[0].data);
      }
      FirstLiveIsStillWhenOff(deviceId, events[1..]);
    }
  }

  /** Whatever arrives, a state that is returned never shows an off device with a running fan. */
  lemma ReadStateIsStillWhenOff(deviceId: seq<byte>, events: seq<Event>)
    ensures var result := ReadLoop(deviceId, Blank(deviceId), events);
            result.Read? ==> OffMeansStill(result.state)
  {
    ReadingComesFromOneDatagram(deviceId, Blank(deviceId), events);
    FirstLiveIsStillWhenOff(deviceId, events);
  }

  // ---------------------------------------------- what a reading comes down to

  /** A parsed packet of the device that was asked. */
  predicate Ours(deviceId: seq<byte>, e: Event) {
    e.Datagram? && Decode(e.data).Decoded? && Decode(e.data).state.deviceId == deviceId
  }

  predicate CarriesLive(deviceId: seq<byte>, e: Event) {
    Ours(deviceId, e) && LivePart(Decode(e.data).state) != Live(None, None, None, None, None, None, None, None)
  }

  predicate Faults(e: Event) {
    e.Datagram? && Decode(e.data).Faulted?
  }

  /** The events that end a reading. */
  predicate Decides(deviceId: seq<byte>, e: Event) {
    e.SocketFailed? || Faults(e) || CarriesLive(deviceId, e)
  }

  predicate FirstToDecide(deviceId: seq<byte>, events: seq<Event>, k: nat) {
    k < |events| && Decides(deviceId, events[k]) && forall j :: 0 <= j < k ==> !Decides(deviceId, events[j])
  }

  function VersionIn(deviceId: seq<byte>, e: Event): Option<(byte, byte)> {
    if Ours(deviceId, e) then Decode(e.data).state.firmwareVersion else None
  }

  function DateIn(deviceId: seq<byte>, e: Event): Option<FirmwareDate> {
    if Ours(deviceId, e) then Decode(e.data).state.firmwareDate else None
  }

  function UnitTypeIn(deviceId: seq<byte>, e: Event): Option<byte> {
    if Ours(deviceId, e) then Decode(e.data).state.unitType else None
  }

  /** Where a packet of the device came from; a socket always knows. */
  function AddressIn(deviceId: seq<byte>, e: Event): Option<seq<byte>> {
    if Ours(deviceId, e) && e.host != [] then Some(e.host) else None
  }

  /** `told` is what the last of these events that tells anything tells. */
  ghost predicate LastTold<T>(events: seq<Event>, tells: Event -> Option<T>, told: Option<T>) {
    if told.None? then forall e <- events :: tells(e).None?
    else exists i :: 0 <= i < |events| && tells(events[i]) == told
                     && forall j :: i < j < |events| ==> tells(events[j]).None?
  }

  /** Everything about a returned state that is not live: the id that was asked and what the packets told last. */
  ghost predicate Tells(deviceId: seq<byte>, events: seq<Event>, st: State) {
    && st.deviceId == deviceId && st.searchDeviceId == []
    && LastTold(events, e => AddressIn(deviceId, e), if st.ipAddress == [] then None else Some(st.ipAddress))
    && LastTold(events, e => VersionIn(deviceId, e), st.firmwareVersion)
    && LastTold(events, e => DateIn(deviceId, e), st.firmwareDate)
    && LastTold(events, e => UnitTypeIn(deviceId, e), st.unitType)
  }

  lemma OneMoreEvent<T>(events: seq<Event>, tells: Event -> Option<T>, told: Option<T>, e: Event)
    requires LastTold(events, tells, told)
    ensures LastTold(events + [e], tells, if tells(e).Some? then tells(e) else told)
  {
    var more := events + [e];
    assert more[|events|] == e;
    if tells(e).None? && told.Some? {
      var i :| 0 <= i < |events| && tells(events[i]) == told
               && forall j :: i < j < |events| ==> tells(events[j]).None?;
      assert more[i] == events[i];
    }
  }

  lemma MergedTells(deviceId: seq<byte>, events: seq<Event>, st: State, e: Event)
    requires Tells(deviceId, events, st)
    ensures var response := Response(deviceId, e);
            Tells(deviceId, events + [e], if response.None? then st else Merge(st, response.value))
  {
    OneMoreEvent(events, e => AddressIn(deviceId, e), if st.ipAddress == [] then None else Some(st.ipAddress), e);
    OneMoreEvent(events, e => VersionIn(deviceId, e), st.firmwareVersion, e);
    OneMoreEvent(events, e => DateIn(deviceId, e), st.firmwareDate, e);
    OneMoreEvent(events, e => UnitTypeIn(deviceId, e), st.unitType, e);
  }

  /** The outcome of a reading, told by the kind of the event that ends it, or by the firmware when none does. */
  ghost predicate ComesOut(deviceId: seq<byte>, events: seq<Event>, result: ReadResult) {
    && (forall k: nat :: FirstToDecide(deviceId, events, k) ==> EndedBy(deviceId, events, k, result))
    && ((forall e <- events :: !Decides(deviceId, e)) ==>
          if exists e <- events :: VersionIn(deviceId, e).Some? then
            result.Read? && Tells(deviceId, events, result.state)
            && LivePart(result.state) == Live(None, None, None, None, None, None, None, None)
          else result == NoResponse)
  }

  ghost predicate EndedBy(deviceId: seq<byte>, events: seq<Event>, k: nat, result: ReadResult)
    requires k < |events|
  {
    && (result.IoError? <==> events[k].SocketFailed?)
    && (result.Crashed? <==> Faults(events[k]))
    && (result.Read? <==> CarriesLive(deviceId, events[k]))
    && (result.Read? ==> Tells(deviceId, events[..k + 1], result.state)
                         && LivePart(result.state) == LivePart(Decode(events[k].data).state))
  }

  lemma EndsHere(deviceId: seq<byte>, taken: seq<Event>, e: Event, rest: seq<Event>, result: ReadResult)
    requires forall e <- taken :: !Decides(deviceId, e)
    requires Decides(deviceId, e) && EndedBy(deviceId, taken + [e], |taken|, result)
    ensures ComesOut(deviceId, taken + [e] + rest, result)
  {
    var all := taken + [e] + rest;
    assert all[|taken|] == e && all[..|taken| + 1] == taken + [e] == (taken + [e])[..|taken| + 1];
    forall k: nat | FirstToDecide(deviceId, all, k)
      ensures k == |taken|
    {
      assert forall j :: 0 <= j < |taken| ==> all[j] == taken[j] && taken[j] in taken;
    }
  }

  lemma VersionIsTold(deviceId: seq<byte>, events: seq<Event>, st: State)
    requires Tells(deviceId, events, st)
    ensures st.firmwareVersion.Some? <==> exists e <- events :: VersionIn(deviceId, e).Some?
  {
  }

  lemma NothingDecided(deviceId: seq<byte>, events: seq<Event>, st: State)
    requires !HasLiveStatus(st) && Tells(deviceId, events, st)
    requires forall e <- events :: !Decides(deviceId, e)
    ensures ComesOut(deviceId, events, Conclude(st))
  {
    forall k: nat
      ensures !FirstToDecide(deviceId, events, k)
    {
      assert k < |events| ==> events[k] in events;
    }
    VersionIsTold(deviceId, events, st);
  }

  lemma LoopEnds(deviceId: seq<byte>, taken: seq<Event>, st: State, rest: seq<Event>)
    requires !HasLiveStatus(st) && Tells(deviceId, taken, st)
    requires rest != [] && Decides(deviceId, rest[0])
    ensures EndedBy(deviceId, taken + [rest[0]], |taken|, ReadLoop(deviceId, st, rest))
  {
    MergedTells(deviceId, taken, st, rest[0]);
    assert (taken + [rest[0]])[..|taken| + 1] == taken + [rest[0]];
  }

  lemma {:induction false} LoopHasOutcome(deviceId: seq<byte>, taken: seq<Event>, st: State, rest: seq<Event>)
    requires !HasLiveStatus(st) && Tells(deviceId, taken, st)
    requires forall e <- taken :: !Decides(deviceId, e)
    ensures ComesOut(deviceId, taken + rest, ReadLoop(deviceId, st, rest))
    decreases |rest|
  {
    if rest == [] {
      assert taken + rest == taken;
      NothingDecided(deviceId, taken, st);
    } else {
      var e := rest[0];
      assert taken + rest == taken + [e] + rest[1..];
      MergedTells(deviceId, taken, st, e);
      if Decides(deviceId, e) {
        LoopEnds(deviceId, taken, st, rest);
        EndsHere(deviceId, taken, e, rest[1..], ReadLoop(deviceId, st, rest));
      } else {
        var response := Response(deviceId, e);
        LoopHasOutcome(deviceId, taken + [e], if response.None? then st else Merge(st, response.value), rest[1..]);
      }
    }
  }

  /**
   * For every device and whatever arrives: the first event that is a socket failure, a faulting packet or a packet of
   * the device with a live reading decides the outcome by its kind; without one, a firmware version does.
   */
  lemma ReadStateHasOutcome(deviceId: seq<byte>, events: seq<Event>)
    ensures ComesOut(deviceId, events, ReadLoop(deviceId, Blank(deviceId), events))
  {
    LoopHasOutcome(deviceId, [], Blank(deviceId), events);
    assert [] + events == events;
  }
}
