// internal/dukaone/native/packet.go: the framed packet and its 16-bit wrapping checksum.

module DukaPacket {
  import opened Common

  const HEADER: seq<byte> := [0xFD, 0xFD, 0x02]

  const FUNC_WRITE: byte := 2
  const FUNC_WRITE_READ: byte := 3
  const FUNC_RESPONSE: byte := 6

  const PARAM_ON_OFF: byte := 0x01
  const PARAM_SPEED: byte := 0x02
  const PARAM_CURRENT_HUMIDITY: byte := 0x25
  const PARAM_MANUAL_SPEED: byte := 0x44
  const PARAM_FAN1_RPM: byte := 0x4A
  const PARAM_FILTER_TIMER: byte := 0x64
  const PARAM_RESET_FILTER_TIMER: byte := 0x65
  const PARAM_SEARCH: byte := 0x7C
  const PARAM_READ_FIRMWARE: byte := 0x86
  const PARAM_FILTER_ALARM: byte := 0x88
  const PARAM_VENTILATION_MODE: byte := 0xB7
  const PARAM_UNIT_TYPE: byte := 0xB9

  // ---------------------------------------------------------------- checksum

  /** The sum of all octets, without any wrap-around. */
  function Sum(s: seq<byte>): nat {
    if s == [] then 0 else Sum(s[..|s| - 1]) + s[|s| - 1]
  }

  /** What the 16-bit accumulator holds after adding every octet from index 2 on. */
  function WrappedSum(data: seq<byte>): nat {
    if |data| <= 2 then 0 else Sum(data[2..]) % 0x1_0000
  }

  method Checksum(data: seq<byte>) returns (sum: nat)
    ensures sum == WrappedSum(data)
    ensures sum < 0x1_0000
  {
    sum := 0;
    var i := 2;
    while i < |data|
      invariant 2 <= i
      invariant i <= |data| || (i == 2 && sum == 0)
      invariant i <= |data| ==> sum == Sum(data[2..i]) % 0x1_0000
    {
      assert data[2..i + 1][..i - 2] == data[2..i];
      sum := (sum + data[i]) % 0x1_0000;
      i := i + 1;
    }
    assert |data| >= 2 ==> data[2..i] == data[2..];
  }

  /** Replacing one octet moves the sum by exactly the difference of the two octets. */
  lemma {:induction false} SumAfterReplacing(s: seq<byte>, i: nat, b: byte)
    requires i < |s|
    ensures Sum(s[i := b]) == Sum(s) - s[i] + b
  {
    var last := |s| - 1;
    if i == last {
      assert s[i := b][..last] == s[..last];
    } else {
      assert s[i := b][..last] == s[..last][i := b];
      SumAfterReplacing(s[..last], i, b);
    }
  }

  // ------------------------------------------------------------------ frames

  /** A length octet, which keeps only the low 8 bits of the length, followed by the text. */
  function LengthPrefixed(value: seq<byte>): seq<byte> {
    [(|value| % 0x100) as byte] + value
  }

  function LittleEndian16(lo: int, hi: int): int {
    lo + 0x100 * hi
  }

  /** Everything between the three header octets and the two checksum octets. */
  function Body(deviceId: seq<byte>, password: seq<byte>, fn: byte, params: seq<byte>): seq<byte> {
    LengthPrefixed(deviceId) + LengthPrefixed(password) + [fn] + params
  }

  function Packet(deviceId: seq<byte>, password: seq<byte>, fn: byte, params: seq<byte>): seq<byte> {
    var covered := HEADER + Body(deviceId, password, fn, params);
    covered + Unsigned16LE(WrappedSum(covered))
  }

  method AppendString(buf: seq<byte>, value: seq<byte>) returns (grown: seq<byte>)
    ensures grown == buf + LengthPrefixed(value)
  {
    grown := buf + [(|value| % 0x100) as byte];
    grown := grown + value;
  }

  method BuildPacket(deviceId: seq<byte>, password: seq<byte>, fn: byte, params: seq<byte>) returns (buf: seq<byte>)
    ensures buf == Packet(deviceId, password, fn, params)
  {
    buf := HEADER;
    buf := AppendString(buf, deviceId);
    buf := AppendString(buf, password);
    buf := buf + [fn];
    buf := buf + params;
    assert buf == HEADER + Body(deviceId, password, fn, params);
    var checksum := Checksum(buf);
    buf := buf + [(checksum % 0x100) as byte, (checksum / 0x100 % 0x100) as byte];
  }

  predicate ValidHeader(data: seq<byte>) {
    |data| >= 3 && data[..3] == HEADER
  }

  predicate ValidChecksum(data: seq<byte>) {
    |data| >= 5 &&
    WrappedSum(data[..|data| - 2]) == LittleEndian16(data[|data| - 2], data[|data| - 1])
  }

  /** What a receiver can rely on before it looks inside: both frame tests pass. */
  predicate WellFramed(data: seq<byte>) {
    |data| >= 6 && ValidHeader(data) && ValidChecksum(data)
  }

  /** Every packet that is built passes both tests of the receiver, whatever the strings are. */
  lemma BuiltPacketsAreWellFramed(deviceId: seq<byte>, password: seq<byte>, fn: byte, params: seq<byte>)
    ensures WellFramed(Packet(deviceId, password, fn, params))
    ensures var p := Packet(deviceId, password, fn, params);
            p[3..|p| - 2] == Body(deviceId, password, fn, params)
  {
  }

  lemma BodyLayout(deviceId: seq<byte>, password: seq<byte>, fn: byte, params: seq<byte>)
    requires |deviceId| < 0x100 && |password| < 0x100
    ensures var b, id, pw := Body(deviceId, password, fn, params), |deviceId|, |password|;
            && |b| == 3 + id + pw + |params|
            && b[0] == id && b[1..1 + id] == deviceId
            && b[1 + id] == pw && b[2 + id..2 + id + pw] == password
            && b[2 + id + pw] == fn && b[3 + id + pw..] == params
  {
    var id, pw, both := LengthPrefixed(deviceId), LengthPrefixed(password), |deviceId| + |password|;
    var b := Body(deviceId, password, fn, params);
    assert b[..|id|] == id && b[|id|..|id| + |pw|] == pw && b[2 + both..] == [fn] + params;
    assert id[1..] == deviceId && pw[1..] == password && b[0] == id[0];
    SliceOfSlice(b, 0, |id|, 1, |id|);
    SliceOfSlice(b, |id|, |id| + |pw|, 1, |pw|);
  }

  /** Octet by octet: where each part of a packet lies, and that the low octet of the checksum comes first. */
  lemma PacketLayout(deviceId: seq<byte>, password: seq<byte>, fn: byte, params: seq<byte>)
    requires |deviceId| < 0x100 && |password| < 0x100
    ensures var p, id, pw := Packet(deviceId, password, fn, params), |deviceId|, |password|;
            && |p| == 8 + id + pw + |params|
            && p[0] == 0xFD && p[1] == 0xFD && p[2] == 0x02
            && p[3] == id && p[4..4 + id] == deviceId
            && p[4 + id] == pw && p[5 + id..5 + id + pw] == password
            && p[5 + id + pw] == fn && p[6 + id + pw..|p| - 2] == params
            && p[|p| - 2] as int + 256 * p[|p| - 1] as int == Sum(p[2..|p| - 2]) % 65536
  {
    var p, id, pw := Packet(deviceId, password, fn, params), |deviceId|, |password|;
    var covered := HEADER + Body(deviceId, password, fn, params);
    var n := |covered|;
    assert p[..n] == covered && p[2..n] == covered[2..];
    assert p[3..n] == Body(deviceId, password, fn, params);
    BodyLayout(deviceId, password, fn, params);
    SliceOfSlice(p, 3, n, 1, 1 + id);
    SliceOfSlice(p, 3, n, 2 + id, 2 + id + pw);
    SliceOfSlice(p, 3, n, 3 + id + pw, n - 3);
    assert p[3] == p[3..n][0] && p[4 + id] == p[3..n][1 + id] && p[5 + id + pw] == p[3..n][2 + id + pw];
    assert p[n] as int + 256 * p[n + 1] as int == WrappedSum(covered);
  }

  lemma UnsignedOfLittleEndian(lo: byte, hi: byte)
    ensures Unsigned16LE(LittleEndian16(lo, hi)) == [lo, hi]
  {
  }

  /** A packet that passes both tests is determined by its body: header and checksum add nothing. */
  lemma WellFramedIsBuiltFromItsBody(data: seq<byte>)
    requires WellFramed(data)
    ensures var covered := HEADER + data[3..|data| - 2];
            data == covered + Unsigned16LE(WrappedSum(covered))
  {
    var covered := HEADER + data[3..|data| - 2];
    assert data[..|data| - 2] == covered;
    var lo, hi := data[|data| - 2], data[|data| - 1];
    UnsignedOfLittleEndian(lo, hi);
    assert data == covered + [lo, hi];
  }

  /** One altered octet never passes: in the header it breaks the header test, anywhere else the checksum test. */
  lemma OneAlteredByteIsDetected(data: seq<byte>, i: nat, b: byte)
    requires WellFramed(data) && i < |data| && b != data[i]
    ensures i < 3 ==> !ValidHeader(data[i := b])
    ensures i >= 3 ==> !ValidChecksum(data[i := b])
  {
    var altered := data[i := b];
    var end := |data| - 2;
    if i < 3 {
      assert altered[..3][i] != HEADER[i];
    } else if i < end {
      assert altered[..end][2..] == data[..end][2..][i - 2 := b];
      SumAfterReplacing(data[..end][2..], i - 2, b);
      DifferenceSurvivesWrapping(Sum(data[..end][2..]), b - data[i]);
    } else {
      assert altered[..end] == data[..end];
    }
  }

  /** A change of at most 255 either way is visible modulo 65536. */
  lemma DifferenceSurvivesWrapping(n: int, delta: int)
    requires delta != 0 && -0x100 < delta < 0x100
    ensures (n + delta) % 0x1_0000 != n % 0x1_0000
  {
  }
}
