// internal/cli/cli.go: decodeWAV, the reader of WAV files, against the chunks a file is made of.

module Wav {
  import opened Common

  const RIFF: seq<byte> := [0x52, 0x49, 0x46, 0x46]
  const WAVE: seq<byte> := [0x57, 0x41, 0x56, 0x45]
  const FMT: seq<byte> := [0x66, 0x6d, 0x74, 0x20]
  const DATA: seq<byte> := [0x64, 0x61, 0x74, 0x61]

  datatype Format = Format(sampleRate: nat, channels: nat, bits: nat)

  /** What has been read so far: the zero format and no samples mean that none was seen. */
  datatype Sound = Sound(format: Format, pcm: seq<byte>)

  const SILENCE := Sound(Format(0, 0, 0), [])

  datatype WavError =
    | TooSmall
    | BadHeader
    | BadChunkSize
    | BadFmtChunk
    | UnsupportedCoding(code: nat)
    | MissingFmt
    | MissingData
    | UnsupportedBits(bits: nat)
    | UnsupportedChannels(channels: nat)

  // ---------- Little-endian numbers ----------

  function U16(s: seq<byte>): nat
    requires |s| == 2
  {
    s[0] as int + 0x100 * s[1] as int
  }

  function U32(s: seq<byte>): nat
    requires |s| == 4
  {
    U16(s[..2]) + 0x1_0000 * U16(s[2..])
  }

  /** The low 32 bits of `n`, as the conversion to uint32 leaves them. */
  function Unsigned32LE(n: nat): (r: seq<byte>)
    ensures |r| == 4
  {
    Unsigned16LE(n % 0x1_0000) + Unsigned16LE(n / 0x1_0000)
  }

  lemma Remainder(quotient: nat, remainder: nat)
    requires remainder < 0x1_0000
    ensures (0x1_0000 * quotient + remainder) % 0x1_0000 == remainder
  {
  }

  lemma Unsigned16ReadsBack(n: nat)
    ensures U16(Unsigned16LE(n)) == n % 0x1_0000
  {
    var low, high, rest := n % 0x100, n / 0x100 % 0x100, n / 0x100 / 0x100;
    assert n == 0x1_0000 * rest + (low + 0x100 * high);
    Remainder(rest, low + 0x100 * high);
  }

  lemma Unsigned32ReadsBack(n: nat)
    requires n < 0x1_0000_0000
    ensures U32(Unsigned32LE(n)) == n
  {
  }

  lemma U16PrintsBack(s: seq<byte>)
    requires |s| == 2
    ensures U16(s) < 0x1_0000 && Unsigned16LE(U16(s)) == s
  {
  }

  lemma U32PrintsBack(s: seq<byte>)
    requires |s| == 4
    ensures U32(s) < 0x1_0000_0000 && Unsigned32LE(U32(s)) == s
  {
    U16PrintsBack(s[..2]);
    U16PrintsBack(s[2..]);
    var low, high := U16(s[..2]), U16(s[2..]);
    assert (low + 0x1_0000 * high) % 0x1_0000 == low && (low + 0x1_0000 * high) / 0x1_0000 == high;
    assert s == s[..2] + s[2..];
  }

  // ---------- Reading ----------

  function FormatOf(payload: seq<byte>): Result<Format, WavError> {
    if |payload| < 16 then Err(BadFmtChunk)
    else if U16(payload[..2]) != 1 then Err(UnsupportedCoding(U16(payload[..2])))
    else Ok(Format(U32(payload[4..8]), U16(payload[2..4]), U16(payload[14..16])))
  }

  /** One chunk: a format or samples replace the earlier ones, any other chunk is passed over. */
  function Absorb(sound: Sound, id: seq<byte>, payload: seq<byte>): Result<Sound, WavError> {
    if id == FMT then
      match FormatOf(payload) {
        case Ok(format) => Ok(Sound(format, sound.pcm))
        case Err(error) => Err(error)
      }
    else if id == DATA then Ok(Sound(sound.format, payload))
    else Ok(sound)
  }

  /** Where the chunk at the front of `rest` ends, with the pad byte of an odd one if it is there. */
  function ChunkEnd(rest: seq<byte>): (end: nat)
    requires |rest| >= 8 && 8 + U32(rest[4..8]) <= |rest|
    ensures 8 <= end <= |rest|
  {
    var size := U32(rest[4..8]);
    if size % 2 == 1 && 8 + size < |rest| then 8 + size + 1 else 8 + size
  }

  function Walk(rest: seq<byte>, sound: Sound): Result<Sound, WavError> {
    if |rest| < 8 then Ok(sound)
    else
      var size := U32(rest[4..8]);
      if 8 + size > |rest| then Err(BadChunkSize)
      else
        match Absorb(sound, rest[..4], rest[8..8 + size]) {
          case Ok(next) => Walk(rest[ChunkEnd(rest)..], next)
          case Err(error) => Err(error)
        }
  }

  function Supported(sound: Sound): Result<Sound, WavError> {
    var f := sound.format;
    if f.sampleRate == 0 || f.channels == 0 || f.bits == 0 then Err(MissingFmt)
    else if sound.pcm == [] then Err(MissingData)
    else if f.bits != 8 && f.bits != 16 then Err(UnsupportedBits(f.bits))
    else if f.channels != 1 && f.channels != 2 then Err(UnsupportedChannels(f.channels))
    else Ok(sound)
  }

  predicate Headed(data: seq<byte>) {
    |data| >= 44 && data[..4] == RIFF && data[8..12] == WAVE
  }

  function Decode(data: seq<byte>): Result<Sound, WavError> {
    if |data| < 44 then Err(TooSmall)
    else if !Headed(data) then Err(BadHeader)
    else
      match Walk(data[12..], SILENCE) {
        case Ok(sound) => Supported(sound)
        case Err(error) => Err(error)
      }
  }

  function Least(a: nat, b: nat): nat {
    if a <= b then a else b
  }

  /** One chunk of the walk, by its offset from the start of the file. */
  function ChunkAt(data: seq<byte>, offset: nat, sound: Sound): Result<Sound, WavError>
    requires offset + 8 <= |data|
  {
    var size, from := U32(data[offset + 4..offset + 8]), offset + 8;
    if from + size > |data| then Err(BadChunkSize)
    else Absorb(sound, data[offset..offset + 4], data[from..from + size])
  }

  function NextOffset(data: seq<byte>, offset: nat): nat
    requires offset + 8 <= |data|
  {
    var size := U32(data[offset + 4..offset + 8]);
    offset + 8 + size + size % 2
  }

  lemma SlicesAt(data: seq<byte>, offset: nat, size: nat)
    requires offset + 8 + size <= |data|
    ensures var rest := data[offset..];
            && rest[..4] == data[offset..offset + 4] && rest[4..8] == data[offset + 4..offset + 8]
            && rest[8..8 + size] == data[offset + 8..offset + 8 + size]
  {
  }

  lemma RestAt(data: seq<byte>, offset: nat, end: nat)
    requires offset + end <= |data|
    ensures data[offset..][end..] == data[offset + end..]
  {
  }

  lemma WalkAt(data: seq<byte>, offset: nat, sound: Sound)
    requires offset + 8 <= |data|
    ensures var chunk := ChunkAt(data, offset, sound);
            && (chunk.Ok? ==> NextOffset(data, offset) <= |data| + 1)
            && Walk(data[offset..], sound) ==
               if chunk.Ok? then Walk(data[Least(NextOffset(data, offset), |data|)..], chunk.value) else chunk
  {
    var rest := data[offset..];
    SlicesAt(data, offset, 0);
    var size := U32(rest[4..8]);
    if 8 + size <= |rest| {
      SlicesAt(data, offset, size);
      RestAt(data, offset, ChunkEnd(rest));
      assert offset + ChunkEnd(rest) == Least(NextOffset(data, offset), |data|);
    }
  }

  method ReadFormat(payload: seq<byte>) returns (r: Result<Format, WavError>)
    ensures r == FormatOf(payload)
  {
    if |payload| < 16 {
      return Err(BadFmtChunk);
    }
    var coding := U16(payload[..2]);
    if coding != 1 {
      return Err(UnsupportedCoding(coding));
    }
    return Ok(Format(U32(payload[4..8]), U16(payload[2..4]), U16(payload[14..16])));
  }

  /** One turn of the loop over the chunks. */
  method ReadChunk(data: seq<byte>, offset: nat, sound: Sound) returns (r: Result<Sound, WavError>, next: nat)
    requires offset + 8 <= |data|
    ensures r == ChunkAt(data, offset, sound)
    ensures r.Ok? ==> next == NextOffset(data, offset)
  {
    next := offset;
    var id := data[next..next + 4];
    var size := U32(data[next + 4..next + 8]);
    next := next + 8;
    if next + size > |data| {
      return Err(BadChunkSize), next;
    }
    var payload := data[next..next + size];
    r := Ok(sound);
    if id == FMT {
      var read := ReadFormat(payload);
      if read.Err? {
        return Err(read.error), next;
      }
      r := Ok(sound.(format := read.value));
    } else if id == DATA {
      r := Ok(sound.(pcm := payload));
    }
    next := next + size;
    if size % 2 == 1 {
      next := next + 1;
    }
  }

  method DecodeWav(data: seq<byte>) returns (r: Result<Sound, WavError>)
    ensures r == Decode(data)
  {
    if |data| < 44 {
      return Err(TooSmall);
    }
    if data[..4] != RIFF || data[8..12] != WAVE {
      return Err(BadHeader);
    }
    var sound, offset := SILENCE, 12;
    while offset + 8 <= |data|
      invariant 12 <= offset <= |data| + 1
      invariant Walk(data[12..], SILENCE) == Walk(data[Least(offset, |data|)..], sound)
      decreases |data| + 1 - offset
    {
      WalkAt(data, offset, sound);
      var read;
      read, offset := ReadChunk(data, offset, sound);
      if read.Err? {
        return read;
      }
      sound := read.value;
    }
    var format := sound.format;
    if format.sampleRate == 0 || format.channels == 0 || format.bits == 0 {
      return Err(MissingFmt);
    }
    if |sound.pcm| == 0 {
      return Err(MissingData);
    }
    if format.bits != 8 && format.bits != 16 {
      return Err(UnsupportedBits(format.bits));
    }
    if format.channels != 1 && format.channels != 2 {
      return Err(UnsupportedChannels(format.channels));
    }
    return Ok(sound);
  }

  // ---------- The chunks of a file ----------

  /** A chunk as RIFF defines it; `pad` is the byte that follows an odd payload. */
  datatype Chunk = Chunk(id: seq<byte>, payload: seq<byte>, pad: byte)

  predicate Odd(c: Chunk) {
    |c.payload| % 2 == 1
  }

  predicate Fits(c: Chunk) {
    |c.id| == 4 && |c.payload| < 0x1_0000_0000
  }

  predicate Chunks(cs: seq<Chunk>) {
    forall c <- cs :: Fits(c)
  }

  function Print(c: Chunk): seq<byte> {
    c.id + Unsigned32LE(|c.payload|) + c.payload + (if Odd(c) then [c.pad] else [])
  }

  function PrintAll(cs: seq<Chunk>): seq<byte> {
    if cs == [] then [] else Print(cs[0]) + PrintAll(cs[1..])
  }

  /** `body` is the chunks in order and fewer than eight bytes more; the last pad byte may be missing. */
  ghost predicate MadeOf(body: seq<byte>, cs: seq<Chunk>) {
    || (PrintAll(cs) <= body && |body| < |PrintAll(cs)| + 8)
    || (cs != [] && Odd(cs[|cs| - 1]) && PrintAll(cs) == body + [cs[|cs| - 1].pad])
  }

  /** The last chunk called `id`, if there is one. */
  function LastCalled(cs: seq<Chunk>, id: seq<byte>): Option<seq<byte>> {
    if cs == [] then None
    else if cs[|cs| - 1].id == id then Some(cs[|cs| - 1].payload)
    else LastCalled(cs[..|cs| - 1], id)
  }

  predicate FormatsArePcm(cs: seq<Chunk>) {
    forall c <- cs :: c.id == FMT ==> FormatOf(c.payload).Ok?
  }

  /** What a file of these chunks holds: its last format and its last samples. */
  function Held(cs: seq<Chunk>, sound: Sound): Sound
    requires FormatsArePcm(cs)
  {
    LastCalledIsAChunk(cs, FMT);
    Sound(
      match LastCalled(cs, FMT) { case Some(payload) => FormatOf(payload).value case None => sound.format },
      match LastCalled(cs, DATA) { case Some(payload) => payload case None => sound.pcm })
  }

  lemma {:induction false} LastCalledIsAChunk(cs: seq<Chunk>, id: seq<byte>)
    ensures LastCalled(cs, id).Some? ==>
              exists k :: 0 <= k < |cs| && cs[k].id == id && cs[k].payload == LastCalled(cs, id).value
                          && forall j :: k < j < |cs| ==> cs[j].id != id
    ensures LastCalled(cs, id).None? ==> forall c <- cs :: c.id != id
  {
    if cs != [] {
      LastCalledIsAChunk(cs[..|cs| - 1], id);
    }
  }

  lemma {:induction false} LastCalledFromTheFront(cs: seq<Chunk>, id: seq<byte>)
    requires cs != []
    ensures LastCalled(cs, id) ==
            if LastCalled(cs[1..], id).Some? then LastCalled(cs[1..], id)
            else if cs[0].id == id then Some(cs[0].payload)
            else None
  {
    if |cs| > 1 {
      LastCalledFromTheFront(cs[..|cs| - 1], id);
      assert cs[..|cs| - 1][1..] == cs[1..][..|cs[1..]| - 1];
    } else {
      assert cs[..0] == [];
    }
  }

  // ---------- What is printed is read back ----------

  lemma FrontIsRead(id: seq<byte>, size: seq<byte>, payload: seq<byte>, pad: seq<byte>, more: seq<byte>)
    requires |id| == 4 && |size| == 4 && U32(size) == |payload| && |pad| == |payload| % 2
    ensures var rest := id + size + payload + pad + more;
            |rest| >= 8 && rest[..4] == id && rest[4..8] == size
            && 8 + |payload| <= |rest| && rest[8..8 + |payload|] == payload
            && ChunkEnd(rest) == 8 + |payload| + |pad| && rest[ChunkEnd(rest)..] == more
  {
  }

  lemma PrintedFront(c: Chunk, more: seq<byte>)
    requires Fits(c)
    ensures var rest := Print(c) + more;
            var size := |c.payload|;
            |rest| >= 8 && rest[..4] == c.id && U32(rest[4..8]) == size
            && 8 + size <= |rest| && rest[8..8 + size] == c.payload
            && ChunkEnd(rest) == |Print(c)| && rest[ChunkEnd(rest)..] == more
  {
    var size := Unsigned32LE(|c.payload|);
    Unsigned32ReadsBack(|c.payload|);
    FrontIsRead(c.id, size, c.payload, if Odd(c) then [c.pad] else [], more);
  }

  /** One step of the walk over a chunk of either kind keeps to what a file of the chunks holds. */
  lemma AbsorbIsHeld(cs: seq<Chunk>, sound: Sound)
    requires cs != [] && FormatsArePcm(cs)
    ensures Absorb(sound, cs[0].id, cs[0].payload).Ok?
    ensures FormatsArePcm(cs[1..])
    ensures Held(cs[1..], Absorb(sound, cs[0].id, cs[0].payload).value) == Held(cs, sound)
  {
    LastCalledFromTheFront(cs, FMT);
    LastCalledFromTheFront(cs, DATA);
    assert cs[0] in cs;
    assert FMT[0] != DATA[0];
  }

  lemma WalkOverFront(c: Chunk, more: seq<byte>, sound: Sound)
    requires Fits(c)
    ensures var step := Absorb(sound, c.id, c.payload);
            Walk(Print(c) + more, sound) == if step.Ok? then Walk(more, step.value) else step
  {
    PrintedFront(c, more);
  }

  lemma {:induction false} WalkOverChunks(cs: seq<Chunk>, tail: seq<byte>, sound: Sound)
    requires Chunks(cs) && FormatsArePcm(cs) && |tail| < 8
    ensures Walk(PrintAll(cs) + tail, sound) == Ok(Held(cs, sound))
  {
    if cs == [] {
      assert PrintAll(cs) + tail == tail;
    } else {
      var next := Absorb(sound, cs[0].id, cs[0].payload).value;
      AbsorbIsHeld(cs, sound);
      WalkOverChunks(cs[1..], tail, next);
      assert cs[0] in cs;
      WalkOverFront(cs[0], PrintAll(cs[1..]) + tail, sound);
      assert PrintAll(cs) + tail == Print(cs[0]) + (PrintAll(cs[1..]) + tail);
    }
  }

  lemma WalkOverUnpadded(c: Chunk, body: seq<byte>, sound: Sound)
    requires Fits(c) && body == c.id + Unsigned32LE(|c.payload|) + c.payload
    ensures Walk(body, sound) == Absorb(sound, c.id, c.payload)
  {
    Unsigned32ReadsBack(|c.payload|);
    assert body[4..8] == Unsigned32LE(|c.payload|) && body[8..8 + |c.payload|] == c.payload && body[..4] == c.id;
    assert body[ChunkEnd(body)..] == [];
  }

  lemma UnpaddedParts(body: seq<byte>, c: Chunk)
    requires Odd(c) && Print(c) == body + [c.pad]
    ensures body == c.id + Unsigned32LE(|c.payload|) + c.payload
  {
    assert body == Print(c)[..|body|];
  }

  lemma UnpaddedRest(body: seq<byte>, cs: seq<Chunk>, pad: byte) returns (more: seq<byte>)
    requires |cs| > 1 && Chunks(cs) && PrintAll(cs) == body + [pad]
    ensures body == Print(cs[0]) + more && PrintAll(cs[1..]) == more + [pad]
  {
    var rest := PrintAll(cs[1..]);
    PrintIsLonger(cs[1..]);
    more := rest[..|rest| - 1];
    assert rest[|rest| - 1] == PrintAll(cs)[|PrintAll(cs)| - 1] == pad;
    assert body == PrintAll(cs)[..|body|];
  }

  /** The same when the file stops short of the pad byte of its last chunk. */
  lemma {:induction false} WalkWithoutLastPad(body: seq<byte>, cs: seq<Chunk>, sound: Sound)
    requires Chunks(cs) && FormatsArePcm(cs)
    requires cs != [] && Odd(cs[|cs| - 1]) && PrintAll(cs) == body + [cs[|cs| - 1].pad]
    ensures Walk(body, sound) == Ok(Held(cs, sound))
    decreases |cs|
  {
    var next := Absorb(sound, cs[0].id, cs[0].payload).value;
    AbsorbIsHeld(cs, sound);
    assert cs[0] in cs;
    if |cs| == 1 {
      assert PrintAll(cs) == Print(cs[0]) + PrintAll([]) == Print(cs[0]);
      UnpaddedParts(body, cs[0]);
      WalkOverUnpadded(cs[0], body, sound);
    } else {
      var more := UnpaddedRest(body, cs, cs[|cs| - 1].pad);
      WalkOverFront(cs[0], more, sound);
      WalkWithoutLastPad(more, cs[1..], next);
    }
  }

  lemma PrintIsLonger(cs: seq<Chunk>)
    requires cs != [] && Chunks(cs)
    ensures |PrintAll(cs)| >= 8
  {
    assert cs[0] in cs;
  }

  lemma WalkOverAFile(body: seq<byte>, cs: seq<Chunk>, sound: Sound)
    requires Chunks(cs) && FormatsArePcm(cs) && MadeOf(body, cs)
    ensures Walk(body, sound) == Ok(Held(cs, sound))
  {
    if PrintAll(cs) <= body && |body| < |PrintAll(cs)| + 8 {
      var tail := body[|PrintAll(cs)|..];
      assert body == PrintAll(cs) + tail;
      WalkOverChunks(cs, tail, sound);
    } else {
      WalkWithoutLastPad(body, cs, sound);
    }
  }

  // ---------- What is read was printed ----------

  /** The chunk at the front of `body`; a pad byte that is missing is read as zero. */
  function FrontChunk(body: seq<byte>): Chunk
    requires |body| >= 8 && 8 + U32(body[4..8]) <= |body|
  {
    var size := U32(body[4..8]);
    Chunk(body[..4], body[8..8 + size], if 8 + size < |body| then body[8 + size] else 0)
  }

  predicate PadIsMissing(body: seq<byte>)
    requires |body| >= 8
  {
    U32(body[4..8]) % 2 == 1 && 8 + U32(body[4..8]) == |body|
  }

  lemma FrontIsPrinted(body: seq<byte>)
    requires |body| >= 8 && 8 + U32(body[4..8]) <= |body|
    ensures Fits(FrontChunk(body))
    ensures !PadIsMissing(body) ==> body[..ChunkEnd(body)] == Print(FrontChunk(body))
    ensures PadIsMissing(body) ==> body + [0] == Print(FrontChunk(body)) && body[ChunkEnd(body)..] == []
  {
    var size, end := U32(body[4..8]), ChunkEnd(body);
    U32PrintsBack(body[4..8]);
    assert body[..end] == body[..4] + body[4..8] + body[8..8 + size] + body[8 + size..end];
  }

  lemma {:induction false} WalkFindsChunks(body: seq<byte>, sound: Sound) returns (cs: seq<Chunk>)
    requires Walk(body, sound).Ok?
    ensures Chunks(cs) && FormatsArePcm(cs) && MadeOf(body, cs)
    decreases |body|
  {
    if |body| < 8 {
      cs := [];
    } else {
      var end, c := ChunkEnd(body), FrontChunk(body);
      FrontIsPrinted(body);
      var rest := WalkFindsChunks(body[end..], Absorb(sound, c.id, c.payload).value);
      cs := [c] + rest;
      if PadIsMissing(body) {
        if rest != [] {
          PrintIsLonger(rest);
        }
        assert PrintAll([c]) == Print(c) + PrintAll([]);
      } else {
        FrontAndMore(body, c, rest, end);
      }
    }
  }

  lemma FrontAndMore(body: seq<byte>, c: Chunk, rest: seq<Chunk>, end: nat)
    requires end <= |body| && body[..end] == Print(c) && MadeOf(body[end..], rest)
    ensures MadeOf(body, [c] + rest)
  {
  }

  ghost predicate FileOf(data: seq<byte>, cs: seq<Chunk>) {
    Headed(data) && Chunks(cs) && MadeOf(data[12..], cs)
  }

  /** A file of any chunks with PCM formats is read as its last format and last samples, or refused for those. */
  lemma FileReadsBack(data: seq<byte>, cs: seq<Chunk>)
    requires FileOf(data, cs) && FormatsArePcm(cs)
    ensures Decode(data) == Supported(Held(cs, SILENCE))
  {
    WalkOverAFile(data[12..], cs, SILENCE);
  }

  /** Exactly the files of such chunks are accepted, and only for what they hold. */
  lemma AcceptedExactlyWhenHeld(data: seq<byte>, sound: Sound)
    ensures Decode(data) == Ok(sound) <==>
            && Supported(sound).Ok?
            && exists cs :: FileOf(data, cs) && FormatsArePcm(cs) && Held(cs, SILENCE) == sound
  {
    if Decode(data) == Ok(sound) {
      var cs := WalkFindsChunks(data[12..], SILENCE);
      assert FileOf(data, cs);
      FileReadsBack(data, cs);
    }
    if Supported(sound).Ok? {
      forall cs | FileOf(data, cs) && FormatsArePcm(cs) && Held(cs, SILENCE) == sound
        ensures Decode(data) == Ok(sound)
      {
        FileReadsBack(data, cs);
      }
    }
  }

  /** A walk that fails does so at the first chunk that is cut short or is a format it refuses, and says which. */
  lemma {:induction false} WalkFailsAt(body: seq<byte>, sound: Sound) returns (cs: seq<Chunk>, rest: seq<byte>)
    requires Walk(body, sound).Err?
    ensures Chunks(cs) && FormatsArePcm(cs) && body == PrintAll(cs) + rest && |rest| >= 8
    ensures var size := U32(rest[4..8]);
            if 8 + size > |rest| then Walk(body, sound).error == BadChunkSize
            else rest[..4] == FMT && FormatOf(rest[8..8 + size]) == Err(Walk(body, sound).error)
    decreases |body|
  {
    var size := U32(body[4..8]);
    if 8 + size > |body| || Absorb(sound, body[..4], body[8..8 + size]).Err? {
      cs, rest := [], body;
    } else {
      var end, c := ChunkEnd(body), FrontChunk(body);
      FrontIsPrinted(body);
      var more;
      more, rest := WalkFailsAt(body[end..], Absorb(sound, c.id, c.payload).value);
      cs := [c] + more;
      FrontOfPrinted(body, c, more, rest, end);
    }
  }

  lemma FrontOfPrinted(body: seq<byte>, c: Chunk, more: seq<Chunk>, rest: seq<byte>, end: nat)
    requires end <= |body| && body[..end] == Print(c) && body[end..] == PrintAll(more) + rest
    ensures body == PrintAll([c] + more) + rest
  {
  }
}
