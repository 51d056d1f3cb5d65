// internal/cli/cli.go: writeSpeakerSoundWAV, the writer of test tones, against the WAV reader.

module WavTone {
  import opened Common
  import opened Wav

  const SAMPLE_RATE := 22050

  // ---------- One sample ----------

  function Clamp(x: real): real {
    if x > 0.82 then 0.82 else if x < -0.82 then -0.82 else x
  }

  /** The fade at both ends of the tone: 4 ms in and 10 ms out. */
  function Fade(i: nat, count: nat): real
    requires i < count
  {
    var fadeIn := SAMPLE_RATE as real * 0.004;
    var fadeOut := SAMPLE_RATE as real * 0.01;
    var rise := if i as real < fadeIn then i as real / fadeIn else 1.0;
    var remaining := (count - i) as real;
    if remaining < fadeOut then rise * (remaining / fadeOut) else rise
  }

  /** Conversion to int16 drops the fraction. */
  function Truncate(x: real): int {
    if x >= 0.0 then x.Floor else -(-x).Floor
  }

  function Level(mixed: real, fade: real): int {
    Truncate(Clamp(mixed) * fade * 32767.0)
  }

  /** The value written for sample `i` when the tones add up to `mixed`. */
  function Quantized(mixed: real, i: nat, count: nat): int
    requires i < count
  {
    Level(mixed, Fade(i, count))
  }

  lemma ProductBelow(x: real, c: real, f: real)
    requires 0.0 <= x <= c && 0.0 <= f
    ensures 0.0 <= x * f <= c * f
  {
    assert c * f - x * f == (c - x) * f;
  }

  lemma Shrinks(x: real, f: real)
    requires 0.0 <= x && 0.0 <= f <= 1.0
    ensures 0.0 <= x * f <= x
  {
    ProductBelow(f, 1.0, x);
  }

  lemma FractionOf(x: real, whole: real)
    requires 0.0 <= x < whole
    ensures 0.0 <= x / whole <= 1.0
  {
  }

  lemma FadeIsAFraction(i: nat, count: nat)
    requires i < count
    ensures 0.0 <= Fade(i, count) <= 1.0
  {
    var fadeIn := SAMPLE_RATE as real * 0.004;
    var fadeOut := SAMPLE_RATE as real * 0.01;
    if i as real < fadeIn {
      FractionOf(i as real, fadeIn);
    }
    var rise := if i as real < fadeIn then i as real / fadeIn else 1.0;
    var remaining := (count - i) as real;
    if remaining < fadeOut {
      FractionOf(remaining, fadeOut);
      Shrinks(rise, remaining / fadeOut);
    }
  }

  lemma ScaledByFraction(x: real, f: real)
    requires -0.82 <= x <= 0.82 && 0.0 <= f <= 1.0 / 220.5
    ensures -0.82 / 220.5 <= x * f <= 0.82 / 220.5
  {
    if x >= 0.0 {
      ProductBelow(x, 0.82, f);
    } else {
      ProductBelow(-x, 0.82, f);
      assert (-x) * f == -(x * f);
    }
  }

  /** At the last sample the fade is down to one part in 220.5. */
  lemma FadeEndsQuietly(i: nat, count: nat)
    requires i + 1 == count
    ensures 0.0 <= Fade(i, count) <= 1.0 / 220.5
  {
  }

  lemma ScaledIsLimited(x: real, fade: real)
    requires -0.82 <= x <= 0.82 && 0.0 <= fade <= 1.0
    ensures -0.82 <= x * fade <= 0.82
  {
    if x >= 0.0 {
      Shrinks(x, fade);
    } else {
      Shrinks(-x, fade);
      assert (-x) * fade == -(x * fade);
    }
  }

  lemma LevelFits(mixed: real, fade: real)
    requires 0.0 <= fade <= 1.0
    ensures -26868 <= Level(mixed, fade) <= 26868
    ensures fade == 0.0 ==> Level(mixed, fade) == 0
    ensures fade <= 1.0 / 220.5 ==> -121 <= Level(mixed, fade) <= 121
  {
    var scaled := Clamp(mixed) * fade;
    ScaledIsLimited(Clamp(mixed), fade);
    assert -26869.0 < scaled * 32767.0 < 26869.0;
    if fade <= 1.0 / 220.5 {
      ScaledByFraction(Clamp(mixed), fade);
      assert -122.0 < scaled * 32767.0 < 122.0;
    }
  }

  /** The conversion to int16 never overflows whatever the tones add up to; the tone starts silent and ends quiet. */
  lemma SampleFits(mixed: real, i: nat, count: nat)
    requires i < count
    ensures -26868 <= Quantized(mixed, i, count) <= 26868
    ensures i == 0 ==> Quantized(mixed, i, count) == 0
    ensures i + 1 == count ==> -121 <= Quantized(mixed, i, count) <= 121
  {
    FadeIsAFraction(i, count);
    if i == 0 {
      FadeStartsSilent(count);
    }
    if i + 1 == count {
      FadeEndsQuietly(i, count);
    }
    LevelFits(mixed, Fade(i, count));
  }

  lemma FadeStartsSilent(count: nat)
    requires 0 < count
    ensures Fade(0, count) == 0.0
  {
  }

  /** `v` is `x` without its fraction: no larger in size, by less than one, and of the same sign or zero. */
  predicate WholePart(v: int, x: real) {
    if x >= 0.0 then 0.0 <= v as real <= x < v as real + 1.0
    else v as real - 1.0 < x <= v as real <= 0.0
  }

  /** How much of a sample is left: it rises over the first 4 ms, 88.2 samples, and falls over the last 10 ms, 220.5. */
  function Share(i: nat, count: nat): real
    requires i < count
  {
    (if i < 89 then i as real / 88.2 else 1.0) * (if count - i < 221 then (count - i) as real / 220.5 else 1.0)
  }

  /** `v` is what the tones add up to, limited to 0.82, in this share of the largest int16. */
  predicate IsShareOf(v: int, mixed: real, share: real) {
    && (-0.82 <= mixed <= 0.82 ==> WholePart(v, mixed * share * 32767.0))
    && (mixed > 0.82 ==> WholePart(v, 0.82 * share * 32767.0))
    && (mixed < -0.82 ==> WholePart(v, -0.82 * share * 32767.0))
  }

  /** The value of sample `i` of a tone, and what that is in the middle of it. */
  predicate SoundsAs(v: int, mixed: real, i: nat, count: nat)
    requires i < count
  {
    && IsShareOf(v, mixed, Share(i, count))
    && (89 <= i && count - i >= 221 ==>
          && (-0.82 <= mixed <= 0.82 ==> WholePart(v, mixed * 32767.0))
          && (mixed > 0.82 ==> v == 26868)
          && (mixed < -0.82 ==> v == -26868))
  }

  lemma FadeIsShare(i: nat, count: nat)
    requires i < count
    ensures Fade(i, count) == Share(i, count)
  {
    assert SAMPLE_RATE as real * 0.004 == 88.2 && SAMPLE_RATE as real * 0.01 == 220.5;
  }

  lemma TruncatedIsWholePart(x: real)
    ensures WholePart(Truncate(x), x)
  {
  }

  lemma LevelIsShare(mixed: real, share: real)
    ensures IsShareOf(Level(mixed, share), mixed, share)
  {
    TruncatedIsWholePart(Clamp(mixed) * share * 32767.0);
  }

  lemma WholeShare(v: int, mixed: real)
    requires IsShareOf(v, mixed, 1.0)
    ensures -0.82 <= mixed <= 0.82 ==> WholePart(v, mixed * 32767.0)
    ensures mixed > 0.82 ==> v == 26868
    ensures mixed < -0.82 ==> v == -26868
  {
    assert mixed * 1.0 == mixed;
  }

  lemma MiddleIsWhole(i: nat, count: nat)
    requires 89 <= i && count - i >= 221
    ensures Share(i, count) == 1.0
  {
  }

  lemma SoundsAsShare(v: int, mixed: real, i: nat, count: nat, share: real)
    requires i < count && share == Share(i, count) && IsShareOf(v, mixed, share)
    requires 89 <= i && count - i >= 221 ==> share == 1.0
    ensures SoundsAs(v, mixed, i, count)
  {
    if 89 <= i && count - i >= 221 {
      WholeShare(v, mixed);
    }
  }

  lemma SampleSoundsAs(mixed: real, i: nat, count: nat)
    requires i < count
    ensures SoundsAs(Quantized(mixed, i, count), mixed, i, count)
  {
    var share := Share(i, count);
    LevelIsShare(mixed, share);
    if 89 <= i && count - i >= 221 {
      MiddleIsWhole(i, count);
    }
    SoundsAsShare(Level(mixed, share), mixed, i, count, share);
    FadeIsShare(i, count);
  }

  // ---------- The file ----------

  function TwosComplement(v: int): (n: nat)
    requires -0x8000 <= v < 0x8000
    ensures n < 0x1_0000
  {
    if v < 0 then v + 0x1_0000 else v
  }

  function Signed(n: nat): int {
    if n < 0x8000 then n else n - 0x1_0000
  }

  /** The samples `from` on, two bytes each. */
  function Samples(mixed: seq<real>, from: nat): seq<byte>
    requires from <= |mixed|
    decreases |mixed| - from
  {
    if from == |mixed| then []
    else
      SampleFits(mixed[from], from, |mixed|);
      Unsigned16LE(TwosComplement(Quantized(mixed[from], from, |mixed|))) + Samples(mixed, from + 1)
  }

  /** The payload of the format chunk: PCM, one channel, 16 bits. */
  function ToneFormat(): seq<byte> {
    Unsigned16LE(1) + Unsigned16LE(1) + Unsigned32LE(SAMPLE_RATE)
    + Unsigned32LE(SAMPLE_RATE * 2) + Unsigned16LE(2) + Unsigned16LE(16)
  }

  function ToneFile(mixed: seq<real>): seq<byte> {
    var dataSize := 2 * |mixed|;
    (RIFF + Unsigned32LE(36 + dataSize) + WAVE)
    + (FMT + Unsigned32LE(16) + ToneFormat())
    + (DATA + Unsigned32LE(dataSize) + Samples(mixed, 0))
  }

  function SampleCount(durationMs: nat): nat {
    SAMPLE_RATE * durationMs / 1000
  }

  lemma RegroupFile(a: seq<byte>, b: seq<byte>, c: seq<byte>, d: seq<byte>, e: seq<byte>, f: seq<byte>,
                    g: seq<byte>, h: seq<byte>, i: seq<byte>)
    ensures a + b + c + d + e + f + g + h + i == (a + b + c) + (d + e + f) + (g + h + i)
  {
  }

  /** `mixed` gives what the tones add up to at each sample. */
  method WriteTone(durationMs: nat, mixed: seq<real>) returns (file: seq<byte>)
    requires |mixed| == SampleCount(durationMs)
    ensures file == ToneFile(mixed)
  {
    var sampleCount := SAMPLE_RATE * durationMs / 1000;
    var dataSize := sampleCount * 2;
    file := RIFF;
    file := file + Unsigned32LE(36 + dataSize);
    file := file + WAVE;
    file := file + FMT;
    file := file + Unsigned32LE(16);
    file := file + ToneFormat();
    file := file + DATA;
    file := file + Unsigned32LE(dataSize);
    ghost var head := file;
    var i := 0;
    while i < sampleCount
      invariant i <= sampleCount
      invariant file + Samples(mixed, i) == head + Samples(mixed, 0)
    {
      SampleFits(mixed[i], i, sampleCount);
      var value := Quantized(mixed[i], i, sampleCount);
      file := file + Unsigned16LE(TwosComplement(value));
      i := i + 1;
    }
    assert file == head + Samples(mixed, 0);
    RegroupFile(RIFF, Unsigned32LE(36 + dataSize), WAVE, FMT, Unsigned32LE(16), ToneFormat(),
                DATA, Unsigned32LE(dataSize), Samples(mixed, 0));
  }

  lemma {:induction false} SamplesLength(mixed: seq<real>, from: nat)
    requires from <= |mixed|
    ensures |Samples(mixed, from)| == 2 * (|mixed| - from)
    decreases |mixed| - from
  {
    if from < |mixed| {
      SamplesLength(mixed, from + 1);
    }
  }

  lemma PairInFront(value: int, rest: seq<byte>)
    requires -0x8000 <= value < 0x8000
    ensures Signed(U16((Unsigned16LE(TwosComplement(value)) + rest)[0..2])) == value
  {
  }

  lemma {:induction false} SamplesReadBack(mixed: seq<real>, from: nat, i: nat)
    requires from <= i < |mixed|
    ensures |Samples(mixed, from)| == 2 * (|mixed| - from)
    ensures var at := 2 * (i - from);
            Signed(U16(Samples(mixed, from)[at..at + 2])) == Quantized(mixed[i], i, |mixed|)
    decreases |mixed| - from
  {
    SampleFits(mixed[from], from, |mixed|);
    SamplesLength(mixed, from);
    var value, rest := Quantized(mixed[from], from, |mixed|), Samples(mixed, from + 1);
    if from < i {
      SamplesReadBack(mixed, from + 1, i);
      var at := 2 * (i - from);
      assert Samples(mixed, from)[at..at + 2] == rest[at - 2..at];
    } else {
      PairInFront(value, rest);
    }
  }

  function ToneChunks(mixed: seq<real>): seq<Chunk> {
    [Chunk(FMT, ToneFormat(), 0), Chunk(DATA, Samples(mixed, 0), 0)]
  }

  lemma ToneFormatIsRead()
    ensures FormatOf(ToneFormat()) == Ok(Format(SAMPLE_RATE, 1, 16))
  {
    var payload := ToneFormat();
    Unsigned16ReadsBack(1);
    Unsigned16ReadsBack(16);
    Unsigned32ReadsBack(SAMPLE_RATE);
    assert payload[..2] == Unsigned16LE(1) && payload[2..4] == Unsigned16LE(1) && payload[14..16] == Unsigned16LE(16);
    assert payload[4..8] == Unsigned32LE(SAMPLE_RATE);
  }

  lemma PrintedPair(c: Chunk, d: Chunk)
    requires !Odd(c) && !Odd(d)
    ensures PrintAll([c, d]) == (c.id + Unsigned32LE(|c.payload|) + c.payload)
                                + (d.id + Unsigned32LE(|d.payload|) + d.payload)
  {
    assert [c, d][1..] == [d] && [d][1..] == [];
    assert PrintAll([d]) == Print(d);
  }

  lemma AfterHeader(size: seq<byte>, body: seq<byte>)
    requires |size| == 4 && |body| >= 32
    ensures Headed((RIFF + size + WAVE) + body)
    ensures ((RIFF + size + WAVE) + body)[12..] == body
  {
  }

  lemma ToneIsItsChunks(mixed: seq<real>)
    requires 2 * |mixed| < 0x1_0000_0000
    ensures FileOf(ToneFile(mixed), ToneChunks(mixed))
  {
    SamplesLength(mixed, 0);
    var cs := ToneChunks(mixed);
    var size, body := Unsigned32LE(36 + 2 * |mixed|), PrintAll(cs);
    PrintedPair(cs[0], cs[1]);
    AfterHeader(size, body);
    assert ToneFile(mixed) == (RIFF + size + WAVE) + body;
  }

  lemma ToneHolds(mixed: seq<real>)
    ensures FormatsArePcm(ToneChunks(mixed))
    ensures Held(ToneChunks(mixed), SILENCE) == Sound(Format(SAMPLE_RATE, 1, 16), Samples(mixed, 0))
  {
    ToneFormatIsRead();
    var cs := ToneChunks(mixed);
    assert FMT[0] != DATA[0];
    assert LastCalled(cs, DATA) == Some(Samples(mixed, 0));
    assert cs[..1] == [cs[0]];
    assert LastCalled(cs[..1], FMT) == Some(ToneFormat());
  }

  /** Sample `i` of these samples, two octets low one first, is that of the tone. */
  predicate SampleIsHeard(pcm: seq<byte>, mixed: seq<real>, i: nat)
    requires i < |mixed| && |pcm| == 2 * |mixed|
  {
    var u := pcm[2 * i] as int + 256 * pcm[2 * i + 1] as int;
    SoundsAs(if u < 32768 then u else u - 65536, mixed[i], i, |mixed|)
  }

  lemma PairAt(pcm: seq<byte>, at: nat)
    requires at + 2 <= |pcm|
    ensures var u := pcm[at] as int + 256 * pcm[at + 1] as int;
            Signed(U16(pcm[at..at + 2])) == if u < 32768 then u else u - 65536
  {
  }

  lemma WrittenIsHeard(mixed: seq<real>, i: nat)
    requires i < |mixed|
    ensures |Samples(mixed, 0)| == 2 * |mixed| && SampleIsHeard(Samples(mixed, 0), mixed, i)
  {
    SamplesReadBack(mixed, 0, i);
    PairAt(Samples(mixed, 0), 2 * i);
    SampleSoundsAs(mixed[i], i, |mixed|);
  }

  /**
   * The reader accepts every tone that fits 32 bits except the empty one, as 22050 Hz mono of 16 bits,
   * and each sample it returns is what the tones add up to there.
   */
  lemma ToneReadsBack(durationMs: nat, mixed: seq<real>)
    requires |mixed| == 22050 * durationMs / 1000 && 2 * |mixed| < 0x1_0000_0000
    ensures durationMs == 0 <==> Decode(ToneFile(mixed)) == Err(MissingData)
    ensures durationMs > 0 ==>
              && Decode(ToneFile(mixed)).Ok?
              && var sound := Decode(ToneFile(mixed)).value;
              && sound.format == Format(22050, 1, 16)
              && |sound.pcm| == 2 * |mixed|
              && forall i :: 0 <= i < |mixed| ==> SampleIsHeard(sound.pcm, mixed, i)
  {
    ToneIsItsChunks(mixed);
    ToneHolds(mixed);
    FileReadsBack(ToneFile(mixed), ToneChunks(mixed));
    SamplesLength(mixed, 0);
    forall i | 0 <= i < |mixed|
      ensures SampleIsHeard(Samples(mixed, 0), mixed, i)
    {
      WrittenIsHeard(mixed, i);
    }
  }

  lemma ThreeParts(a: seq<byte>, b: seq<byte>, c: seq<byte>)
    ensures var s, n, m := a + b + c, |a|, |a| + |b|;
            s[..n] == a && s[n..m] == b && s[m..] == c
  {
    var s, n, m := a + b + c, |a|, |a| + |b|;
    assert s[..m] == a + b;
    assert s[..n] == (a + b)[..n] && s[n..m] == (a + b)[n..];
  }

  lemma NineParts(a: seq<byte>, b: seq<byte>, c: seq<byte>, d: seq<byte>, e: seq<byte>, f: seq<byte>,
                  g: seq<byte>, h: seq<byte>, more: seq<byte>)
    requires |a| == |b| == |c| == |d| == |e| == |g| == |h| == 4 && |f| == 16
    ensures var file := (a + b + c) + (d + e + f) + (g + h + more);
            && |file| == 44 + |more|
            && file[0..4] == a && file[4..8] == b && file[8..12] == c && file[12..16] == d
            && file[16..20] == e && file[20..36] == f && file[36..40] == g && file[40..44] == h
  {
    var file := (a + b + c) + (d + e + f) + (g + h + more);
    ThreeParts(a, b, c);
    ThreeParts(d, e, f);
    ThreeParts(g, h, more);
    ThreeParts(a + b + c, d + e + f, g + h + more);
    SliceOfSlice(file, 0, 12, 0, 4);
    SliceOfSlice(file, 0, 12, 4, 8);
    SliceOfSlice(file, 0, 12, 8, 12);
    SliceOfSlice(file, 12, 36, 0, 4);
    SliceOfSlice(file, 12, 36, 4, 8);
    SliceOfSlice(file, 12, 36, 8, 24);
    SliceOfSlice(file, 36, |file|, 0, 4);
    SliceOfSlice(file, 36, |file|, 4, 8);
  }

  lemma ToneFormatIs()
    ensures ToneFormat() == [1, 0, 1, 0, 0x22, 0x56, 0, 0, 0x44, 0xAC, 0, 0, 2, 0, 16, 0]
  {
    assert Unsigned32LE(22050) == [0x22, 0x56, 0, 0] && Unsigned32LE(44100) == [0x44, 0xAC, 0, 0];
  }

  /** A header of these sizes and of this format. */
  predicate HeaderIs(file: seq<byte>, riffSize: seq<byte>, format: seq<byte>, dataSize: seq<byte>) {
    && |file| >= 44
    && file[0..4] == [0x52, 0x49, 0x46, 0x46] && file[4..8] == riffSize && file[8..12] == [0x57, 0x41, 0x56, 0x45]
    && file[12..16] == [0x66, 0x6d, 0x74, 0x20] && file[16..20] == [16, 0, 0, 0] && file[20..36] == format
    && file[36..40] == [0x64, 0x61, 0x74, 0x61] && file[40..44] == dataSize
  }

  /** The 44 octets in front of the samples: sizes, coding 1, one channel, 22050 Hz, 44100 octets a second, 16 bits. */
  lemma ToneParts(mixed: seq<real>, riffSize: seq<byte>, format: seq<byte>, dataSize: seq<byte>)
    requires riffSize == Unsigned32LE(36 + 2 * |mixed|) && dataSize == Unsigned32LE(2 * |mixed|)
    requires format == ToneFormat()
    ensures |ToneFile(mixed)| == 44 + |Samples(mixed, 0)| && HeaderIs(ToneFile(mixed), riffSize, format, dataSize)
  {
    var sixteen := Unsigned32LE(16);
    assert sixteen == [16, 0, 0, 0];
    assert |format| == 16;
    NineParts(RIFF, riffSize, WAVE, FMT, sixteen, format, DATA, dataSize, Samples(mixed, 0));
  }

  lemma ToneHeader(mixed: seq<real>) returns (riffSize: seq<byte>, dataSize: seq<byte>)
    requires 36 + 2 * |mixed| < 0x1_0000_0000
    ensures |ToneFile(mixed)| == 44 + 2 * |mixed|
    ensures HeaderIs(ToneFile(mixed), riffSize,
                     [1, 0, 1, 0, 0x22, 0x56, 0, 0, 0x44, 0xAC, 0, 0, 2, 0, 16, 0], dataSize)
    ensures |riffSize| == 4 && U32(riffSize) == 36 + 2 * |mixed|
    ensures |dataSize| == 4 && U32(dataSize) == 2 * |mixed|
  {
    riffSize, dataSize := Unsigned32LE(36 + 2 * |mixed|), Unsigned32LE(2 * |mixed|);
    Unsigned32ReadsBack(36 + 2 * |mixed|);
    Unsigned32ReadsBack(2 * |mixed|);
    SamplesLength(mixed, 0);
    ToneFormatIs();
    ToneParts(mixed, riffSize, ToneFormat(), dataSize);
  }
}
