// Which sounds internal/cli/cli.go reads from a WAV file, octet by octet.

module WavFormats {
  import opened Common
  import opened Wav

  /** Every payload of a format chunk, by what its octets say. */
  lemma FormatIsRead(p: seq<byte>)
    ensures FormatOf(p) ==
            if |p| < 16 then Err(BadFmtChunk)
            else if p[0] != 1 || p[1] != 0 then Err(UnsupportedCoding(p[0] as int + 256 * p[1] as int))
            else Ok(Format(p[4] as int + 256 * p[5] as int + 65536 * p[6] as int + 16777216 * p[7] as int,
                           p[2] as int + 256 * p[3] as int, p[14] as int + 256 * p[15] as int))
  {
    if |p| >= 16 {
      assert p[4..8][..2] == p[4..6] && p[4..8][2..] == p[6..8];
    }
  }

  /** A PCM format as it is printed: coding 1, then low octets first. */
  function PcmFormat(f: Format, byteRate: nat, align: nat): seq<byte>
    requires f.sampleRate < 0x1_0000_0000 && f.channels < 0x1_0000 && f.bits < 0x1_0000
  {
    [1, 0] + [f.channels % 256, f.channels / 256]
    + [f.sampleRate % 256, f.sampleRate / 256 % 256, f.sampleRate / 65536 % 256, f.sampleRate / 16777216]
    + Unsigned32LE(byteRate) + Unsigned16LE(align) + [f.bits % 256, f.bits / 256]
  }

  lemma FourDigits(n: nat)
    requires n < 0x1_0000_0000
    ensures n == n % 256 + 256 * (n / 256 % 256) + 65536 * (n / 65536 % 256) + 16777216 * (n / 16777216)
  {
  }

  lemma PcmFormatReadsBack(f: Format, byteRate: nat, align: nat)
    requires f.sampleRate < 0x1_0000_0000 && f.channels < 0x1_0000 && f.bits < 0x1_0000
    ensures FormatOf(PcmFormat(f, byteRate, align)) == Ok(f)
  {
    var p := PcmFormat(f, byteRate, align);
    FormatIsRead(p);
    FourDigits(f.sampleRate);
    assert p[0] == 1 && p[1] == 0 && p[2] == f.channels % 256 && p[3] == f.channels / 256;
    assert p[4] == f.sampleRate % 256 && p[5] == f.sampleRate / 256 % 256;
    assert p[6] == f.sampleRate / 65536 % 256 && p[7] == f.sampleRate / 16777216;
    assert p[14] == f.bits % 256 && p[15] == f.bits / 256;
  }

  /** One mono or stereo channel pair of 8 or 16 bits, with samples. */
  predicate Playable(f: Format, samples: seq<byte>) {
    f.sampleRate > 0 && (f.channels == 1 || f.channels == 2) && (f.bits == 8 || f.bits == 16) && samples != []
  }

  /** What is refused of a file that holds this format and these samples, first reason first. */
  function Refusal(f: Format, samples: seq<byte>): WavError
    requires !Playable(f, samples)
  {
    if f.sampleRate == 0 || f.channels == 0 || f.bits == 0 then MissingFmt
    else if samples == [] then MissingData
    else if f.bits != 8 && f.bits != 16 then UnsupportedBits(f.bits)
    else UnsupportedChannels(f.channels)
  }

  lemma HeldByTwo(format: seq<byte>, samples: seq<byte>, padF: byte, padS: byte)
    requires FormatOf(format).Ok?
    ensures var cs := [Chunk([0x66, 0x6d, 0x74, 0x20], format, padF), Chunk([0x64, 0x61, 0x74, 0x61], samples, padS)];
            FormatsArePcm(cs) && Held(cs, SILENCE) == Sound(FormatOf(format).value, samples)
  {
    var cs := [Chunk([0x66, 0x6d, 0x74, 0x20], format, padF), Chunk([0x64, 0x61, 0x74, 0x61], samples, padS)];
    assert FMT[0] != DATA[0];
    assert LastCalled(cs, DATA) == Some(samples);
    assert cs[..1] == [cs[0]];
    assert LastCalled(cs[..1], FMT) == Some(format);
  }

  /** A file of one printed format and one run of samples is read as these, or refused for what they are. */
  lemma PcmFileReadsBack(data: seq<byte>, f: Format, byteRate: nat, align: nat, samples: seq<byte>, pad: byte)
    requires f.sampleRate < 0x1_0000_0000 && f.channels < 0x1_0000 && f.bits < 0x1_0000
    requires FileOf(data, [Chunk([0x66, 0x6d, 0x74, 0x20], PcmFormat(f, byteRate, align), 0),
                           Chunk([0x64, 0x61, 0x74, 0x61], samples, pad)])
    ensures Decode(data) == if Playable(f, samples) then Ok(Sound(f, samples)) else Err(Refusal(f, samples))
  {
    var format := PcmFormat(f, byteRate, align);
    PcmFormatReadsBack(f, byteRate, align);
    HeldByTwo(format, samples, 0, pad);
    FileReadsBack(data, [Chunk(FMT, format, 0), Chunk(DATA, samples, pad)]);
  }

  /** What is not a WAV file at all is told from one that is damaged. */
  lemma HeaderIsRefusedIff(data: seq<byte>)
    ensures Decode(data) == Err(TooSmall) <==> |data| < 44
    ensures Decode(data) == Err(BadHeader)
            <==> |data| >= 44 && !(data[..4] == [0x52, 0x49, 0x46, 0x46] && data[8..12] == [0x57, 0x41, 0x56, 0x45])
  {
    if Headed(data) && Walk(data[12..], SILENCE).Err? {
      var cs, rest := WalkFailsAt(data[12..], SILENCE);
    }
  }
}
