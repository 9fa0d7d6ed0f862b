/** The WAV encoder of pkg/converter/wav.go: `writeWAVHeader` fills a
    `wavHeader` record and serialises it with `binary.Write` in
    little-endian order, and `writeWAVData` encodes the samples one write
    per sample. */
module Wav {
  import opened Base
  import opened LittleEndian
  import opened ByteIO
  import opened Pcm
  import WavWriter

  // ---------------------------------------------------------------------
  // The header record
  // ---------------------------------------------------------------------

  /** A Go `[4]byte` chunk identifier. */
  type Tag = s: seq<byte> | |s| == 4 witness [0, 0, 0, 0]

  /** `wavHeader`, field by field in declaration order. */
  datatype WavHeader = WavHeader(
    chunkId: Tag, chunkSize: uint32, format: Tag,
    subchunk1Id: Tag, subchunk1Size: uint32, audioFormat: uint16, numChannels: uint16,
    sampleRate: uint32, byteRate: uint32, blockAlign: uint16, bitsPerSample: uint16,
    subchunk2Id: Tag, subchunk2Size: uint32)

  /** The record writeWAVHeader fills: the literal fields, then the three
      derived ones. `ChunkSize` is a `uint32` sum, so it wraps, and since it
      adds 36 to the already truncated data size it is the file size less 8
      modulo 2^32. */
  function BuildHeader(sampleRate: int, channels: int, bitDepth: int, dataSize: int): (h: WavHeader)
    ensures h.chunkSize == ToUint32(dataSize + 36)
  {
    WrapAdd(dataSize, 36);
    var subchunk2Size := ToUint32(dataSize);
    WavHeader(
      Ascii("RIFF"), (36 + subchunk2Size) % 0x1_0000_0000, Ascii("WAVE"),
      Ascii("fmt "), 16, 1, ToUint16(channels),
      ToUint32(sampleRate), WavWriter.ByteRate(sampleRate, channels, bitDepth),
      WavWriter.BlockAlign(channels, bitDepth), ToUint16(bitDepth),
      Ascii("data"), subchunk2Size)
  }

  /** Adding after the `uint32` cast wraps like adding before it. */
  lemma WrapAdd(x: int, k: int)
    ensures (k + ToUint32(x)) % 0x1_0000_0000 == ToUint32(x + k)
  {
    var q := x / 0x1_0000_0000;
    assert ToUint32(x) == x - q * 0x1_0000_0000;
    assert (k + ToUint32(x)) - (x + k) == - q * 0x1_0000_0000;
  }

  /** `binary.Write(w, binary.LittleEndian, &header)`: each field in
      declaration order, numbers low byte first, no padding. */
  function Serialize(h: WavHeader): (bs: seq<byte>)
    ensures |bs| == 44
  {
    h.chunkId + Le32(h.chunkSize) + h.format
    + h.subchunk1Id + Le32(h.subchunk1Size) + Le16(h.audioFormat) + Le16(h.numChannels)
    + Le32(h.sampleRate) + Le32(h.byteRate) + Le16(h.blockAlign) + Le16(h.bitsPerSample)
    + h.subchunk2Id + Le32(h.subchunk2Size)
  }

  /** Reading the 44 bytes back as a `wavHeader`, field by field. */
  function ParseHeader(bs: seq<byte>): (h: WavHeader)
    requires |bs| == 44
  {
    WavHeader(
      bs[0..4], U32(bs[4..8]), bs[8..12],
      bs[12..16], U32(bs[16..20]), U16(bs[20..22]), U16(bs[22..24]),
      U32(bs[24..28]), U32(bs[28..32]), U16(bs[32..34]), U16(bs[34..36]),
      bs[36..40], U32(bs[40..44]))
  }

  /** Every field sits at its offset in the serialised record and reads
      back as its value. */
  lemma SerializeLayout(h: WavHeader)
    ensures var bs := Serialize(h);
            bs[0..4] == h.chunkId && U32(bs[4..8]) == h.chunkSize && bs[8..12] == h.format
            && bs[12..16] == h.subchunk1Id && U32(bs[16..20]) == h.subchunk1Size
            && U16(bs[20..22]) == h.audioFormat && U16(bs[22..24]) == h.numChannels
            && U32(bs[24..28]) == h.sampleRate && U32(bs[28..32]) == h.byteRate
            && U16(bs[32..34]) == h.blockAlign && U16(bs[34..36]) == h.bitsPerSample
            && bs[36..40] == h.subchunk2Id && U32(bs[40..44]) == h.subchunk2Size
  {
    SerializeSlices(h);
    var bs := Serialize(h);
    Read32(bs[4..8], h.chunkSize);
    Read32(bs[16..20], h.subchunk1Size);
    Read16(bs[20..22], h.audioFormat);
    Read16(bs[22..24], h.numChannels);
    Read32(bs[24..28], h.sampleRate);
    Read32(bs[28..32], h.byteRate);
    Read16(bs[32..34], h.blockAlign);
    Read16(bs[34..36], h.bitsPerSample);
    Read32(bs[40..44], h.subchunk2Size);
  }

  /** No two records serialise alike: parsing recovers the record. */
  lemma ParseSerialize(h: WavHeader)
    ensures ParseHeader(Serialize(h)) == h
  {
    SerializeLayout(h);
  }

  lemma Read16(bs: seq<byte>, x: uint16)
    requires bs == Le16(x)
    ensures |bs| == 2 && U16(bs) == x
  {
    Le16Decode(x);
  }

  lemma Read32(bs: seq<byte>, x: uint32)
    requires bs == Le32(x)
    ensures |bs| == 4 && U32(bs) == x
  {
    Le32Decode(x);
  }

  /** The serialised fields at their offsets. */
  lemma SerializeSlices(h: WavHeader)
    ensures var bs := Serialize(h);
            bs[0..4] == h.chunkId && bs[4..8] == Le32(h.chunkSize) && bs[8..12] == h.format
            && bs[12..16] == h.subchunk1Id && bs[16..20] == Le32(h.subchunk1Size)
            && bs[20..22] == Le16(h.audioFormat) && bs[22..24] == Le16(h.numChannels)
            && bs[24..28] == Le32(h.sampleRate) && bs[28..32] == Le32(h.byteRate)
            && bs[32..34] == Le16(h.blockAlign) && bs[34..36] == Le16(h.bitsPerSample)
            && bs[36..40] == h.subchunk2Id && bs[40..44] == Le32(h.subchunk2Size)
  {
    var bs := Serialize(h);
    var p1: seq<byte> := h.chunkId;
    var p2 := p1 + Le32(h.chunkSize);
    var p3 := p2 + h.format;
    var p4 := p3 + h.subchunk1Id;
    var p5 := p4 + Le32(h.subchunk1Size);
    var p6 := p5 + Le16(h.audioFormat);
    var p7 := p6 + Le16(h.numChannels);
    var p8 := p7 + Le32(h.sampleRate);
    var p9 := p8 + Le32(h.byteRate);
    var p10 := p9 + Le16(h.blockAlign);
    var p11 := p10 + Le16(h.bitsPerSample);
    var p12 := p11 + h.subchunk2Id;
    assert bs == p12 + Le32(h.subchunk2Size);
    PieceAt(bs, p12, Le32(h.subchunk2Size));
    PieceAt(bs, p11, h.subchunk2Id);
    PieceAt(bs, p10, Le16(h.bitsPerSample));
    PieceAt(bs, p9, Le16(h.blockAlign));
    PieceAt(bs, p8, Le32(h.byteRate));
    PieceAt(bs, p7, Le32(h.sampleRate));
    PieceAt(bs, p6, Le16(h.numChannels));
    PieceAt(bs, p5, Le16(h.audioFormat));
    PieceAt(bs, p4, Le32(h.subchunk1Size));
    PieceAt(bs, p3, h.subchunk1Id);
    PieceAt(bs, p2, h.format);
    PieceAt(bs, p1, Le32(h.chunkSize));
    PieceAt(bs, [], h.chunkId);
  }

  /** The two header builders agree: for the same arguments writeWAVHeader
      emits exactly the bytes of the stream package's makeWAVHeader. */
  lemma HeadersAgree(sampleRate: int, channels: int, bitDepth: int, dataSize: int)
    ensures Serialize(BuildHeader(sampleRate, channels, bitDepth, dataSize))
            == WavWriter.CanonicalHeader(sampleRate, channels, bitDepth, dataSize)
  {
  }

  /** `writeWAVHeader(w, ...)`: the record is serialised and handed to the
      writer in a single write, whose error is returned. */
  method WriteWavHeader(w: ByteSink, sampleRate: int, channels: int, bitDepth: int, dataSize: int)
    returns (err: Option<Error>)
    modifies w
    ensures var st := SinkWrite(old(w.written), w.capacity, Serialize(BuildHeader(sampleRate, channels, bitDepth, dataSize)));
            w.written == st.1 && err == (if st.0.Err? then Some(st.0.error) else None)
  {
    var header := BuildHeader(sampleRate, channels, bitDepth, dataSize);
    var r := w.Write(Serialize(header));
    err := if r.Err? then Some(r.error) else None;
  }

  // ---------------------------------------------------------------------
  // The samples
  // ---------------------------------------------------------------------

  /** The samples writeWAVData is specified for. Outside [-1, 1] Go's
      float-to-integer conversions are implementation-defined. */
  predicate InRange(samples: seq<real>)
  {
    forall i :: 0 <= i < |samples| ==> -1.0 <= samples[i] <= 1.0
  }

  /** The integer writeWAVData stores for one sample: `uint8((s+1)*127.5)`
      at 8 bits, `int16(s*32767)`, `int32(s*8388607)` and
      `int32(s*2147483647)` above. */
  function FileInt(s: real, bitDepth: int): (v: int)
    requires Supported(bitDepth) && -1.0 <= s <= 1.0
    ensures bitDepth == 8 ==> 0 <= v <= 255
    ensures bitDepth != 8 ==> v == Quantize(s, bitDepth) && -MaxSample(bitDepth) <= v <= MaxSample(bitDepth)
  {
    if bitDepth == 8 then Trunc((s + 1.0) * 127.5)
    else if bitDepth == 16 then Trunc(s * 32767.0)
    else if bitDepth == 24 then Trunc(s * 8388607.0)
    else Trunc(s * 2147483647.0)
  }

  /** The bytes of one sample: the unsigned byte at 8 bits, the
      little-endian two's complement value at 16 and 32 bits, its three low
      bytes at 24 bits, and nothing at a depth the switch has no case for. */
  function FileBytes(s: real, bitDepth: int): (bs: seq<byte>)
    requires -1.0 <= s <= 1.0
    ensures |bs| == (if Supported(bitDepth) then Width(bitDepth) else 0)
  {
    if !Supported(bitDepth) then []
    else if bitDepth == 8 then [FileInt(s, 8)]
    else if bitDepth == 16 then Le16(FileInt(s, 16))
    else if bitDepth == 24 then Le24(FileInt(s, 24))
    else Le32(FileInt(s, 32))
  }

  /** Reading a sample's bytes back: the stored byte at 8 bits, the stored
      signed integer above. */
  lemma FileBytesDecode(s: real, bitDepth: int)
    requires Supported(bitDepth) && -1.0 <= s <= 1.0
    ensures bitDepth == 8 ==> FileBytes(s, bitDepth) == [FileInt(s, 8)]
    ensures bitDepth != 8 ==> Unpack(FileBytes(s, bitDepth), bitDepth) == FileInt(s, bitDepth)
  {
    if bitDepth != 8 {
      assert FileBytes(s, bitDepth) == Pack(FileInt(s, bitDepth), bitDepth);
      PackUnpack(FileInt(s, bitDepth), bitDepth);
    }
  }

  /** Above 8 bits a WAV file holds the same bytes as the stream writer
      emits for the sample. */
  lemma FileMatchesStream(s: real, bitDepth: int)
    requires Supported(bitDepth) && bitDepth != 8 && -1.0 <= s <= 1.0
    ensures FileBytes(s, bitDepth) == Pack(Quantize(s, bitDepth), bitDepth)
  {
  }

  /** At 8 bits the two writers differ: silence is byte 127 in a WAV file
      and byte 128 on a stream. */
  lemma SilenceAt8Bits()
    ensures FileBytes(0.0, 8) == [127] && Pack(Quantize(0.0, 8), 8) == [128]
  {
    assert FileInt(0.0, 8) == Trunc(127.5) == 127;
  }

  /** v differs from s by less than two steps of 2^-(bitDepth-1). */
  predicate WithinTwoSteps(v: real, s: real, bitDepth: int)
    requires Supported(bitDepth)
  {
    -2.0 < (v - s) * (MaxSample(bitDepth) + 1) as real < 2.0
  }

  /** Writing a sample and decoding it as LoadAudioFile does (division by
      2^(bitDepth-1)) changes it by less than two quantization steps. */
  lemma FileRoundTripError(s: real, bitDepth: int)
    requires Supported(bitDepth) && -1.0 <= s <= 1.0
    ensures WithinTwoSteps(FileValue(Unpack(FileBytes(s, bitDepth), bitDepth), bitDepth), s, bitDepth)
  {
    if bitDepth == 8 {
      FileRoundTrip8(s);
    } else {
      FileBytesDecode(s, bitDepth);
      var v := Unpack(FileBytes(s, bitDepth), bitDepth);
      if bitDepth == 16 {
        RoundTrip16(s, v);
      } else if bitDepth == 24 {
        RoundTrip24(s, v);
      } else {
        RoundTrip32(s, v);
      }
    }
  }

  lemma FileRoundTrip8(s: real)
    requires -1.0 <= s <= 1.0
    ensures -2.0 < (FileValue(Unpack(FileBytes(s, 8), 8), 8) - s) * 128.0 <= 0.0
  {
    var v := Unpack(FileBytes(s, 8), 8);
    assert v == FileInt(s, 8) - 128;
    RoundTrip8(s, v);
  }

  /** At 8 bits the error lies in (-2, 0] steps of 1/128. */
  lemma RoundTrip8(s: real, v: int)
    requires -1.0 <= s <= 1.0 && v == Trunc((s + 1.0) * 127.5) - 128
    ensures -2.0 < (v as real / 128.0 - s) * 128.0 <= 0.0
  {
    var x := (s + 1.0) * 127.5;
    assert x - 129.0 < v as real <= x - 128.0;
    assert (v as real / 128.0 - s) * 128.0 == v as real - s * 128.0;
  }

  /** Above 8 bits a sample is scaled by 2^(bitDepth-1) - 1 and read back
      divided by 2^(bitDepth-1). */
  lemma RoundTrip16(s: real, v: int)
    requires -1.0 <= s <= 1.0 && v == Trunc(s * 32767.0)
    ensures -2.0 < (v as real / 32768.0 - s) * 32768.0 < 2.0
  {
    assert s * 32767.0 - 1.0 < v as real < s * 32767.0 + 1.0;
    assert (v as real / 32768.0 - s) * 32768.0 == v as real - s * 32767.0 - s;
  }

  lemma RoundTrip24(s: real, v: int)
    requires -1.0 <= s <= 1.0 && v == Trunc(s * 8388607.0)
    ensures -2.0 < (v as real / 8388608.0 - s) * 8388608.0 < 2.0
  {
    assert s * 8388607.0 - 1.0 < v as real < s * 8388607.0 + 1.0;
    assert (v as real / 8388608.0 - s) * 8388608.0 == v as real - s * 8388607.0 - s;
  }

  lemma RoundTrip32(s: real, v: int)
    requires -1.0 <= s <= 1.0 && v == Trunc(s * 2147483647.0)
    ensures -2.0 < (v as real / 2147483648.0 - s) * 2147483648.0 < 2.0
  {
    assert s * 2147483647.0 - 1.0 < v as real < s * 2147483647.0 + 1.0;
    assert (v as real / 2147483648.0 - s) * 2147483648.0 == v as real - s * 2147483647.0 - s;
  }

  /** The writes writeWAVData makes: one per sample at a supported depth,
      none at all otherwise. */
  function DataChunks(samples: seq<real>, bitDepth: int): (cs: seq<seq<byte>>)
    requires InRange(samples)
    ensures |cs| == (if Supported(bitDepth) then |samples| else 0)
    ensures forall i :: 0 <= i < |cs| ==> cs[i] == FileBytes(samples[i], bitDepth)
  {
    if Supported(bitDepth) then seq(|samples|, i requires 0 <= i < |samples| => FileBytes(samples[i], bitDepth))
    else []
  }

  /** The data chunk's bytes. */
  function WavDataBytes(samples: seq<real>, bitDepth: int): seq<byte>
    requires InRange(samples)
  {
    Flatten(DataChunks(samples, bitDepth))
  }

  /** writeWAVData on a sink holding `written`. */
  function WriteDataSpec(written: seq<byte>, capacity: Option<nat>, samples: seq<real>, bitDepth: int): (r: (Option<Error>, seq<byte>))
    requires InRange(samples)
    ensures written <= r.1
    ensures r.0.Some? ==> r.0.value == ShortWrite
    ensures !Supported(bitDepth) ==> r == (None, written)
  {
    WriteChunks(written, capacity, DataChunks(samples, bitDepth))
  }

  /** Peeling the next sample's write off the remaining ones. */
  lemma ChunksTail(samples: seq<real>, i: nat, bitDepth: int)
    requires InRange(samples) && i < |samples|
    ensures InRange(samples[i..]) && InRange(samples[i + 1..])
    ensures Supported(bitDepth) ==>
              DataChunks(samples[i..], bitDepth) == [FileBytes(samples[i], bitDepth)] + DataChunks(samples[i + 1..], bitDepth)
    ensures !Supported(bitDepth) ==> DataChunks(samples[i..], bitDepth) == []
  {
    if Supported(bitDepth) {
      var l, r := DataChunks(samples[i..], bitDepth), [FileBytes(samples[i], bitDepth)] + DataChunks(samples[i + 1..], bitDepth);
      assert |l| == |r|;
      forall j | 0 <= j < |l| ensures l[j] == r[j] {
        if j > 0 {
          assert r[j] == DataChunks(samples[i + 1..], bitDepth)[j - 1];
        }
      }
    }
  }

  /** The cases of writeWAVData's switch: the value to store and its bytes. */
  method EncodeFileSample(sample: real, bitDepth: int) returns (bytes: seq<byte>)
    requires Supported(bitDepth) && -1.0 <= sample <= 1.0
    ensures bytes == FileBytes(sample, bitDepth)
  {
    if bitDepth == 8 {
      var value := Trunc((sample + 1.0) * 127.5);
      assert value == FileInt(sample, 8);
      bytes := [value];
    } else if bitDepth == 16 {
      var value := Trunc(sample * 32767.0);
      bytes := Le16(value);
    } else if bitDepth == 24 {
      var value := Trunc(sample * 8388607.0);
      bytes := Le24(value);
    } else {
      var value := Trunc(sample * 2147483647.0);
      bytes := Le32(value);
    }
  }

  /** `writeWAVData(w, samples, bitDepth)`: one write per sample at a depth
      the switch has a case for, with an early return on the first failed
      write. */
  method WriteWavData(w: ByteSink, samples: seq<real>, bitDepth: int) returns (err: Option<Error>)
    requires InRange(samples)
    modifies w
    ensures (err, w.written) == WriteDataSpec(old(w.written), w.capacity, samples, bitDepth)
  {
    ghost var spec := WriteDataSpec(w.written, w.capacity, samples, bitDepth);
    for i := 0 to |samples|
      invariant InRange(samples[i..])
      invariant WriteChunks(w.written, w.capacity, DataChunks(samples[i..], bitDepth)) == spec
    {
      ChunksTail(samples, i, bitDepth);
      if Supported(bitDepth) {
        var bytes := EncodeFileSample(samples[i], bitDepth);
        var r := w.Write(bytes);
        if r.Err? {
          return Some(r.error);
        }
      }
    }
    assert samples[|samples|..] == [];
    return None;
  }

  // ---------------------------------------------------------------------
  // Properties of the data writer
  // ---------------------------------------------------------------------

  /** writeWAVData emits bitDepth/8 bytes per sample at a supported depth
      and none otherwise; at a supported depth that is exactly the
      `len(samples)*bitDepth/8` that SaveAudioFile declares as the data
      size. */
  lemma WavDataLength(samples: seq<real>, bitDepth: int)
    requires InRange(samples)
    ensures |WavDataBytes(samples, bitDepth)| == (if Supported(bitDepth) then |samples| * Width(bitDepth) else 0)
    ensures Supported(bitDepth) ==> |WavDataBytes(samples, bitDepth)| == GoDiv(|samples| * bitDepth, 8)
  {
    var cs := DataChunks(samples, bitDepth);
    if Supported(bitDepth) {
      var w := Width(bitDepth);
      UniformTotal(cs, w);
      DeclaredDataSize(|samples|, bitDepth);
    }
  }

  /** writeWAVData writes a prefix of the data bytes: all of them, with no
      error, exactly when the writer has room, and otherwise the bytes of
      the samples before the failing one and as much of it as fits, with the
      failing write's error. */
  lemma WriteDataOutcome(written: seq<byte>, capacity: Option<nat>, samples: seq<real>, bitDepth: int)
    requires InRange(samples) && (capacity.None? || |written| <= capacity.value)
    ensures var r := WriteDataSpec(written, capacity, samples, bitDepth);
            var data := WavDataBytes(samples, bitDepth);
            r.1 == written + data[..Accepted(|written|, capacity, |data|)]
            && (r.0.None? <==> capacity.None? || |written| + |data| <= capacity.value)
            && (r.0.Some? ==> r.0.value == ShortWrite)
            && (r.0.None? ==> r.1 == written + data)
  {
    var data := WavDataBytes(samples, bitDepth);
    WriteChunksOutcome(written, capacity, DataChunks(samples, bitDepth));
    assert data[..|data|] == data;
  }
}
