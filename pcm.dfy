/** The PCM sample codec at the integer and scaling layers, shared by the
    streaming path (pkg/stream/stream.go Read/Write) and the file path
    (pkg/converter/converter.go LoadAudioFile, pkg/converter/wav.go
    writeWAVData). Bytes hold little-endian two's-complement integers, except
    at 8 bits where the byte is the value offset by 128. */
module Pcm {
  import opened Base
  import opened LittleEndian

  /** The bit depths that have a case in the source's codec switches. */
  predicate Supported(bitDepth: int)
  {
    bitDepth == 8 || bitDepth == 16 || bitDepth == 24 || bitDepth == 32
  }

  /** `bitDepth / 8` in Go: the number of bytes per sample. */
  function BytesPerSample(bitDepth: int): int
  {
    GoDiv(bitDepth, 8)
  }

  function Width(bitDepth: int): (w: nat)
    requires Supported(bitDepth)
    ensures w == BytesPerSample(bitDepth) && 1 <= w <= 4 && w * 8 == bitDepth
  {
    bitDepth / 8
  }

  /** The range of a signed integer of `bitDepth` bits. */
  function MinSample(bitDepth: int): int
    requires Supported(bitDepth)
  {
    if bitDepth == 8 then -0x80
    else if bitDepth == 16 then -0x8000
    else if bitDepth == 24 then -0x80_0000
    else -0x8000_0000
  }

  function MaxSample(bitDepth: int): int
    requires Supported(bitDepth)
  {
    -MinSample(bitDepth) - 1
  }

  // ---------------------------------------------------------------------
  // Integer layer
  // ---------------------------------------------------------------------

  /** n samples of bitDepth/8 bytes make the n*bitDepth/8 bytes declared. */
  lemma DeclaredDataSize(n: nat, bitDepth: int)
    requires Supported(bitDepth)
    ensures n * Width(bitDepth) == GoDiv(n * bitDepth, 8)
  {
    var w := Width(bitDepth);
    if bitDepth == 8 {
      assert n * bitDepth == (n * 1) * 8;
    } else if bitDepth == 16 {
      assert n * bitDepth == (n * 2) * 8;
    } else if bitDepth == 24 {
      assert n * bitDepth == (n * 3) * 8;
    } else {
      assert n * bitDepth == (n * 4) * 8;
    }
    MulNonneg(n, w);
    MulDiv(n * w, 8);
  }

  /** The bytes the stream writer stores for an integer sample
      (pkg/stream/stream.go:122, 130-131, 139-141, 149-152). */
  function Pack(v: int, bitDepth: int): (bs: seq<byte>)
    requires Supported(bitDepth)
    ensures |bs| == Width(bitDepth)
  {
    if bitDepth == 8 then [(v + 0x80) % 0x100]
    else if bitDepth == 16 then Le16(v)
    else if bitDepth == 24 then Le24(v)
    else Le32(v)
  }

  /** Bit 23 decides the sign of a 24-bit value: `sample & 0x800000 != 0`. */
  predicate Bit23(u: int)
  {
    (u / 0x80_0000) % 2 == 1
  }

  /** The integer sample held by `Width(bitDepth)` bytes
      (pkg/stream/stream.go:80-92, pkg/converter/converter.go:134-146).
      16 and 32 bits: the OR of the shifted bytes wraps to the signed type.
      24 bits: when bit 23 is set, `sample |= ^0xffffff` sets bits 24..31,
      which for a value below 2^24 subtracts 2^24. */
  function Unpack(bs: seq<byte>, bitDepth: int): (v: int)
    requires Supported(bitDepth) && |bs| == Width(bitDepth)
    ensures MinSample(bitDepth) <= v <= MaxSample(bitDepth)
  {
    if bitDepth == 8 then bs[0] - 0x80
    else if bitDepth == 16 then
      var u := U16(bs); if u >= 0x8000 then u - 0x1_0000 else u
    else if bitDepth == 24 then
      var u := U24(bs); if Bit23(u) then u - 0x100_0000 else u
    else
      var u := U32(bs); if u >= 0x8000_0000 then u - 0x1_0000_0000 else u
  }

  /** Packing then unpacking is the identity on the depth's signed range. */
  lemma PackUnpack(v: int, bitDepth: int)
    requires Supported(bitDepth) && MinSample(bitDepth) <= v <= MaxSample(bitDepth)
    ensures Unpack(Pack(v, bitDepth), bitDepth) == v
  {
    if bitDepth == 16 {
      PackUnpack16(v);
    } else if bitDepth == 24 {
      PackUnpack24(v);
    } else if bitDepth == 32 {
      PackUnpack32(v);
    }
  }

  lemma PackUnpack16(v: int)
    requires -0x8000 <= v < 0x8000
    ensures Unpack(Pack(v, 16), 16) == v
  {
    Le16Decode(v);
  }

  lemma PackUnpack24(v: int)
    requires -0x80_0000 <= v < 0x80_0000
    ensures Unpack(Pack(v, 24), 24) == v
  {
    Le24Decode(v);
    var u := U24(Le24(v));
    assert Bit23(u) <==> u >= 0x80_0000;
  }

  lemma PackUnpack32(v: int)
    requires -0x8000_0000 <= v < 0x8000_0000
    ensures Unpack(Pack(v, 32), 32) == v
  {
    Le32Decode(v);
    var u := U32(Le32(v));
    assert u == v % 0x1_0000_0000;
    if v < 0 {
      assert u == v + 0x1_0000_0000;
    } else {
      assert u == v;
    }
  }

  /** Unpacking then packing gives the same bytes: the codec is a bijection
      between byte groups and the signed range. */
  lemma UnpackPack(bs: seq<byte>, bitDepth: int)
    requires Supported(bitDepth) && |bs| == Width(bitDepth)
    ensures Pack(Unpack(bs, bitDepth), bitDepth) == bs
  {
    var v := Unpack(bs, bitDepth);
    if bitDepth == 16 {
      Le16Encode(bs);
      PeriodicLe16(U16(bs));
    } else if bitDepth == 24 {
      Le24Encode(bs);
      PeriodicLe24(U24(bs));
    } else if bitDepth == 32 {
      Le32Encode(bs);
      PeriodicLe32(U32(bs));
    }
  }

  /** Sign extension of 24-bit samples: the value is negative exactly when
      the top bit of the most significant byte is set, and fits 24 bits. */
  lemma SignExtension24(bs: seq<byte>)
    requires |bs| == 3
    ensures Unpack(bs, 24) < 0 <==> bs[2] >= 0x80
    ensures Unpack(bs, 24) == (if bs[2] >= 0x80 then U24(bs) - 0x100_0000 else U24(bs))
  {
    var u := U24(bs);
    assert u / 0x80_0000 == (bs[2] as int) / 0x80;
  }

  // ---------------------------------------------------------------------
  // Decoding a byte string into integer samples
  // ---------------------------------------------------------------------

  lemma GroupInBounds(i: int, n: int, w: int)
    requires 1 <= w <= 4 && 0 <= i < n / w
    ensures 0 <= i * w && i * w + w <= n
  {
    if w == 1 {
    } else if w == 2 {
    } else if w == 3 {
    } else {
    }
  }

  /** The byte group of sample i. */
  function Group(data: seq<byte>, i: int, bitDepth: int): (g: seq<byte>)
    requires Supported(bitDepth) && 0 <= i < |data| / Width(bitDepth)
    ensures |g| == Width(bitDepth)
  {
    var w := Width(bitDepth);
    GroupInBounds(i, |data|, w);
    data[i * w .. i * w + w]
  }

  /** The integer samples of the complete byte groups of `data`; trailing
      bytes that do not fill a group are ignored. */
  function DecodeInts(data: seq<byte>, bitDepth: int): (vs: seq<int>)
    requires Supported(bitDepth)
    ensures |vs| == |data| / Width(bitDepth)
    ensures forall i :: 0 <= i < |vs| ==> MinSample(bitDepth) <= vs[i] <= MaxSample(bitDepth)
  {
    seq(|data| / Width(bitDepth), i requires 0 <= i < |data| / Width(bitDepth) => Unpack(Group(data, i, bitDepth), bitDepth))
  }

  lemma AppendArith(la: int, lb: int, i: int, w: int)
    requires 1 <= w <= 4 && la >= 0 && lb >= 0 && la % w == 0
    ensures (la + lb) / w == la / w + lb / w
    ensures i >= la / w ==> i * w == la + (i - la / w) * w
  {
    if w == 1 {
    } else if w == 2 {
    } else if w == 3 {
    } else {
    }
  }

  /** Decoding distributes over concatenation at a group boundary. */
  lemma DecodeIntsAppend(a: seq<byte>, b: seq<byte>, bitDepth: int)
    requires Supported(bitDepth) && |a| % Width(bitDepth) == 0
    ensures DecodeInts(a + b, bitDepth) == DecodeInts(a, bitDepth) + DecodeInts(b, bitDepth)
  {
    var w := Width(bitDepth);
    var ka := |a| / w;
    AppendArith(|a|, |b|, 0, w);
    var l, r := DecodeInts(a + b, bitDepth), DecodeInts(a, bitDepth) + DecodeInts(b, bitDepth);
    assert |l| == |r|;
    forall i | 0 <= i < |l| ensures l[i] == r[i] {
      if i < ka {
        GroupAppendLeft(a, b, i, bitDepth);
      } else {
        GroupAppendRight(a, b, i, bitDepth);
      }
    }
  }

  /** A group inside `a` is the same group of `a + b`. */
  lemma GroupAppendLeft(a: seq<byte>, b: seq<byte>, i: int, bitDepth: int)
    requires Supported(bitDepth) && 0 <= i < |a| / Width(bitDepth)
    ensures 0 <= i < |a + b| / Width(bitDepth)
    ensures Group(a + b, i, bitDepth) == Group(a, i, bitDepth)
  {
    var w := Width(bitDepth);
    GroupInBounds(i, |a|, w);
    assert |a| / w <= (|a| + |b|) / w;
  }

  /** Past the groups of `a`, the groups of `a + b` are those of `b`. */
  lemma GroupAppendRight(a: seq<byte>, b: seq<byte>, i: int, bitDepth: int)
    requires Supported(bitDepth) && |a| % Width(bitDepth) == 0
    requires |a| / Width(bitDepth) <= i < |a + b| / Width(bitDepth)
    ensures 0 <= i - |a| / Width(bitDepth) < |b| / Width(bitDepth)
    ensures Group(a + b, i, bitDepth) == Group(b, i - |a| / Width(bitDepth), bitDepth)
  {
    var w := Width(bitDepth);
    var j := i - |a| / w;
    AppendArith(|a|, |b|, i, w);
    GroupInBounds(i, |a| + |b|, w);
    GroupInBounds(j, |b|, w);
  }

  // ---------------------------------------------------------------------
  // Scaling layer. Samples are reals; float-to-int is truncation toward 0.
  // ---------------------------------------------------------------------

  /** The clamp to [-1, 1] that the stream writer applies before scaling. */
  function Clamp(s: real): (c: real)
    ensures -1.0 <= c <= 1.0
    ensures -1.0 <= s <= 1.0 ==> c == s
    ensures s > 1.0 ==> c == 1.0
    ensures s < -1.0 ==> c == -1.0
  {
    if s > 1.0 then 1.0 else if s < -1.0 then -1.0 else s
  }

  /** The stream writer's full-scale factor: 2^(bitDepth-1) - 1. */
  function StreamScale(bitDepth: int): (k: real)
    requires Supported(bitDepth)
    ensures k == MaxSample(bitDepth) as real
  {
    if bitDepth == 8 then 127.0
    else if bitDepth == 16 then 32767.0
    else if bitDepth == 24 then 8388607.0
    else 2147483647.0
  }

  /** `int32(clamp(sample) * scale)` in AudioStream.Write. */
  function Quantize(s: real, bitDepth: int): (v: int)
    requires Supported(bitDepth)
    ensures -MaxSample(bitDepth) <= v <= MaxSample(bitDepth)
  {
    var c := Clamp(s);
    if bitDepth == 8 then Trunc(c * 127.0)
    else if bitDepth == 16 then Trunc(c * 32767.0)
    else if bitDepth == 24 then Trunc(c * 8388607.0)
    else Trunc(c * 2147483647.0)
  }

  /** The stream reader's normalisation `float64(sample) / scale`. */
  function StreamValue(v: int, bitDepth: int): real
    requires Supported(bitDepth)
  {
    if bitDepth == 8 then v as real / 127.0
    else if bitDepth == 16 then v as real / 32767.0
    else if bitDepth == 24 then v as real / 8388607.0
    else v as real / 2147483647.0
  }

  /** The file reader's normalisation: division by 2^(bitDepth-1)
      (pkg/converter/converter.go:135, 138, 144, 147). */
  function FileValue(v: int, bitDepth: int): (r: real)
    requires Supported(bitDepth)
    ensures MinSample(bitDepth) <= v <= MaxSample(bitDepth) ==> -1.0 <= r < 1.0
  {
    if bitDepth == 8 then v as real / 128.0
    else if bitDepth == 16 then v as real / 32768.0
    else if bitDepth == 24 then v as real / 8388608.0
    else v as real / 2147483648.0
  }

  /** The stream writer clamps: every input above full scale quantizes like
      1.0 and every input below like -1.0, so nothing overflows. */
  lemma QuantizeSaturates(s: real, bitDepth: int)
    requires Supported(bitDepth)
    ensures s >= 1.0 ==> Quantize(s, bitDepth) == MaxSample(bitDepth) == Quantize(1.0, bitDepth)
    ensures s <= -1.0 ==> Quantize(s, bitDepth) == -MaxSample(bitDepth) == Quantize(-1.0, bitDepth)
  {
  }

  /** The 8-bit stream byte is `intSample + 128`, always in [1, 255]. */
  lemma StreamByte8(s: real)
    ensures 1 <= Pack(Quantize(s, 8), 8)[0] <= 255
    ensures Pack(Quantize(s, 8), 8)[0] == Quantize(s, 8) + 128
  {
  }

  /** A value already on the quantization grid survives the stream's
      normalise-then-quantize round trip exactly. */
  lemma QuantizeStreamValue(v: int, bitDepth: int)
    requires Supported(bitDepth) && -MaxSample(bitDepth) <= v <= MaxSample(bitDepth)
    ensures Quantize(StreamValue(v, bitDepth), bitDepth) == v
  {
  }

  /** Writing then reading a sample in [-1, 1] through the stream codec
      changes it by less than one quantization step 1/scale. */
  lemma StreamRoundTripError(s: real, bitDepth: int)
    requires Supported(bitDepth) && -1.0 <= s <= 1.0
    ensures var d := StreamValue(Unpack(Pack(Quantize(s, bitDepth), bitDepth), bitDepth), bitDepth) - s;
            -1.0 < d * StreamScale(bitDepth) < 1.0
  {
    PackUnpack(Quantize(s, bitDepth), bitDepth);
  }

  /** The worked example of the stream codec at 16 bits: 0, 0.5, -0.5, 1
      and -1 quantize to 0, 16383, -16383, 32767 and -32767. */
  lemma StreamExample16()
    ensures Quantize(0.0, 16) == 0 && Quantize(0.5, 16) == 16383 && Quantize(-0.5, 16) == -16383
    ensures Quantize(1.0, 16) == 32767 && Quantize(-1.0, 16) == -32767
  {
  }
}
