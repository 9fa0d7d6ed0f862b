/** The WAV file writer of pkg/stream/writer.go: `makeWAVHeader` fills a
    44-byte canonical RIFF/WAVE PCM header in place, `putLE` stores an
    unsigned value low byte first, and `WriteWAVFile` writes the header
    followed by the frames to a sink that stands for the created file. */
module WavWriter {
  import opened Base
  import opened LittleEndian
  import opened ByteIO
  import Pcm

  // ---------------------------------------------------------------------
  // putLE and copy
  // ---------------------------------------------------------------------

  /** The dynamic type of putLE's `interface{}` argument: only `uint16`
      and `uint32` have a case; any other value is ignored. */
  datatype LEValue = U16Value(u16: uint16) | U32Value(u32: uint32) | OtherValue

  /** What putLE stores for a value, low byte first. */
  function LEBytes(v: LEValue): (bs: seq<byte>)
    ensures |bs| == (match v case U16Value(_) => 2 case U32Value(_) => 4 case OtherValue => 0)
  {
    match v
    case U16Value(x) => Le16(x)
    case U32Value(x) => Le32(x)
    case OtherValue => []
  }

  /** Reading putLE's bytes back little-endian gives the value. */
  lemma LEBytesDecode(v: LEValue)
    ensures v.U16Value? ==> U16(LEBytes(v)) == v.u16
    ensures v.U32Value? ==> U32(LEBytes(v)) == v.u32
    ensures v.OtherValue? ==> LEBytes(v) == []
  {
    match v {
      case U16Value(x) => Le16Decode(x);
      case U32Value(x) => Le32Decode(x);
      case OtherValue =>
    }
  }

  /** `putLE(b[off:], v)`: bytes off .. off + |LEBytes(v)| receive the
      value, and no other byte of `b` changes. The slice must be long
      enough for the value; a shorter one makes Go panic. */
  method PutLE(b: array<byte>, off: nat, v: LEValue)
    requires off + |LEBytes(v)| <= b.Length
    modifies b
    ensures b[..off] == old(b[..off]) && b[off..off + |LEBytes(v)|] == LEBytes(v)
    ensures b[off + |LEBytes(v)|..] == old(b[off + |LEBytes(v)|..])
  {
    ghost var bs := LEBytes(v);
    match v {
      case U16Value(x) =>
        b[off] := x % 0x100;
        b[off + 1] := (x / 0x100) % 0x100;
      case U32Value(x) =>
        Le32Bytes(x);
        b[off] := x % 0x100;
        b[off + 1] := (x / 0x100) % 0x100;
        b[off + 2] := (x / 0x1_0000) % 0x100;
        b[off + 3] := (x / 0x100_0000) % 0x100;
      case OtherValue =>
    }
  }

  /** Go's `copy(b[off:off+|src|], src)` for a destination exactly as long
      as the source. */
  method CopyInto(b: array<byte>, off: nat, src: seq<byte>)
    requires off + |src| <= b.Length
    modifies b
    ensures b[..off] == old(b[..off]) && b[off..off + |src|] == src
    ensures b[off + |src|..] == old(b[off + |src|..])
  {
    forall i | 0 <= i < |src| {
      b[off + i] := src[i];
    }
  }

  // ---------------------------------------------------------------------
  // The header
  // ---------------------------------------------------------------------

  /** `uint32(sampleRate * channels * bitDepth / 8)`: bytes per second.
      At a supported depth it is the sample rate times the channels times
      the bytes per sample, kept modulo 2^32. */
  function ByteRate(sampleRate: int, channels: int, bitDepth: int): (r: uint32)
    ensures sampleRate >= 0 && channels >= 0 && Pcm.Supported(bitDepth) ==>
              r == ToUint32(sampleRate * channels * Pcm.Width(bitDepth))
  {
    if sampleRate >= 0 && channels >= 0 && Pcm.Supported(bitDepth) then
      MulNonneg(sampleRate, channels);
      Pcm.DeclaredDataSize(sampleRate * channels, bitDepth);
      ToUint32(GoDiv(sampleRate * channels * bitDepth, 8))
    else
      ToUint32(GoDiv(sampleRate * channels * bitDepth, 8))
  }

  /** `uint16(channels * bitDepth / 8)`: bytes per frame of all channels.
      At a supported depth it is the channels times the bytes per sample,
      kept modulo 2^16. */
  function BlockAlign(channels: int, bitDepth: int): (r: uint16)
    ensures channels >= 0 && Pcm.Supported(bitDepth) ==> r == ToUint16(channels * Pcm.Width(bitDepth))
  {
    if channels >= 0 && Pcm.Supported(bitDepth) then
      Pcm.DeclaredDataSize(channels, bitDepth);
      ToUint16(GoDiv(channels * bitDepth, 8))
    else
      ToUint16(GoDiv(channels * bitDepth, 8))
  }

  /** The canonical 44-byte PCM header: the "RIFF" chunk with the file size
      less 8, "WAVE", a 16-byte "fmt " chunk with format tag 1 and the
      stream's parameters, and the "data" chunk's size. Every size is cast
      to Go's `uint32` or `uint16`, so it is kept modulo 2^32 or 2^16. */
  function CanonicalHeader(sampleRate: int, channels: int, bitDepth: int, dataSize: int): (h: seq<byte>)
    ensures |h| == 44
  {
    Ascii("RIFF") + Le32(ToUint32(dataSize + 36)) + Ascii("WAVE") + Ascii("fmt ")
    + Le32(16) + Le16(1) + Le16(ToUint16(channels)) + Le32(ToUint32(sampleRate))
    + Le32(ByteRate(sampleRate, channels, bitDepth))
    + Le16(BlockAlign(channels, bitDepth)) + Le16(ToUint16(bitDepth))
    + Ascii("data") + Le32(ToUint32(dataSize))
  }

  /** The layout of the header, field by field: the four tags at their
      offsets and each number read back little-endian from its bytes. */
  lemma HeaderLayout(sampleRate: int, channels: int, bitDepth: int, dataSize: int)
    ensures var h := CanonicalHeader(sampleRate, channels, bitDepth, dataSize);
            h[0..4] == Ascii("RIFF") && h[8..12] == Ascii("WAVE")
            && h[12..16] == Ascii("fmt ") && h[36..40] == Ascii("data")
            && U32(h[4..8]) == (dataSize + 36) % 0x1_0000_0000
            && U32(h[16..20]) == 16 && U16(h[20..22]) == 1
            && U16(h[22..24]) == channels % 0x1_0000
            && U32(h[24..28]) == sampleRate % 0x1_0000_0000
            && U32(h[28..32]) == GoDiv(sampleRate * channels * bitDepth, 8) % 0x1_0000_0000
            && U16(h[32..34]) == GoDiv(channels * bitDepth, 8) % 0x1_0000
            && U16(h[34..36]) == bitDepth % 0x1_0000
            && U32(h[40..44]) == dataSize % 0x1_0000_0000
  {
    HeaderSlices(sampleRate, channels, bitDepth, dataSize);
    FieldValues(CanonicalHeader(sampleRate, channels, bitDepth, dataSize), sampleRate, channels, bitDepth, dataSize);
  }

  /** Reading back the numbers of a header whose pieces are in place. */
  lemma FieldValues(h: seq<byte>, sampleRate: int, channels: int, bitDepth: int, dataSize: int)
    requires |h| == 44
    requires h[4..8] == Le32(ToUint32(dataSize + 36)) && h[16..20] == Le32(16) && h[20..22] == Le16(1)
    requires h[22..24] == Le16(ToUint16(channels)) && h[24..28] == Le32(ToUint32(sampleRate))
    requires h[28..32] == Le32(ByteRate(sampleRate, channels, bitDepth))
    requires h[32..34] == Le16(BlockAlign(channels, bitDepth))
    requires h[34..36] == Le16(ToUint16(bitDepth)) && h[40..44] == Le32(ToUint32(dataSize))
    ensures U32(h[4..8]) == (dataSize + 36) % 0x1_0000_0000
    ensures U32(h[16..20]) == 16 && U16(h[20..22]) == 1
    ensures U16(h[22..24]) == channels % 0x1_0000
    ensures U32(h[24..28]) == sampleRate % 0x1_0000_0000
    ensures U32(h[28..32]) == GoDiv(sampleRate * channels * bitDepth, 8) % 0x1_0000_0000
    ensures U16(h[32..34]) == GoDiv(channels * bitDepth, 8) % 0x1_0000
    ensures U16(h[34..36]) == bitDepth % 0x1_0000
    ensures U32(h[40..44]) == dataSize % 0x1_0000_0000
  {
    Field32(h[4..8], dataSize + 36);
    Field32(h[16..20], 16);
    Field16(h[20..22], 1);
    Field16(h[22..24], channels);
    Field32(h[24..28], sampleRate);
    Field32(h[28..32], GoDiv(sampleRate * channels * bitDepth, 8));
    Field16(h[32..34], GoDiv(channels * bitDepth, 8));
    Field16(h[34..36], bitDepth);
    Field32(h[40..44], dataSize);
  }

  /** A field holding `uint16(x)` or `uint32(x)` reads back as x modulo
      2^16 or 2^32. */
  lemma Field16(bs: seq<byte>, x: int)
    requires bs == Le16(ToUint16(x))
    ensures |bs| == 2 && U16(bs) == x % 0x1_0000
  {
    Le16Decode(ToUint16(x));
  }

  lemma Field32(bs: seq<byte>, x: int)
    requires bs == Le32(ToUint32(x))
    ensures |bs| == 4 && U32(bs) == x % 0x1_0000_0000
  {
    Le32Decode(ToUint32(x));
  }

  /** The pieces of the header at their offsets. */
  lemma HeaderSlices(sampleRate: int, channels: int, bitDepth: int, dataSize: int)
    ensures var h := CanonicalHeader(sampleRate, channels, bitDepth, dataSize);
            h[0..4] == Ascii("RIFF") && h[4..8] == Le32(ToUint32(dataSize + 36))
            && h[8..12] == Ascii("WAVE") && h[12..16] == Ascii("fmt ")
            && h[16..20] == Le32(16) && h[20..22] == Le16(1)
            && h[22..24] == Le16(ToUint16(channels)) && h[24..28] == Le32(ToUint32(sampleRate))
            && h[28..32] == Le32(ByteRate(sampleRate, channels, bitDepth))
            && h[32..34] == Le16(BlockAlign(channels, bitDepth))
            && h[34..36] == Le16(ToUint16(bitDepth))
            && h[36..40] == Ascii("data") && h[40..44] == Le32(ToUint32(dataSize))
  {
    var h := CanonicalHeader(sampleRate, channels, bitDepth, dataSize);
    var p1 := Ascii("RIFF");
    var p2 := p1 + Le32(ToUint32(dataSize + 36));
    var p3 := p2 + Ascii("WAVE");
    var p4 := p3 + Ascii("fmt ");
    var p5 := p4 + Le32(16);
    var p6 := p5 + Le16(1);
    var p7 := p6 + Le16(ToUint16(channels));
    var p8 := p7 + Le32(ToUint32(sampleRate));
    var p9 := p8 + Le32(ByteRate(sampleRate, channels, bitDepth));
    var p10 := p9 + Le16(BlockAlign(channels, bitDepth));
    var p11 := p10 + Le16(ToUint16(bitDepth));
    var p12 := p11 + Ascii("data");
    assert h == p12 + Le32(ToUint32(dataSize));
    PieceAt(h, p12, Le32(ToUint32(dataSize)));
    PieceAt(h, p11, Ascii("data"));
    PieceAt(h, p10, Le16(ToUint16(bitDepth)));
    PieceAt(h, p9, Le16(BlockAlign(channels, bitDepth)));
    PieceAt(h, p8, Le32(ByteRate(sampleRate, channels, bitDepth)));
    PieceAt(h, p7, Le32(ToUint32(sampleRate)));
    PieceAt(h, p6, Le16(ToUint16(channels)));
    PieceAt(h, p5, Le16(1));
    PieceAt(h, p4, Le32(16));
    PieceAt(h, p3, Ascii("fmt "));
    PieceAt(h, p2, Ascii("WAVE"));
    PieceAt(h, p1, Le32(ToUint32(dataSize + 36)));
    PieceAt(h, [], Ascii("RIFF"));
  }

  /** An empty data chunk: the RIFF size is 36 and the data size is 0. */
  lemma EmptyDataHeader(sampleRate: int, channels: int, bitDepth: int)
    ensures var h := CanonicalHeader(sampleRate, channels, bitDepth, 0);
            |h| == 44 && U32(h[4..8]) == 36 && U32(h[40..44]) == 0
  {
    HeaderLayout(sampleRate, channels, bitDepth, 0);
  }

  /** One step of filling the header: the bytes before `|done|` hold
      `done`, and `bs` is stored right after them. */
  lemma Extend(b: seq<byte>, done: seq<byte>, bs: seq<byte>)
    requires |done| + |bs| <= |b| && b[..|done|] == done && b[|done|..|done| + |bs|] == bs
    ensures b[..|done + bs|] == done + bs
  {
    assert b[..|done + bs|] == b[..|done|] + b[|done|..|done| + |bs|];
  }

  /** `copy(b[off:], src)` as a step of filling the header: the stored
      prefix grows by `src`. */
  method CopyStep(b: array<byte>, off: nat, ghost done: seq<byte>, src: seq<byte>)
    requires off == |done| && off + |src| <= b.Length && b[..off] == done
    modifies b
    ensures b[..off + |src|] == done + src
  {
    CopyInto(b, off, src);
    Extend(b[..], done, src);
  }

  /** `putLE(b[off:], v)` as a step of filling the header. */
  method PutStep(b: array<byte>, off: nat, ghost done: seq<byte>, v: LEValue)
    requires off == |done| && off + |LEBytes(v)| <= b.Length && b[..off] == done
    modifies b
    ensures b[..off + |LEBytes(v)|] == done + LEBytes(v)
  {
    PutLE(b, off, v);
    Extend(b[..], done, LEBytes(v));
  }

  /** `makeWAVHeader`: a zeroed 44-byte buffer filled in place by copy and
      putLE, field after field. */
  method MakeWavHeader(sampleRate: int, channels: int, bitDepth: int, dataSize: int) returns (header: seq<byte>)
    ensures header == CanonicalHeader(sampleRate, channels, bitDepth, dataSize)
  {
    var b := new byte[44](_ => 0);
    ghost var done: seq<byte> := [];  // the header bytes stored so far
    CopyStep(b, 0, done, Ascii("RIFF"));
    assert done + Ascii("RIFF") == Ascii("RIFF");
    done := Ascii("RIFF");
    PutStep(b, 4, done, U32Value(ToUint32(dataSize + 36)));
    done := done + Le32(ToUint32(dataSize + 36));
    CopyStep(b, 8, done, Ascii("WAVE"));
    done := done + Ascii("WAVE");
    CopyStep(b, 12, done, Ascii("fmt "));
    done := done + Ascii("fmt ");
    PutStep(b, 16, done, U32Value(16));
    done := done + Le32(16);
    PutStep(b, 20, done, U16Value(1));
    done := done + Le16(1);
    PutStep(b, 22, done, U16Value(ToUint16(channels)));
    done := done + Le16(ToUint16(channels));
    PutStep(b, 24, done, U32Value(ToUint32(sampleRate)));
    done := done + Le32(ToUint32(sampleRate));
    var byteRate := ByteRate(sampleRate, channels, bitDepth);
    PutStep(b, 28, done, U32Value(byteRate));
    done := done + Le32(byteRate);
    var blockAlign := BlockAlign(channels, bitDepth);
    PutStep(b, 32, done, U16Value(blockAlign));
    done := done + Le16(blockAlign);
    PutStep(b, 34, done, U16Value(ToUint16(bitDepth)));
    done := done + Le16(ToUint16(bitDepth));
    CopyStep(b, 36, done, Ascii("data"));
    done := done + Ascii("data");
    PutStep(b, 40, done, U32Value(ToUint32(dataSize)));
    done := done + Le32(ToUint32(dataSize));
    assert done == CanonicalHeader(sampleRate, channels, bitDepth, dataSize);
    assert b[..] == b[..44];
    header := b[..];
  }

  // ---------------------------------------------------------------------
  // WriteWAVFile
  // ---------------------------------------------------------------------

  /** The data size loop of WriteWAVFile: the sum of the frame lengths. */
  method DataSize(frames: seq<seq<byte>>) returns (n: nat)
    ensures n == TotalLength(frames)
  {
    n := 0;
    for i := 0 to |frames|
      invariant n == TotalLength(frames[..i])
    {
      assert frames[..i + 1][..i] == frames[..i];
      n := n + |frames[i]|;
    }
    assert frames[..|frames|] == frames;
  }

  /** The whole file: the header declaring the total frame length, then
      the frames in order. */
  function WavFileBytes(frames: seq<seq<byte>>, sampleRate: int, channels: int, bitDepth: int): (bs: seq<byte>)
  {
    CanonicalHeader(sampleRate, channels, bitDepth, TotalLength(frames)) + Flatten(frames)
  }

  /** The frame loop of WriteWAVFile on a sink holding `written`: one write
      per frame, stopping at the first failure, whose error is wrapped. */
  function WriteFramesSpec(written: seq<byte>, capacity: Option<nat>, frames: seq<seq<byte>>): (r: (Option<Error>, seq<byte>))
    ensures written <= r.1
    ensures r.0.Some? ==> r.0.value == FrameWriteFailed(ShortWrite)
  {
    var w := WriteChunks(written, capacity, frames);
    (if w.0.Some? then Some(FrameWriteFailed(w.0.value)) else None, w.1)
  }

  /** WriteWAVFile on a sink holding `written`: the header in one write,
      then the frame loop. A failed header write returns at once. */
  function WriteWavFileSpec(written: seq<byte>, capacity: Option<nat>, frames: seq<seq<byte>>,
                            sampleRate: int, channels: int, bitDepth: int): (r: (Option<Error>, seq<byte>))
    ensures written <= r.1
    ensures r.0.Some? ==> r.0.value == HeaderWriteFailed(ShortWrite) || r.0.value == FrameWriteFailed(ShortWrite)
    ensures r.0 == Some(HeaderWriteFailed(ShortWrite)) ==> |r.1| < |written| + 44
  {
    HeaderThenFrames(written, capacity, CanonicalHeader(sampleRate, channels, bitDepth, TotalLength(frames)), frames)
  }

  function HeaderThenFrames(written: seq<byte>, capacity: Option<nat>, header: seq<byte>, frames: seq<seq<byte>>): (r: (Option<Error>, seq<byte>))
    ensures written <= r.1
    ensures r.0.Some? ==> r.0.value == HeaderWriteFailed(ShortWrite) || r.0.value == FrameWriteFailed(ShortWrite)
    ensures |header| > 0 && r.0 == Some(HeaderWriteFailed(ShortWrite)) ==> |r.1| < |written| + |header|
  {
    var st := SinkWrite(written, capacity, header);
    if st.0.Err? then (Some(HeaderWriteFailed(st.0.error)), st.1)
    else WriteFramesSpec(st.1, capacity, frames)
  }

  /** `WriteWAVFile(frames, params, path)` with the created file given as
      the sink. */
  method WriteWavFile(frames: seq<seq<byte>>, sampleRate: int, channels: int, bitDepth: int, sink: ByteSink)
    returns (err: Option<Error>)
    modifies sink
    ensures (err, sink.written) == WriteWavFileSpec(old(sink.written), sink.capacity, frames, sampleRate, channels, bitDepth)
  {
    var dataSize := DataSize(frames);
    var header := MakeWavHeader(sampleRate, channels, bitDepth, dataSize);
    var r := sink.Write(header);
    if r.Err? {
      return Some(HeaderWriteFailed(r.error));
    }
    ghost var spec := WriteChunks(sink.written, sink.capacity, frames);
    for i := 0 to |frames|
      invariant WriteChunks(sink.written, sink.capacity, frames[i..]) == spec
    {
      assert frames[i..][1..] == frames[i + 1..];
      var w := sink.Write(frames[i]);
      if w.Err? {
        return Some(FrameWriteFailed(w.error));
      }
    }
    return None;
  }

  // ---------------------------------------------------------------------
  // Properties of the file writer
  // ---------------------------------------------------------------------

  /** The file is 44 header bytes followed by every frame byte. */
  lemma WavFileLength(frames: seq<seq<byte>>, sampleRate: int, channels: int, bitDepth: int)
    ensures |WavFileBytes(frames, sampleRate, channels, bitDepth)| == 44 + TotalLength(frames)
    ensures WavFileBytes(frames, sampleRate, channels, bitDepth)[44..] == Flatten(frames)
  {
  }

  /** WriteWAVFile writes a prefix of the file image: the whole file, with
      no error, exactly when the sink has room for it. A failed header write
      returns the header error, and then no frame byte reaches the sink. */
  lemma WriteWavFileOutcome(written: seq<byte>, capacity: Option<nat>, frames: seq<seq<byte>>,
                            sampleRate: int, channels: int, bitDepth: int)
    requires capacity.None? || |written| <= capacity.value
    ensures var r := WriteWavFileSpec(written, capacity, frames, sampleRate, channels, bitDepth);
            var file := WavFileBytes(frames, sampleRate, channels, bitDepth);
            r.1 == written + file[..Accepted(|written|, capacity, |file|)]
            && (r.0.None? <==> capacity.None? || |written| + |file| <= capacity.value)
            && (r.0.None? ==> r.1 == written + file)
    ensures var r := WriteWavFileSpec(written, capacity, frames, sampleRate, channels, bitDepth);
            var header := CanonicalHeader(sampleRate, channels, bitDepth, TotalLength(frames));
            capacity.Some? && |written| + 44 > capacity.value ==>
              r.0 == Some(HeaderWriteFailed(ShortWrite)) && r.1 == written + header[..Accepted(|written|, capacity, 44)]
  {
    var file := WavFileBytes(frames, sampleRate, channels, bitDepth);
    HeaderThenFramesOutcome(written, capacity, CanonicalHeader(sampleRate, channels, bitDepth, TotalLength(frames)), frames);
    assert file[..|file|] == file;
  }

  lemma HeaderThenFramesOutcome(written: seq<byte>, capacity: Option<nat>, header: seq<byte>, frames: seq<seq<byte>>)
    requires capacity.None? || |written| <= capacity.value
    ensures var r := HeaderThenFrames(written, capacity, header, frames);
            var file := header + Flatten(frames);
            r.1 == written + file[..Accepted(|written|, capacity, |file|)]
            && (r.0.None? <==> capacity.None? || |written| + |file| <= capacity.value)
    ensures var r := HeaderThenFrames(written, capacity, header, frames);
            capacity.Some? && |written| + |header| > capacity.value ==>
              r.0 == Some(HeaderWriteFailed(ShortWrite)) && r.1 == written + header[..Accepted(|written|, capacity, |header|)]
  {
    var file := header + Flatten(frames);
    var st := SinkWrite(written, capacity, header);
    if st.0.Err? {
      AcceptedShort(|written|, capacity, |header|, |file|);
      PrefixOfConcat(header, Flatten(frames), Accepted(|written|, capacity, |header|));
    } else {
      WriteChunksOutcome(st.1, capacity, frames);
      AcceptedSplit(|written|, capacity, |header|, TotalLength(frames));
      PrefixOfConcat(header, Flatten(frames), Accepted(|written|, capacity, |file|));
    }
  }

  /** Frames that hold no bytes (or no frames at all) give a bare 44-byte
      header announcing an empty data chunk. */
  lemma EmptyFramesFile(frames: seq<seq<byte>>, sampleRate: int, channels: int, bitDepth: int)
    requires forall i :: 0 <= i < |frames| ==> frames[i] == []
    ensures var file := WavFileBytes(frames, sampleRate, channels, bitDepth);
            |file| == 44 && U32(file[4..8]) == 36 && U32(file[40..44]) == 0
  {
    EmptyTotal(frames);
    WavFileLength(frames, sampleRate, channels, bitDepth);
    EmptyDataHeader(sampleRate, channels, bitDepth);
  }

  lemma {:induction false} EmptyTotal(frames: seq<seq<byte>>)
    requires forall i :: 0 <= i < |frames| ==> frames[i] == []
    ensures TotalLength(frames) == 0
  {
    if |frames| > 0 {
      EmptyTotal(frames[..|frames| - 1]);
    }
  }
}
