/** The frame-aligning read loop of FFmpegProcessor.Process. The decoder
    process is replaced by what it hands back: the bytes that arrive
    before the payload (the WAV header), the result of each successful
    `Read` of the payload, how the chunks end, and the exit status `Wait`
    reports. The 44 header bytes are skipped, each read keeps its longest
    prefix made of whole frames, and the rest of that read is dropped. */
module Processor {
  import opened Base

  /** Bytes consumed as the WAV header before the payload. */
  const HeaderSize: nat := 44
  /** The read buffer holds this many frames. */
  const FramesPerBuffer: nat := 1024

  /** How the payload chunks end: `io.EOF`, or any other read error. */
  datatype ReadEnd = EndOfStream | ReadError

  /** What the decoder's standard output and exit status deliver. `header`
      is what `io.ReadFull` sees before the pipe would end; `chunks` are the
      byte counts and contents of the successful payload chunks, in order. */
  datatype DecoderOutput = DecoderOutput(header: seq<byte>, chunks: seq<seq<byte>>, end: ReadEnd, exitOk: bool)

  /** The frames returned, the error returned, and whether the decoder
      process was killed. */
  datatype Outcome = Outcome(frames: seq<seq<byte>>, err: Option<Error>, killed: bool)

  /** Bytes per frame: bytes per sample (Go integer division) times
      channels. The parameters are not validated. */
  function FrameSize(bitDepth: int, channels: int): int
  {
    GoDiv(bitDepth, 8) * channels
  }

  function BufferSize(bitDepth: int, channels: int): int
  {
    FrameSize(bitDepth, channels) * FramesPerBuffer
  }

  /** A `Read` into the buffer never returns more bytes than the buffer holds. */
  predicate ChunksFit(chunks: seq<seq<byte>>, bufferSize: int)
  {
    forall i :: 0 <= i < |chunks| ==> |chunks[i]| <= bufferSize
  }

  /** n rounded down to a multiple of d, and what that rounding drops. */
  lemma FloorMultiple(n: nat, d: int)
    requires d > 0
    ensures 0 <= (n / d) * d <= n < (n / d) * d + d
    ensures n / d > 0 <==> n >= d
    ensures ((n / d) * d) % d == 0
  {
    var q := n / d;
    assert d * q + n % d == n;
    assert q * d == d * q;
    MulDiv(q, d);
  }

  /** The part of one read that becomes a frame: its longest prefix made of
      whole frames. */
  function AlignedPrefix(chunk: seq<byte>, frameSize: int): (f: seq<byte>)
    requires frameSize > 0
    ensures f <= chunk
    ensures |f| == (|chunk| / frameSize) * frameSize
    ensures |f| % frameSize == 0
    ensures |chunk| - |f| < frameSize
    ensures |f| > 0 <==> |chunk| >= frameSize
  {
    FloorMultiple(|chunk|, frameSize);
    chunk[..(|chunk| / frameSize) * frameSize]
  }

  /** The frames the read loop accumulates: each read whose aligned prefix
      is not empty contributes that prefix, in read order. */
  function CollectFrames(chunks: seq<seq<byte>>, frameSize: int): (frames: seq<seq<byte>>)
    requires frameSize > 0
    ensures |frames| <= |chunks|
    ensures forall j :: 0 <= j < |frames| ==> |frames[j]| > 0 && |frames[j]| % frameSize == 0
    decreases |chunks|
  {
    if |chunks| == 0 then []
    else
      var earlier := CollectFrames(chunks[..|chunks| - 1], frameSize);
      var f := AlignedPrefix(chunks[|chunks| - 1], frameSize);
      if |f| > 0 then earlier + [f] else earlier
  }

  /** Process after the decoder has started. A header shorter than 44 bytes
      kills the decoder and fails; so does a read error. A failed `Wait`
      fails without a kill. Every failure discards the frames. Once the
      header is in, a negative frame size panics in the buffer's `make`,
      and a zero one in `n / frameSize` at the first read: a read into an
      empty buffer returns (0, nil) at once, so it never sees EOF. */
  function ProcessSpec(out: DecoderOutput, bitDepth: int, channels: int): (r: Outcome)
    ensures r.err.None? <==> |out.header| >= HeaderSize && FrameSize(bitDepth, channels) > 0
                             && out.end.EndOfStream? && out.exitOk
    ensures r.err.Some? ==> r.frames == []
    ensures r.err == Some(HeaderReadFailed) <==> |out.header| < HeaderSize
    ensures r.err == Some(RuntimePanic) <==> |out.header| >= HeaderSize && FrameSize(bitDepth, channels) <= 0
    ensures r.err == Some(AudioReadFailed) <==> |out.header| >= HeaderSize && FrameSize(bitDepth, channels) > 0
                                                && out.end.ReadError?
    ensures r.err == Some(DecoderFailed) <==> |out.header| >= HeaderSize && FrameSize(bitDepth, channels) > 0
                                              && out.end.EndOfStream? && !out.exitOk
    ensures r.killed <==> r.err == Some(HeaderReadFailed) || r.err == Some(AudioReadFailed)
    ensures r.err.None? ==> FrameSize(bitDepth, channels) > 0
                            && r.frames == CollectFrames(out.chunks, FrameSize(bitDepth, channels))
  {
    if |out.header| < HeaderSize then Outcome([], Some(HeaderReadFailed), true)
    else if FrameSize(bitDepth, channels) <= 0 then Outcome([], Some(RuntimePanic), false)
    else if out.end.ReadError? then Outcome([], Some(AudioReadFailed), true)
    else if !out.exitOk then Outcome([], Some(DecoderFailed), false)
    else Outcome(CollectFrames(out.chunks, FrameSize(bitDepth, channels)), None, false)
  }

  /** `stdout.Read(buffer)` delivering `chunk`: the first |chunk| bytes of
      the reused buffer are overwritten and the rest keep what an earlier
      read left there. */
  method ReadInto(buffer: array<byte>, chunk: seq<byte>)
    requires |chunk| <= buffer.Length
    modifies buffer
    ensures buffer[..|chunk|] == chunk
    ensures buffer[|chunk|..] == old(buffer[|chunk|..])
  {
    forall i | 0 <= i < |chunk| {
      buffer[i] := chunk[i];
    }
  }

  /** `make` and `copy`: a fresh array holding the first m buffer bytes. */
  method CopyPrefix(buffer: array<byte>, m: nat) returns (frame: array<byte>)
    requires m <= buffer.Length
    ensures fresh(frame)
    ensures frame[..] == buffer[..m]
  {
    frame := new byte[m];
    forall i | 0 <= i < m {
      frame[i] := buffer[i];
    }
  }

  method Process(out: DecoderOutput, bitDepth: int, channels: int) returns (frames: seq<seq<byte>>, err: Option<Error>, killed: bool)
    requires FrameSize(bitDepth, channels) > 0 ==> ChunksFit(out.chunks, BufferSize(bitDepth, channels))
    ensures Outcome(frames, err, killed) == ProcessSpec(out, bitDepth, channels)
  {
    killed := false;
    if |out.header| < HeaderSize {
      killed := true;
      return [], Some(HeaderReadFailed), killed;
    }
    var frameSize := FrameSize(bitDepth, channels);
    if frameSize <= 0 {
      return [], Some(RuntimePanic), killed;
    }
    var buffer := new byte[frameSize * FramesPerBuffer];
    frames := [];
    var k := 0;
    while k < |out.chunks|
      invariant 0 <= k <= |out.chunks|
      invariant frames == CollectFrames(out.chunks[..k], frameSize)
    {
      var chunk := out.chunks[k];
      ReadInto(buffer, chunk);
      var n := |chunk|;
      var frameCount := n / frameSize;
      FloorMultiple(n, frameSize);
      if frameCount > 0 {
        var frame := CopyPrefix(buffer, frameCount * frameSize);
        assert frame[..] == AlignedPrefix(chunk, frameSize) by {
          assert buffer[..frameCount * frameSize] == buffer[..n][..frameCount * frameSize];
        }
        frames := frames + [frame[..]];
      }
      assert out.chunks[..k + 1][..k] == out.chunks[..k];
      k := k + 1;
    }
    if out.end.ReadError? {
      killed := true;
      return [], Some(AudioReadFailed), killed;
    }
    if !out.exitOk {
      return [], Some(DecoderFailed), killed;
    }
    assert out.chunks[..|out.chunks|] == out.chunks;
    err := None;
  }

  /** Frames from consecutive runs of chunks are the two runs' frames, one
      after the other: frames keep read order, and no bytes of one read are
      carried into the next. */
  lemma {:induction false} CollectAppend(a: seq<seq<byte>>, b: seq<seq<byte>>, frameSize: int)
    requires frameSize > 0
    ensures CollectFrames(a + b, frameSize) == CollectFrames(a, frameSize) + CollectFrames(b, frameSize)
    decreases |b|
  {
    if |b| == 0 {
      assert a + b == a;
    } else {
      var b' := b[..|b| - 1];
      assert (a + b)[..|a + b| - 1] == a + b';
      assert (a + b)[|a + b| - 1] == b[|b| - 1];
      CollectAppend(a, b', frameSize);
    }
  }

  /** One read contributes one frame, its aligned prefix, when it holds at
      least a whole frame, and nothing otherwise. */
  lemma SingleRead(chunk: seq<byte>, frameSize: int)
    requires frameSize > 0
    ensures |chunk| >= frameSize ==> CollectFrames([chunk], frameSize) == [chunk[..(|chunk| / frameSize) * frameSize]]
    ensures |chunk| < frameSize ==> CollectFrames([chunk], frameSize) == []
  {
    assert [chunk][..0] == [];
  }

  /** A read shorter than a frame adds nothing, wherever it falls. */
  lemma ShortReadAddsNothing(a: seq<seq<byte>>, chunk: seq<byte>, b: seq<seq<byte>>, frameSize: int)
    requires frameSize > 0 && |chunk| < frameSize
    ensures CollectFrames(a + [chunk] + b, frameSize) == CollectFrames(a + b, frameSize)
  {
    CollectAppend(a + [chunk], b, frameSize);
    CollectAppend(a, [chunk], frameSize);
    SingleRead(chunk, frameSize);
    CollectAppend(a, b, frameSize);
  }

  /** Every frame is a positive multiple of the frame size, no longer than
      the buffer, and there are never more frames than chunks. */
  lemma {:induction false} FramesShape(chunks: seq<seq<byte>>, frameSize: int)
    requires frameSize > 0 && ChunksFit(chunks, frameSize * FramesPerBuffer)
    ensures var frames := CollectFrames(chunks, frameSize);
            |frames| <= |chunks| &&
            forall j :: 0 <= j < |frames| ==>
              0 < |frames[j]| <= frameSize * FramesPerBuffer && |frames[j]| % frameSize == 0
    decreases |chunks|
  {
    if |chunks| > 0 {
      var init := chunks[..|chunks| - 1];
      assert ChunksFit(init, frameSize * FramesPerBuffer) by {
        forall i | 0 <= i < |init| ensures |init[i]| <= frameSize * FramesPerBuffer {
          assert init[i] == chunks[i];
        }
      }
      FramesShape(init, frameSize);
      var f := AlignedPrefix(chunks[|chunks| - 1], frameSize);
      assert |f| <= |chunks[|chunks| - 1]|;
    }
  }

  /** Σ floor(n_i / frameSize) * frameSize over the read sizes n_i. */
  function AlignedTotal(chunks: seq<seq<byte>>, frameSize: int): (t: int)
    requires frameSize > 0
    decreases |chunks|
  {
    if |chunks| == 0 then 0
    else AlignedTotal(chunks[..|chunks| - 1], frameSize) + (|chunks[|chunks| - 1]| / frameSize) * frameSize
  }

  /** The frames hold exactly Σ floor(n_i / frameSize) * frameSize bytes. */
  lemma {:induction false} FramesTotal(chunks: seq<seq<byte>>, frameSize: int)
    requires frameSize > 0
    ensures TotalLength(CollectFrames(chunks, frameSize)) == AlignedTotal(chunks, frameSize)
    decreases |chunks|
  {
    if |chunks| > 0 {
      var init, last := chunks[..|chunks| - 1], chunks[|chunks| - 1];
      FramesTotal(init, frameSize);
      var f := AlignedPrefix(last, frameSize);
      var earlier := CollectFrames(init, frameSize);
      if |f| > 0 {
        assert (earlier + [f])[..|earlier + [f]| - 1] == earlier;
      }
    }
  }

  /** What the frames keep is never more than the payload, and less by
      under one frame per read. */
  lemma {:induction false} AlignedTotalBounds(chunks: seq<seq<byte>>, frameSize: int)
    requires frameSize > 0
    ensures AlignedTotal(chunks, frameSize) <= TotalLength(chunks)
    ensures TotalLength(chunks) - AlignedTotal(chunks, frameSize) <= |chunks| * (frameSize - 1)
    decreases |chunks|
  {
    if |chunks| > 0 {
      var init, last := chunks[..|chunks| - 1], chunks[|chunks| - 1];
      AlignedTotalBounds(init, frameSize);
      FloorMultiple(|last|, frameSize);
      MulStep(|init|, |chunks|, frameSize - 1);
    }
  }

  /** The frames are the aligned prefixes of the chunks, concatenated: the
      payload bytes that survive, taken in read order. */
  lemma {:induction false} FramesArePrefixes(chunks: seq<seq<byte>>, frameSize: int)
    requires frameSize > 0
    ensures Flatten(CollectFrames(chunks, frameSize)) == Flatten(AlignedPrefixes(chunks, frameSize))
    decreases |chunks|
  {
    if |chunks| > 0 {
      var init, last := chunks[..|chunks| - 1], chunks[|chunks| - 1];
      FramesArePrefixes(init, frameSize);
      var f := AlignedPrefix(last, frameSize);
      var earlier := CollectFrames(init, frameSize);
      var ps := AlignedPrefixes(init, frameSize);
      FlattenAppend(ps, [f]);
      FlattenAppend(earlier, [f]);
      assert Flatten([f]) == f by {
        FlattenCons([f]);
        var none: seq<seq<byte>> := [];
        assert [f][1..] == none;
      }
      if |f| == 0 {
        assert Flatten(ps + [f]) == Flatten(ps);
      }
    }
  }

  /** Every read's aligned prefix, empty ones included. */
  function AlignedPrefixes(chunks: seq<seq<byte>>, frameSize: int): (ps: seq<seq<byte>>)
    requires frameSize > 0
    ensures |ps| == |chunks|
    ensures forall i :: 0 <= i < |chunks| ==> ps[i] == AlignedPrefix(chunks[i], frameSize)
    decreases |chunks|
  {
    if |chunks| == 0 then []
    else AlignedPrefixes(chunks[..|chunks| - 1], frameSize) + [AlignedPrefix(chunks[|chunks| - 1], frameSize)]
  }

  /** The header's contents never reach the frames: only its length
      matters, through whether the header read succeeds. */
  lemma HeaderNeverInFrames(out: DecoderOutput, header: seq<byte>, bitDepth: int, channels: int)
    requires |out.header| >= HeaderSize && |header| >= HeaderSize
    ensures ProcessSpec(out.(header := header), bitDepth, channels) == ProcessSpec(out, bitDepth, channels)
  {
  }
}
