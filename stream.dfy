/** The streaming layer of pkg/stream/stream.go: an `AudioStream` reads PCM
    bytes from a source and decodes them into samples, and encodes samples
    into bytes for a sink. Each method of the class is proved against a pure
    function of the old state (ReadSpec, WriteSpec, ProcessSpec,
    ToSegmentSpec); the properties of the stream are lemmas about those. */
module Stream {
  import opened Base
  import opened LittleEndian
  import opened Pcm
  import opened ByteIO
  import opened Segment

  // ---------------------------------------------------------------------
  // Construction
  // ---------------------------------------------------------------------

  /** The configuration checks of NewAudioStream, in the source's order. */
  function ConfigError(hasReader: bool, hasWriter: bool, sampleRate: int, channels: int, bitDepth: int, bufferSize: int): (r: Option<Error>)
    ensures r.None? <==> (hasReader || hasWriter) && sampleRate > 0 && channels > 0 && bitDepth > 0 && bufferSize > 0
    ensures !hasReader && !hasWriter ==> r == Some(NoEndpoint)
    ensures (hasReader || hasWriter) && sampleRate <= 0 ==> r == Some(BadSampleRate)
    ensures (hasReader || hasWriter) && sampleRate > 0 && channels <= 0 ==> r == Some(BadChannels)
    ensures (hasReader || hasWriter) && sampleRate > 0 && channels > 0 && bitDepth <= 0 ==> r == Some(BadBitDepth)
    ensures (hasReader || hasWriter) && sampleRate > 0 && channels > 0 && bitDepth > 0 && bufferSize <= 0 ==> r == Some(BadBufferSize)
  {
    if !hasReader && !hasWriter then Some(NoEndpoint)
    else if sampleRate <= 0 then Some(BadSampleRate)
    else if channels <= 0 then Some(BadChannels)
    else if bitDepth <= 0 then Some(BadBitDepth)
    else if bufferSize <= 0 then Some(BadBufferSize)
    else None
  }

  // ---------------------------------------------------------------------
  // Read
  // ---------------------------------------------------------------------

  /** The samples the stream reader produces from a byte string: one per
      complete group of Width bytes, each normalised by 2^(bitDepth-1) - 1. */
  function Normalize(vs: seq<int>, bitDepth: int): (ss: seq<real>)
    requires Supported(bitDepth)
    ensures |ss| == |vs| && forall i :: 0 <= i < |vs| ==> ss[i] == StreamValue(vs[i], bitDepth)
  {
    seq(|vs|, i requires 0 <= i < |vs| => StreamValue(vs[i], bitDepth))
  }

  function StreamSamples(bytes: seq<byte>, bitDepth: int): (ss: seq<real>)
    requires Supported(bitDepth)
    ensures |ss| == |bytes| / Width(bitDepth)
  {
    Normalize(DecodeInts(bytes, bitDepth), bitDepth)
  }

  lemma StreamSamplesAppend(a: seq<byte>, b: seq<byte>, bitDepth: int)
    requires Supported(bitDepth) && |a| % Width(bitDepth) == 0
    ensures StreamSamples(a + b, bitDepth) == StreamSamples(a, bitDepth) + StreamSamples(b, bitDepth)
  {
    DecodeIntsAppend(a, b, bitDepth);
    var l, r := StreamSamples(a + b, bitDepth), StreamSamples(a, bitDepth) + StreamSamples(b, bitDepth);
    assert |l| == |r|;
    forall i | 0 <= i < |l| ensures l[i] == r[i] {
      var va, vb := DecodeInts(a, bitDepth), DecodeInts(b, bitDepth);
      if i < |va| {
        assert DecodeInts(a + b, bitDepth)[i] == va[i];
      } else {
        assert DecodeInts(a + b, bitDepth)[i] == vb[i - |va|];
      }
    }
  }

  /** The outcome of `Read(p)`: the `(n, err)` result, the source after the
      read and the contents of `p` after it. */
  datatype ReadOutcome = ReadOutcome(result: Result<nat>, src: SourceState, p: seq<real>)

  /** `AudioStream.Read` on a source in state `src` into a buffer holding
      `p`. It asks the source for `len(p) * bytesPerSample` bytes, passes a
      source error back unchanged, decodes `n / bytesPerSample` samples into
      the front of `p` and returns that count; the remaining `n mod
      bytesPerSample` bytes are consumed and dropped. A bit depth without a
      codec case leaves `p` as it was but still returns the count; a bit
      depth below 8 makes `bytesPerSample` zero and the division panics. */
  function ReadSpec(src: SourceState, p: seq<real>, bitDepth: int): (o: ReadOutcome)
    requires bitDepth > 0
    ensures |o.p| == |p|
    ensures o.result.Err? ==> o.p == p && o.src == src
    ensures o.result.Ok? ==> o.result.value <= |p| && o.src.data == src.data
                             && o.src.failsAtEnd == src.failsAtEnd && o.src.pos >= src.pos
    ensures |p| > 0 && o.result.Ok? ==> Remaining(o.src) < Remaining(src)
  {
    var bps := BytesPerSample(bitDepth);
    MulNonneg(|p|, bps);
    var step := SourceRead(src, |p| * bps);
    if step.0.Err? then ReadOutcome(Err(step.0.error), step.1, p)
    else if bps == 0 then ReadOutcome(Err(RuntimePanic), step.1, p)
    else
      var bytes := step.0.value;
      var k := |bytes| / bps;
      DivBound(|bytes|, |p|, bps);
      assert |p| > 0 ==> |p| * bps > 0 by {
        if |p| > 0 {
          MulStep(0, |p|, bps);
        }
      }
      ReadOutcome(Ok(k), step.1, if Supported(bitDepth) then StreamSamples(bytes, bitDepth) + p[k..] else p)
  }

  /** How a read ends: end of input exactly when a cleanly ending source
      has nothing left, a read error when a failing one has nothing left,
      and the division panic when bytesPerSample is zero and there was
      something to read. */
  lemma ReadOutcomes(src: SourceState, p: seq<real>, bitDepth: int)
    requires bitDepth > 0
    ensures var o := ReadSpec(src, p, bitDepth);
            (o.result == Err(Eof) <==> Remaining(src) == 0 && !src.failsAtEnd)
            && (o.result == Err(ReadFailed) <==> Remaining(src) == 0 && src.failsAtEnd)
            && (o.result == Err(RuntimePanic) <==> Remaining(src) > 0 && BytesPerSample(bitDepth) == 0)
            && (o.result.Ok? <==> Remaining(src) > 0 && BytesPerSample(bitDepth) > 0)
  {
  }

  /** A successful read consumes min(len(p) * bytesPerSample, remaining)
      bytes, returns the number of complete samples among them, decodes
      those into the front of `p` and leaves the rest of `p` alone. */
  lemma ReadDecodes(src: SourceState, p: seq<real>, bitDepth: int)
    requires bitDepth > 0 && ReadSpec(src, p, bitDepth).result.Ok?
    ensures var o := ReadSpec(src, p, bitDepth);
            var bps := BytesPerSample(bitDepth);
            var taken := Min(|p| * bps, Remaining(src));
            var k := o.result.value;
            bps > 0 && 0 <= taken && src.pos + taken <= |src.data|
            && o.src == src.(pos := src.pos + taken)
            && k == taken / bps
            && o.p[k..] == p[k..]
            && (Supported(bitDepth) ==> o.p[..k] == StreamSamples(src.data[src.pos .. src.pos + taken], bitDepth))
            && (!Supported(bitDepth) ==> o.p == p)
  {
    MulNonneg(|p|, BytesPerSample(bitDepth));
  }

  // ---------------------------------------------------------------------
  // Write
  // ---------------------------------------------------------------------

  /** The codec bytes of a run of samples, sample after sample, each the
      clamped and quantized sample in the codec's layout. */
  function Encode(p: seq<real>, bitDepth: int): (bs: seq<byte>)
    requires Supported(bitDepth)
    ensures |bs| == |p| * Width(bitDepth)
  {
    UniformTotal(Frames(p, bitDepth), Width(bitDepth));
    Flatten(Frames(p, bitDepth))
  }

  /** The codec bytes of each sample on its own. */
  function Frames(p: seq<real>, bitDepth: int): (fs: seq<seq<byte>>)
    requires Supported(bitDepth)
    ensures |fs| == |p|
    ensures forall i :: 0 <= i < |p| ==> fs[i] == Pack(Quantize(p[i], bitDepth), bitDepth)
  {
    seq(|p|, i requires 0 <= i < |p| => Pack(Quantize(p[i], bitDepth), bitDepth))
  }

  /** Encoding a non-empty run is encoding all but its last sample, then
      the last sample. */
  lemma EncodeSnoc(p: seq<real>, bitDepth: int)
    requires Supported(bitDepth) && |p| > 0
    ensures Encode(p, bitDepth) == Encode(p[..|p| - 1], bitDepth) + Pack(Quantize(p[|p| - 1], bitDepth), bitDepth)
  {
    assert Frames(p, bitDepth)[..|p| - 1] == Frames(p[..|p| - 1], bitDepth);
  }

  /** The byte string `Write(p)` hands to the sink in its single call:
      `len(p) * bytesPerSample` bytes. A bit depth without a codec case
      leaves the zeroed buffer as it was. */
  function StreamBytes(p: seq<real>, bitDepth: int): (bs: seq<byte>)
    requires bitDepth > 0
    ensures |bs| == |p| * BytesPerSample(bitDepth)
  {
    MulNonneg(|p|, BytesPerSample(bitDepth));
    if Supported(bitDepth) then
      Encode(p, bitDepth)
    else
      seq(|p| * BytesPerSample(bitDepth), _ => 0)
  }

  /** `AudioStream.Write(p)` on a sink holding `written`: the `(n, err)`
      result and the sink's new contents. A sink error is passed back as
      `(0, err)`; otherwise the result is `bytesWritten / bytesPerSample`. */
  function WriteSpec(written: seq<byte>, capacity: Option<nat>, p: seq<real>, bitDepth: int): (r: (Result<nat>, seq<byte>))
    requires bitDepth > 0
    ensures r.1 == written + StreamBytes(p, bitDepth)[..Accepted(|written|, capacity, |p| * BytesPerSample(bitDepth))]
    ensures r.0.Ok? ==> r.1 == written + StreamBytes(p, bitDepth) && r.0.value == |p|
    ensures r.0.Ok? <==> BytesPerSample(bitDepth) > 0 && (capacity.None? || |written| + |p| * BytesPerSample(bitDepth) <= capacity.value)
    ensures r.0.Err? ==> r.0.error == ShortWrite || r.0.error == RuntimePanic
  {
    var bps := BytesPerSample(bitDepth);
    var step := SinkWrite(written, capacity, StreamBytes(p, bitDepth));
    if step.0.Err? then (Err(step.0.error), step.1)
    else if bps == 0 then (Err(RuntimePanic), step.1)
    else
      MulDiv(|p|, bps);
      (Ok(step.0.value / bps), step.1)
  }

  lemma EncodeAppend(a: seq<real>, b: seq<real>, bitDepth: int)
    requires Supported(bitDepth)
    ensures Encode(a + b, bitDepth) == Encode(a, bitDepth) + Encode(b, bitDepth)
  {
    assert Frames(a + b, bitDepth) == Frames(a, bitDepth) + Frames(b, bitDepth);
    FlattenAppend(Frames(a, bitDepth), Frames(b, bitDepth));
  }

  /** Decoding what Write emits gives back, sample for sample, the
      quantized integers: the integer-level round trip of the stream codec. */
  lemma {:induction false} DecodeEncode(p: seq<real>, bitDepth: int)
    requires Supported(bitDepth)
    ensures DecodeInts(Encode(p, bitDepth), bitDepth) == seq(|p|, i requires 0 <= i < |p| => Quantize(p[i], bitDepth))
  {
    if |p| > 0 {
      var w := Width(bitDepth);
      var init := p[..|p| - 1];
      var q := Quantize(p[|p| - 1], bitDepth);
      EncodeSnoc(p, bitDepth);
      DecodeEncode(init, bitDepth);
      MulDiv(|init|, w);
      DecodeIntsAppend(Encode(init, bitDepth), Pack(q, bitDepth), bitDepth);
      PackUnpack(q, bitDepth);
      assert Group(Pack(q, bitDepth), 0, bitDepth) == Pack(q, bitDepth);
      assert DecodeInts(Pack(q, bitDepth), bitDepth) == [q];
    } else {
      assert Frames(p, bitDepth) == [];
    }
  }

  /** A stream reader fed exactly the bytes a stream writer produced for
      `p`, through a buffer of at least |p| samples, returns |p| samples in
      one read, each p[i] quantized and normalised, and for a sample in
      [-1, 1] within one quantization step of the original; the rest of the
      buffer is left as it was. */
  lemma WriteThenRead(p: seq<real>, buffer: seq<real>, bitDepth: int)
    requires Supported(bitDepth) && |p| > 0 && |buffer| >= |p|
    ensures var o := ReadSpec(SourceState(StreamBytes(p, bitDepth), 0, false), buffer, bitDepth);
            o.result == Ok(|p|)
            && (forall i :: 0 <= i < |p| ==> o.p[i] == StreamValue(Quantize(p[i], bitDepth), bitDepth))
            && (forall i :: 0 <= i < |p| && -1.0 <= p[i] <= 1.0 ==>
                  -1.0 < (o.p[i] - p[i]) * StreamScale(bitDepth) < 1.0)
            && o.p[|p|..] == buffer[|p|..]
  {
    var w := Width(bitDepth);
    var bs := StreamBytes(p, bitDepth);
    MulDiv(|p|, w);
    MulMono(|p|, |buffer|, w);
    MulStep(0, |p|, w);
    ReadWhole(bs, buffer, bitDepth);
    var o := ReadSpec(SourceState(bs, 0, false), buffer, bitDepth);
    DecodeEncode(p, bitDepth);
    assert forall i :: 0 <= i < |p| ==> o.p[i] == StreamValue(Quantize(p[i], bitDepth), bitDepth);
    forall i | 0 <= i < |p| && -1.0 <= p[i] <= 1.0
      ensures -1.0 < (o.p[i] - p[i]) * StreamScale(bitDepth) < 1.0
    {
      StreamRoundTripError(p[i], bitDepth);
      PackUnpack(Quantize(p[i], bitDepth), bitDepth);
    }
  }

  /** A read whose buffer has room for every sample in the source takes
      them all in one call, into the front of the buffer. */
  lemma ReadWhole(bs: seq<byte>, buffer: seq<real>, bitDepth: int)
    requires Supported(bitDepth) && |bs| > 0 && |bs| % Width(bitDepth) == 0 && |bs| <= |buffer| * Width(bitDepth)
    ensures var o := ReadSpec(SourceState(bs, 0, false), buffer, bitDepth);
            var k := |bs| / Width(bitDepth);
            k <= |buffer| && o.result == Ok(k)
            && o.p[..k] == StreamSamples(bs, bitDepth) && o.p[k..] == buffer[k..]
  {
    var w := Width(bitDepth);
    var src := SourceState(bs, 0, false);
    DivBound(|bs|, |buffer|, w);
    assert Remaining(src) == |bs| && Rest(src) == bs;
    assert |buffer| > 0;
    ReadOutcomes(src, buffer, bitDepth);
    ReadDecodes(src, buffer, bitDepth);
    assert Min(|buffer| * w, Remaining(src)) == |bs|;
    assert src.data[src.pos .. src.pos + |bs|] == bs;
  }

  /** The round trip of FromSegment and ToSegment: the bytes one stream
      writes for `p`, read back by another stream through a buffer of any
      positive size, give one sample per sample of `p`, in order, each p[i]
      quantized and normalised and, for p[i] in [-1, 1], within one
      quantization step of it. The segment built from them carries the
      reading stream's parameters. */
  lemma SegmentRoundTrip(p: seq<real>, buffer: seq<real>, sampleRate: int, channels: int, bitDepth: int)
    requires Supported(bitDepth) && |buffer| > 0
    ensures var r := ToSegmentSpec(SourceState(StreamBytes(p, bitDepth), 0, false), buffer, [], bitDepth).0;
            r == Ok(StreamDecoded(p, bitDepth))
            && (forall i :: 0 <= i < |p| && -1.0 <= p[i] <= 1.0 ==>
                  -1.0 < (r.value[i] - p[i]) * StreamScale(bitDepth) < 1.0)
            && (|p| > 0 && sampleRate > 0 && channels > 0 ==>
                  var seg := NewAudioSegment(r.value, sampleRate, channels, bitDepth);
                  seg.Ok? && seg.value.Samples() == r.value && seg.value.SampleRate() == sampleRate
                  && seg.value.Channels() == channels && seg.value.BitDepth() == bitDepth)
  {
    SegmentSamples(p, buffer, bitDepth);
    DecodedWithinStep(p, bitDepth);
  }

  /** What the stream codec gives back for `p`: each sample quantized and
      normalised, in order. */
  function StreamDecoded(p: seq<real>, bitDepth: int): (ss: seq<real>)
    requires Supported(bitDepth)
    ensures |ss| == |p|
  {
    seq(|p|, i requires 0 <= i < |p| => StreamValue(Quantize(p[i], bitDepth), bitDepth))
  }

  lemma SegmentSamples(p: seq<real>, buffer: seq<real>, bitDepth: int)
    requires Supported(bitDepth) && |buffer| > 0
    ensures ToSegmentSpec(SourceState(StreamBytes(p, bitDepth), 0, false), buffer, [], bitDepth).0 == Ok(StreamDecoded(p, bitDepth))
  {
    var bs := StreamBytes(p, bitDepth);
    var src := SourceState(bs, 0, false);
    ToSegmentDecodesAll(src, buffer, [], bitDepth);
    assert Rest(src) == bs;
    assert bs == Encode(p, bitDepth);
    DecodeEncodeSamples(p, bitDepth);
    assert [] + StreamSamples(bs, bitDepth) == StreamSamples(bs, bitDepth);
  }

  /** Decoding Write's bytes gives StreamDecoded: DecodeEncode lifted to
      normalised samples. */
  lemma DecodeEncodeSamples(p: seq<real>, bitDepth: int)
    requires Supported(bitDepth)
    ensures StreamSamples(Encode(p, bitDepth), bitDepth) == StreamDecoded(p, bitDepth)
  {
    var vs := DecodeInts(Encode(p, bitDepth), bitDepth);
    DecodeEncode(p, bitDepth);
    assert |vs| == |p|;
    forall i | 0 <= i < |p|
      ensures StreamSamples(Encode(p, bitDepth), bitDepth)[i] == StreamDecoded(p, bitDepth)[i]
    {
      assert vs[i] == Quantize(p[i], bitDepth);
    }
  }

  /** For every sample of `p` in [-1, 1], the decoded value is within one
      quantization step. */
  lemma DecodedWithinStep(p: seq<real>, bitDepth: int)
    requires Supported(bitDepth)
    ensures forall i :: 0 <= i < |p| && -1.0 <= p[i] <= 1.0 ==>
              -1.0 < (StreamDecoded(p, bitDepth)[i] - p[i]) * StreamScale(bitDepth) < 1.0
  {
    forall i | 0 <= i < |p| && -1.0 <= p[i] <= 1.0
      ensures -1.0 < (StreamDecoded(p, bitDepth)[i] - p[i]) * StreamScale(bitDepth) < 1.0
    {
      StreamRoundTripError(p[i], bitDepth);
      PackUnpack(Quantize(p[i], bitDepth), bitDepth);
    }
  }

  // ---------------------------------------------------------------------
  // Process and ToSegment
  // ---------------------------------------------------------------------

  /** The processor callback receives `buffer[:n]` and may rewrite it in
      place; the model gives it as a function from the slice to its new
      contents, or to an error. A slice has a fixed length. */
  ghost predicate LengthPreserving(f: seq<real> -> Result<seq<real>>)
  {
    forall x :: f(x).Ok? ==> |f(x).value| == |x|
  }

  /** The state Process works on: the source, the sink's contents and the
      stream's reusable sample buffer. */
  datatype Ends = Ends(src: SourceState, sink: seq<byte>, buffer: seq<real>)

  /** One round of the Process loop either stops, with the error returned
      (None for the normal end), or goes on with the new state. */
  datatype Step = Stop(err: Option<Error>, ends: Ends) | Continue(ends: Ends)

  /** One round of `AudioStream.Process(f)`: read into the buffer, run `f`
      on the `n` samples read, and write them out when a writer exists.
      End of input stops normally; every other error stops at once. */
  function ProcessStep(e: Ends, hasWriter: bool, capacity: Option<nat>, bitDepth: int, f: seq<real> -> Result<seq<real>>): (r: Step)
    requires bitDepth > 0 && |e.buffer| > 0 && LengthPreserving(f)
    ensures |r.ends.buffer| == |e.buffer|
    ensures !hasWriter ==> r.ends.sink == e.sink
    ensures r.ends.src.data == e.src.data && r.ends.src.failsAtEnd == e.src.failsAtEnd && r.ends.src.pos >= e.src.pos
    ensures r.Continue? ==> Remaining(r.ends.src) < Remaining(e.src)
    ensures r == Stop(None, e) <==> Remaining(e.src) == 0 && !e.src.failsAtEnd
  {
    var rd := ReadSpec(e.src, e.buffer, bitDepth);
    ReadOutcomes(e.src, e.buffer, bitDepth);
    if rd.result == Err(Eof) then Stop(None, e)
    else if rd.result.Err? then Stop(Some(rd.result.error), e)
    else
      var n := rd.result.value;
      var out := f(rd.p[..n]);
      if out.Err? then Stop(Some(out.error), Ends(rd.src, e.sink, rd.p))
      else
        var buffer := out.value + rd.p[n..];
        if hasWriter then
          var wr := WriteSpec(e.sink, capacity, out.value, bitDepth);
          if wr.0.Err? then Stop(Some(wr.0.error), Ends(rd.src, wr.1, buffer))
          else Continue(Ends(rd.src, wr.1, buffer))
        else Continue(Ends(rd.src, e.sink, buffer))
  }

  /** `AudioStream.Process(f)`: rounds until one stops. */
  function ProcessSpec(e: Ends, hasWriter: bool, capacity: Option<nat>, bitDepth: int, f: seq<real> -> Result<seq<real>>): (r: (Option<Error>, Ends))
    requires bitDepth > 0 && |e.buffer| > 0 && LengthPreserving(f)
    ensures |r.1.buffer| == |e.buffer|
    ensures !hasWriter ==> r.1.sink == e.sink
    ensures r.1.src.data == e.src.data && r.1.src.failsAtEnd == e.src.failsAtEnd && r.1.src.pos >= e.src.pos
    ensures r.0.None? && !e.src.failsAtEnd ==> Remaining(r.1.src) == 0
    decreases Remaining(e.src)
  {
    match ProcessStep(e, hasWriter, capacity, bitDepth, f)
    case Stop(err, e') => (err, e')
    case Continue(e') => ProcessSpec(e', hasWriter, capacity, bitDepth, f)
  }

  /** A round that goes on leaves the rest of Process to the next round. */
  lemma ProcessContinues(e: Ends, hasWriter: bool, capacity: Option<nat>, bitDepth: int, f: seq<real> -> Result<seq<real>>)
    requires bitDepth > 0 && |e.buffer| > 0 && LengthPreserving(f)
    requires ProcessStep(e, hasWriter, capacity, bitDepth, f).Continue?
    ensures ProcessSpec(e, hasWriter, capacity, bitDepth, f)
            == ProcessSpec(ProcessStep(e, hasWriter, capacity, bitDepth, f).ends, hasWriter, capacity, bitDepth, f)
  {
  }

  /** Process only ever appends to the sink: whatever it held before is a
      prefix of what it holds afterwards, on every path. */
  lemma {:induction false} ProcessAppendsOnly(e: Ends, hasWriter: bool, capacity: Option<nat>, bitDepth: int, f: seq<real> -> Result<seq<real>>)
    requires bitDepth > 0 && |e.buffer| > 0 && LengthPreserving(f)
    ensures e.sink <= ProcessSpec(e, hasWriter, capacity, bitDepth, f).1.sink
    decreases Remaining(e.src)
  {
    var st := ProcessStep(e, hasWriter, capacity, bitDepth, f);
    assert e.sink <= st.ends.sink;
    if st.Continue? {
      ProcessAppendsOnly(st.ends, hasWriter, capacity, bitDepth, f);
    }
  }

  /** With a source that ends cleanly, a transform that never fails and a
      sink (if any) that accepts everything, Process succeeds and consumes
      the whole source. */
  lemma {:induction false} ProcessCompletes(e: Ends, hasWriter: bool, capacity: Option<nat>, bitDepth: int, f: seq<real> -> Result<seq<real>>)
    requires bitDepth >= 8 && |e.buffer| > 0 && LengthPreserving(f)
    requires !e.src.failsAtEnd && (forall x :: f(x).Ok?) && capacity.None?
    ensures ProcessSpec(e, hasWriter, capacity, bitDepth, f).0.None?
    ensures Remaining(ProcessSpec(e, hasWriter, capacity, bitDepth, f).1.src) == 0
    decreases Remaining(e.src)
  {
    if Remaining(e.src) > 0 {
      ReadOutcomes(e.src, e.buffer, bitDepth);
      var st := ProcessStep(e, hasWriter, capacity, bitDepth, f);
      assert st.Continue?;
      ProcessCompletes(st.ends, hasWriter, capacity, bitDepth, f);
    }
  }

  /** One round with the identity transform and an unlimited sink, on a
      source with bytes left: it goes on with the samples it read, `chunk`,
      encoded onto the end of the sink, and those samples are the first
      samples of what was left in the source. */
  lemma IdentityStep(e: Ends, bitDepth: int, f: seq<real> -> Result<seq<real>>) returns (next: Ends, chunk: seq<real>)
    requires Supported(bitDepth) && |e.buffer| > 0 && Remaining(e.src) > 0
    requires forall x :: f(x) == Ok(x)
    ensures LengthPreserving(f)
    ensures |next.buffer| == |e.buffer| && next.src.failsAtEnd == e.src.failsAtEnd
    ensures Remaining(next.src) < Remaining(e.src)
    ensures ProcessStep(e, true, None, bitDepth, f) == Continue(next)
    ensures next.sink == e.sink + Encode(chunk, bitDepth)
    ensures StreamSamples(Rest(e.src), bitDepth) == chunk + StreamSamples(Rest(next.src), bitDepth)
  {
    ReadChunk(e.src, e.buffer, bitDepth);
    var rd := ReadSpec(e.src, e.buffer, bitDepth);
    chunk := rd.p[..rd.result.value];
    assert chunk + rd.p[rd.result.value..] == rd.p;
    next := Ends(rd.src, e.sink + Encode(chunk, bitDepth), rd.p);
  }

  /** With the identity transform and an unlimited sink, Process copies the
      source to the sink chunk by chunk, in order: the sink receives the
      re-encoding of every complete sample of the source. */
  lemma {:induction false} ProcessIdentityCopies(e: Ends, bitDepth: int, f: seq<real> -> Result<seq<real>>)
    requires Supported(bitDepth) && |e.buffer| > 0 && !e.src.failsAtEnd
    requires forall x :: f(x) == Ok(x)
    ensures LengthPreserving(f)
    ensures ProcessSpec(e, true, None, bitDepth, f).1.sink
            == e.sink + Encode(StreamSamples(Rest(e.src), bitDepth), bitDepth)
    decreases Remaining(e.src)
  {
    assert LengthPreserving(f);
    if Remaining(e.src) == 0 {
      ProcessAtEnd(e, true, None, bitDepth, f);
    } else {
      var next := IdentityRound(e, bitDepth, f);
      ProcessIdentityCopies(next, bitDepth, f);
    }
  }

  /** One identity round in the form the induction uses: Process goes on
      from `next`, and what is still to be copied moves from the source to
      the sink. */
  lemma IdentityRound(e: Ends, bitDepth: int, f: seq<real> -> Result<seq<real>>) returns (next: Ends)
    requires Supported(bitDepth) && |e.buffer| > 0 && Remaining(e.src) > 0
    requires forall x :: f(x) == Ok(x)
    ensures LengthPreserving(f)
    ensures |next.buffer| == |e.buffer| && !next.src.failsAtEnd == !e.src.failsAtEnd
    ensures Remaining(next.src) < Remaining(e.src)
    ensures ProcessSpec(e, true, None, bitDepth, f) == ProcessSpec(next, true, None, bitDepth, f)
    ensures e.sink + Encode(StreamSamples(Rest(e.src), bitDepth), bitDepth)
            == next.sink + Encode(StreamSamples(Rest(next.src), bitDepth), bitDepth)
  {
    var chunk;
    next, chunk := IdentityStep(e, bitDepth, f);
    var later := StreamSamples(Rest(next.src), bitDepth);
    ProcessContinues(e, true, None, bitDepth, f);
    EncodeOnto(e.sink, chunk, later, bitDepth);
  }

  /** Encoding two runs onto a sink one after the other is encoding their
      concatenation. */
  lemma EncodeOnto(sink: seq<byte>, a: seq<real>, b: seq<real>, bitDepth: int)
    requires Supported(bitDepth)
    ensures sink + Encode(a + b, bitDepth) == (sink + Encode(a, bitDepth)) + Encode(b, bitDepth)
  {
    EncodeAppend(a, b, bitDepth);
    assert sink + Encode(a, bitDepth) + Encode(b, bitDepth)
        == sink + (Encode(a, bitDepth) + Encode(b, bitDepth));
  }

  /** On a cleanly ending source with nothing left, Process stops at once
      and appends nothing; the source has no samples left either. */
  lemma ProcessAtEnd(e: Ends, hasWriter: bool, capacity: Option<nat>, bitDepth: int, f: seq<real> -> Result<seq<real>>)
    requires Supported(bitDepth) && |e.buffer| > 0 && LengthPreserving(f)
    requires Remaining(e.src) == 0 && !e.src.failsAtEnd
    ensures ProcessSpec(e, hasWriter, capacity, bitDepth, f) == (None, e)
    ensures e.sink + Encode(StreamSamples(Rest(e.src), bitDepth), bitDepth) == e.sink
  {
    assert Rest(e.src) == [];
    assert StreamSamples([], bitDepth) == [];
    assert e.sink + [] == e.sink;
  }

  /** A chunk of the source is read either whole (a multiple of the sample
      width) or as the last bytes there are, so decoding chunk by chunk is
      decoding the whole. */
  lemma ChunkSplit(rest: seq<byte>, taken: nat, bufferLen: nat, bitDepth: int)
    requires Supported(bitDepth) && taken == Min(bufferLen * Width(bitDepth), |rest|)
    ensures StreamSamples(rest, bitDepth) == StreamSamples(rest[..taken], bitDepth) + StreamSamples(rest[taken..], bitDepth)
  {
    assert rest == rest[..taken] + rest[taken..];
    if taken == bufferLen * Width(bitDepth) {
      MulDiv(bufferLen, Width(bitDepth));
      StreamSamplesAppend(rest[..taken], rest[taken..], bitDepth);
    } else {
      assert rest[taken..] == [];
      assert rest[..taken] == rest;
      assert StreamSamples([], bitDepth) == [];
    }
  }

  /** `ToSegment`'s read loop: the samples of every chunk appended to `acc`
      in arrival order, until end of input or an error. */
  function ToSegmentSpec(src: SourceState, buffer: seq<real>, acc: seq<real>, bitDepth: int): (r: (Result<seq<real>>, SourceState))
    requires bitDepth > 0 && |buffer| > 0
    ensures r.0.Ok? ==> Remaining(r.1) == 0 && !src.failsAtEnd
    ensures r.0.Err? ==> r.0.error == ReadFailed || r.0.error == RuntimePanic
    ensures r.1.data == src.data && r.1.failsAtEnd == src.failsAtEnd
    decreases Remaining(src)
  {
    var rd := ReadSpec(src, buffer, bitDepth);
    if rd.result == Err(Eof) then (Ok(acc), rd.src)
    else if rd.result.Err? then (Err(rd.result.error), rd.src)
    else ToSegmentSpec(rd.src, rd.p, acc + rd.p[..rd.result.value], bitDepth)
  }

  /** ToSegment's accumulator only grows at its end. */
  lemma {:induction false} ToSegmentKeepsPrefix(src: SourceState, buffer: seq<real>, acc: seq<real>, bitDepth: int)
    requires bitDepth > 0 && |buffer| > 0
    requires ToSegmentSpec(src, buffer, acc, bitDepth).0.Ok?
    ensures acc <= ToSegmentSpec(src, buffer, acc, bitDepth).0.value
    decreases Remaining(src)
  {
    ToSegmentUnfold(src, buffer, acc, bitDepth);
    var rd := ReadSpec(src, buffer, bitDepth);
    if rd.result.Ok? {
      var acc' := acc + rd.p[..rd.result.value];
      ToSegmentKeepsPrefix(rd.src, rd.p, acc', bitDepth);
      assert acc <= acc';
    }
  }

  /** From a source that ends cleanly, ToSegment collects exactly the
      samples of all complete sample groups left in it, in order. */
  lemma {:induction false} ToSegmentDecodesAll(src: SourceState, buffer: seq<real>, acc: seq<real>, bitDepth: int)
    requires Supported(bitDepth) && |buffer| > 0 && !src.failsAtEnd
    ensures ToSegmentSpec(src, buffer, acc, bitDepth).0 == Ok(acc + StreamSamples(Rest(src), bitDepth))
    decreases Remaining(src)
  {
    if Remaining(src) == 0 {
      ToSegmentAtEnd(src, buffer, acc, bitDepth);
    } else {
      var rd := ReadSpec(src, buffer, bitDepth);
      ReadChunk(src, buffer, bitDepth);
      var chunk := rd.p[..rd.result.value];
      var later := StreamSamples(Rest(rd.src), bitDepth);
      ToSegmentUnfold(src, buffer, acc, bitDepth);
      ToSegmentDecodesAll(rd.src, rd.p, acc + chunk, bitDepth);
      assert acc + chunk + later == acc + (chunk + later);
    }
  }

  lemma ToSegmentAtEnd(src: SourceState, buffer: seq<real>, acc: seq<real>, bitDepth: int)
    requires Supported(bitDepth) && |buffer| > 0 && !src.failsAtEnd && Remaining(src) == 0
    ensures ToSegmentSpec(src, buffer, acc, bitDepth).0 == Ok(acc + StreamSamples(Rest(src), bitDepth))
  {
    assert Rest(src) == [];
    assert StreamSamples([], bitDepth) == [];
    assert acc + [] == acc;
  }

  /** ToSegmentSpec unfolded by one read. */
  lemma ToSegmentUnfold(src: SourceState, buffer: seq<real>, acc: seq<real>, bitDepth: int)
    requires bitDepth > 0 && |buffer| > 0
    ensures var rd := ReadSpec(src, buffer, bitDepth);
            ToSegmentSpec(src, buffer, acc, bitDepth)
            == if rd.result == Err(Eof) then (Ok(acc), rd.src)
               else if rd.result.Err? then (Err(rd.result.error), rd.src)
               else ToSegmentSpec(rd.src, rd.p, acc + rd.p[..rd.result.value], bitDepth)
  {
  }

  /** One read from a source with bytes left: it succeeds, consumes a
      chunk, and the samples it yields followed by the samples of what is
      left are the samples of everything that was left before. */
  lemma ReadChunk(src: SourceState, p: seq<real>, bitDepth: int)
    requires Supported(bitDepth) && |p| > 0 && Remaining(src) > 0
    ensures var o := ReadSpec(src, p, bitDepth);
            o.result.Ok?
            && StreamSamples(Rest(src), bitDepth) == o.p[..o.result.value] + StreamSamples(Rest(o.src), bitDepth)
  {
    var w := Width(bitDepth);
    var o := ReadSpec(src, p, bitDepth);
    ReadOutcomes(src, p, bitDepth);
    ReadDecodes(src, p, bitDepth);
    var taken := Min(|p| * w, Remaining(src));
    assert src.data[src.pos .. src.pos + taken] == Rest(src)[..taken];
    assert Rest(o.src) == Rest(src)[taken..];
    ChunkSplit(Rest(src), taken, |p|, bitDepth);
  }

  /** A source with no complete sample in it yields no samples, so the
      ToSegment's final NewAudioSegment call fails with the empty-samples
      error. With an empty source this holds at every bit depth. */
  lemma ToSegmentOfShortSource(src: SourceState, bufferSize: nat, sampleRate: int, channels: int, bitDepth: int)
    requires bitDepth > 0 && bufferSize > 0 && !src.failsAtEnd
    requires Remaining(src) == 0 || (Supported(bitDepth) && Remaining(src) < Width(bitDepth))
    ensures ToSegmentSpec(src, seq(bufferSize, _ => 0.0), [], bitDepth).0 == Ok([])
    ensures NewAudioSegment([], sampleRate, channels, bitDepth) == Err(EmptySamples)
  {
    if Remaining(src) > 0 {
      ToSegmentDecodesAll(src, seq(bufferSize, _ => 0.0), [], bitDepth);
      assert |Rest(src)| / Width(bitDepth) == 0;
      assert [] + StreamSamples(Rest(src), bitDepth) == [];
    } else {
      ToSegmentUnfold(src, seq(bufferSize, _ => 0.0), [], bitDepth);
      ReadOutcomes(src, seq(bufferSize, _ => 0.0), bitDepth);
    }
  }

  // ---------------------------------------------------------------------
  // The stream object
  // ---------------------------------------------------------------------

  class AudioStream {
    const sampleRate: int
    const channels: int
    const bitDepth: int
    /** Capacity of the reusable buffer, in samples. */
    const bufferSize: int
    const reader: ByteSource?
    const writer: ByteSink?
    const buffer: array<real>

    predicate Valid()
    {
      ConfigError(reader != null, writer != null, sampleRate, channels, bitDepth, bufferSize).None?
      && buffer.Length == bufferSize
    }

    /** The sink's contents, or nothing when there is no writer. */
    function SinkBytes(): seq<byte>
      reads writer
    {
      if writer == null then [] else writer.written
    }

    function SinkCapacity(): Option<nat>
    {
      if writer == null then None else writer.capacity
    }

    /** The struct literal of NewAudioStream, after its checks passed. */
    constructor (reader: ByteSource?, writer: ByteSink?, sampleRate: int, channels: int, bitDepth: int, bufferSize: int)
      requires ConfigError(reader != null, writer != null, sampleRate, channels, bitDepth, bufferSize).None?
      ensures Valid()
      ensures this.reader == reader && this.writer == writer
      ensures this.sampleRate == sampleRate && this.channels == channels
      ensures this.bitDepth == bitDepth && this.bufferSize == bufferSize
      ensures fresh(buffer) && buffer[..] == seq(bufferSize, _ => 0.0)
    {
      this.sampleRate := sampleRate;
      this.channels := channels;
      this.bitDepth := bitDepth;
      this.bufferSize := bufferSize;
      this.reader := reader;
      this.writer := writer;
      buffer := new real[bufferSize](_ => 0.0);
    }

    method Read(p: array<real>) returns (r: Result<nat>)
      requires Valid()
      modifies p, reader
      ensures reader == null ==> r == Err(NotReadable) && p[..] == old(p[..])
      ensures reader != null ==>
                var o := ReadSpec(old(reader.state), old(p[..]), bitDepth);
                r == o.result && reader.state == o.src && p[..] == o.p
    {
      if reader == null {
        return Err(NotReadable);
      }
      var bytesPerSample := GoDiv(bitDepth, 8);
      var bytes := reader.Read(p.Length * bytesPerSample);
      if bytes.Err? {
        return Err(bytes.error);
      }
      if bytesPerSample == 0 {
        return Err(RuntimePanic);
      }
      var samplesRead := |bytes.value| / bytesPerSample;
      DivBound(|bytes.value|, p.Length, bytesPerSample);
      DecodeSamples(p, bytes.value, samplesRead, bitDepth);
      return Ok(samplesRead);
    }

    method Write(p: seq<real>) returns (r: Result<nat>)
      requires Valid()
      modifies writer
      ensures writer == null ==> r == Err(NotWritable)
      ensures writer != null ==> (r, writer.written) == WriteSpec(old(writer.written), writer.capacity, p, bitDepth)
    {
      if writer == null {
        return Err(NotWritable);
      }
      var bytesPerSample := GoDiv(bitDepth, 8);
      var bytes := EncodeSamples(p, bitDepth);
      var n := writer.Write(bytes[..]);
      if n.Err? {
        return Err(n.error);
      }
      if bytesPerSample == 0 {
        return Err(RuntimePanic);
      }
      MulDiv(|p|, bytesPerSample);
      return Ok(n.value / bytesPerSample);
    }

    method Process(f: seq<real> -> Result<seq<real>>) returns (err: Option<Error>)
      requires Valid() && LengthPreserving(f)
      modifies reader, writer, buffer
      ensures reader == null ==> err == Some(NotReadable) && SinkBytes() == old(SinkBytes()) && buffer[..] == old(buffer[..])
      ensures reader != null ==>
                var o := ProcessSpec(Ends(old(reader.state), old(SinkBytes()), old(buffer[..])), writer != null, SinkCapacity(), bitDepth, f);
                err == o.0 && reader.state == o.1.src && SinkBytes() == o.1.sink && buffer[..] == o.1.buffer
    {
      if reader == null {
        return Some(NotReadable);
      }
      ghost var spec := ProcessSpec(Ends(reader.state, SinkBytes(), buffer[..]), writer != null, SinkCapacity(), bitDepth, f);
      while true
        invariant ProcessSpec(Ends(reader.state, SinkBytes(), buffer[..]), writer != null, SinkCapacity(), bitDepth, f) == spec
        decreases Remaining(reader.state)
      {
        ghost var before := Ends(reader.state, SinkBytes(), buffer[..]);
        var stop, e := Round(f);
        if stop {
          return e;
        }
        ProcessContinues(before, writer != null, SinkCapacity(), bitDepth, f);
      }
    }

    /** One pass of Process's loop body; `stop` says whether the loop
        returns, with `err`. */
    method Round(f: seq<real> -> Result<seq<real>>) returns (stop: bool, err: Option<Error>)
      requires Valid() && LengthPreserving(f) && reader != null
      modifies reader, writer, buffer
      ensures var st := ProcessStep(Ends(old(reader.state), old(SinkBytes()), old(buffer[..])), writer != null, SinkCapacity(), bitDepth, f);
              Ends(reader.state, SinkBytes(), buffer[..]) == st.ends
              && (stop <==> st.Stop?) && (stop ==> err == st.err)
    {
      ghost var before := Ends(reader.state, SinkBytes(), buffer[..]);
      ghost var rd := ReadSpec(before.src, before.buffer, bitDepth);
      ReadOutcomes(before.src, before.buffer, bitDepth);
      var n := Read(buffer);
      if n == Err(Eof) {
        return true, None;
      }
      if n.Err? {
        return true, Some(n.error);
      }
      var out := f(buffer[..n.value]);
      if out.Err? {
        return true, Some(out.error);
      }
      forall j | 0 <= j < n.value {
        buffer[j] := out.value[j];
      }
      assert buffer[..] == out.value + rd.p[n.value..];
      if writer != null {
        var m := Write(buffer[..n.value]);
        assert buffer[..n.value] == out.value;
        if m.Err? {
          return true, Some(m.error);
        }
      }
      return false, None;
    }

    method ToSegment() returns (r: Result<AudioSegment>)
      requires Valid()
      modifies reader
      ensures reader == null ==> r == Err(NotReadable)
      ensures reader != null ==>
                var o := ToSegmentSpec(old(reader.state), seq(bufferSize, _ => 0.0), [], bitDepth);
                reader.state == o.1
                && r == (if o.0.Err? then Err(o.0.error) else NewAudioSegment(o.0.value, sampleRate, channels, bitDepth))
    {
      if reader == null {
        return Err(NotReadable);
      }
      var samples: seq<real> := [];
      var buf := new real[bufferSize](_ => 0.0);
      assert buf[..] == seq(bufferSize, _ => 0.0);
      ghost var spec := ToSegmentSpec(reader.state, buf[..], samples, bitDepth);
      while true
        invariant fresh(buf) && buf.Length == bufferSize
        invariant ToSegmentSpec(reader.state, buf[..], samples, bitDepth) == spec
        decreases Remaining(reader.state)
      {
        ToSegmentUnfold(reader.state, buf[..], samples, bitDepth);
        var n := Read(buf);
        if n == Err(Eof) {
          return NewAudioSegment(samples, sampleRate, channels, bitDepth);
        }
        if n.Err? {
          return Err(n.error);
        }
        samples := samples + buf[..n.value];
      }
    }
  }

  /** The decode loop of Read: sample i of `bytes` into p[i], for the
      `count` complete samples read; a bit depth without a codec case
      writes nothing. */
  method DecodeSamples(p: array<real>, bytes: seq<byte>, count: nat, bitDepth: int)
    requires bitDepth >= 8 && count == |bytes| / BytesPerSample(bitDepth) <= p.Length
    modifies p
    ensures Supported(bitDepth) ==> p[..] == StreamSamples(bytes, bitDepth) + old(p[..])[count..]
    ensures !Supported(bitDepth) ==> p[..] == old(p[..])
  {
    var i := 0;
    while i < count
      invariant 0 <= i <= count
      invariant forall j :: i <= j < p.Length ==> p[j] == old(p[j])
      invariant Supported(bitDepth) ==> forall j :: 0 <= j < i ==> p[j] == StreamSamples(bytes, bitDepth)[j]
      invariant !Supported(bitDepth) ==> p[..] == old(p[..])
    {
      if Supported(bitDepth) {
        p[i] := StreamValue(Unpack(Group(bytes, i, bitDepth), bitDepth), bitDepth);
      }
      i := i + 1;
    }
    if Supported(bitDepth) {
      assert p[..] == StreamSamples(bytes, bitDepth) + old(p[..])[count..];
    }
  }

  /** The encode loop of Write: a zeroed buffer of `len(p) *
      bytesPerSample` bytes, sample i stored at offset i * bytesPerSample. */
  method EncodeSamples(p: seq<real>, bitDepth: int) returns (bytes: array<byte>)
    requires bitDepth > 0
    ensures fresh(bytes) && bytes[..] == StreamBytes(p, bitDepth)
  {
    var bytesPerSample := GoDiv(bitDepth, 8);
    MulNonneg(|p|, bytesPerSample);
    bytes := new byte[|p| * bytesPerSample](_ => 0);
    var i := 0;
    while i < |p|
      invariant 0 <= i <= |p|
      invariant Supported(bitDepth) ==> 0 <= i * bytesPerSample <= bytes.Length
      invariant Supported(bitDepth) ==> bytes[..i * bytesPerSample] == StreamBytes(p[..i], bitDepth)
      invariant !Supported(bitDepth) ==> bytes[..] == StreamBytes(p, bitDepth)
    {
      if Supported(bitDepth) {
        var intSample := Quantize(p[i], bitDepth);
        MulStep(i, |p|, bytesPerSample);
        ghost var before := bytes[..];
        PutSample(bytes, i * bytesPerSample, intSample, bitDepth);
        EncodeStep(before, bytes[..], p, i, bitDepth);
      }
      i := i + 1;
    }
    if Supported(bitDepth) {
      assert p[..|p|] == p;
      assert bytes[..] == bytes[..|p| * bytesPerSample];
    }
  }

  /** Storing sample i after the encoding of the samples before it
      extends that encoding by one sample. */
  lemma EncodeStep(before: seq<byte>, after: seq<byte>, p: seq<real>, i: int, bitDepth: int)
    requires Supported(bitDepth) && 0 <= i < |p|
    requires 0 <= i * Width(bitDepth) && i * Width(bitDepth) + Width(bitDepth) <= |before|
    requires before[..i * Width(bitDepth)] == StreamBytes(p[..i], bitDepth)
    requires after == before[..i * Width(bitDepth)] + Pack(Quantize(p[i], bitDepth), bitDepth) + before[i * Width(bitDepth) + Width(bitDepth)..]
    ensures (i + 1) * Width(bitDepth) == i * Width(bitDepth) + Width(bitDepth)
    ensures after[..(i + 1) * Width(bitDepth)] == StreamBytes(p[..i + 1], bitDepth)
  {
    var w := Width(bitDepth);
    MulStep(i, |p|, w);
    assert p[..i + 1][..i] == p[..i];
    EncodeSnoc(p[..i + 1], bitDepth);
    assert after[..i * w + w] == before[..i * w] + Pack(Quantize(p[i], bitDepth), bitDepth);
  }

  /** Stores one quantized sample at `off` in the codec's layout: the
      8-bit byte `v + 128`, or the low bytes of `v` low byte first. */
  method PutSample(bytes: array<byte>, off: int, v: int, bitDepth: int)
    requires Supported(bitDepth) && 0 <= off && off + Width(bitDepth) <= bytes.Length
    requires -MaxSample(bitDepth) <= v <= MaxSample(bitDepth)
    modifies bytes
    ensures bytes[..] == old(bytes[..off]) + Pack(v, bitDepth) + old(bytes[off + Width(bitDepth)..])
  {
    if bitDepth == 8 {
      bytes[off] := (v + 128) % 0x100;
    } else if bitDepth == 16 {
      bytes[off] := v % 0x100;
      bytes[off + 1] := (v / 0x100) % 0x100;
    } else if bitDepth == 24 {
      bytes[off] := v % 0x100;
      bytes[off + 1] := (v / 0x100) % 0x100;
      bytes[off + 2] := (v / 0x1_0000) % 0x100;
      assert Le24(v) == [v % 0x100, (v / 0x100) % 0x100, (v / 0x1_0000) % 0x100] by {
        assert (v / 0x100) / 0x100 == v / 0x1_0000;
      }
    } else {
      bytes[off] := v % 0x100;
      bytes[off + 1] := (v / 0x100) % 0x100;
      bytes[off + 2] := (v / 0x1_0000) % 0x100;
      bytes[off + 3] := (v / 0x100_0000) % 0x100;
      Le32Bytes(v);
    }
  }

  /** NewAudioStream: the checks in order, then a stream whose fields are
      the arguments and whose buffer holds `bufferSize` zero samples. */
  method NewAudioStream(reader: ByteSource?, writer: ByteSink?, sampleRate: int, channels: int, bitDepth: int, bufferSize: int)
    returns (s: AudioStream?, err: Option<Error>)
    ensures err == ConfigError(reader != null, writer != null, sampleRate, channels, bitDepth, bufferSize)
    ensures s != null <==> err.None?
    ensures s != null ==> fresh(s) && fresh(s.buffer) && s.Valid()
                          && s.reader == reader && s.writer == writer
                          && s.sampleRate == sampleRate && s.channels == channels
                          && s.bitDepth == bitDepth && s.bufferSize == bufferSize
                          && s.buffer[..] == seq(bufferSize, _ => 0.0)
  {
    err := ConfigError(reader != null, writer != null, sampleRate, channels, bitDepth, bufferSize);
    if err.Some? {
      return null, err;
    }
    s := new AudioStream(reader, writer, sampleRate, channels, bitDepth, bufferSize);
  }

  /** FromSegment: a nil segment is refused; otherwise a write-only stream
      with the segment's parameters is built and all of the segment's
      samples are written to it once. */
  method FromSegment(segment: Option<AudioSegment>, writer: ByteSink?, bufferSize: int)
    returns (s: AudioStream?, err: Option<Error>)
    modifies writer
    ensures segment.None? ==> err == Some(NilSegment) && s == null && (writer != null ==> unchanged(writer))
    ensures segment.Some? ==>
              var a := segment.value;
              var c := ConfigError(false, writer != null, a.SampleRate(), a.Channels(), a.BitDepth(), bufferSize);
              (c.Some? ==> err == c && s == null && (writer != null ==> unchanged(writer)))
              && (c.None? ==>
                    var w := WriteSpec(old(writer.written), writer.capacity, a.Samples(), a.BitDepth());
                    writer.written == w.1
                    && (w.0.Err? ==> err == Some(w.0.error) && s == null)
                    && (w.0.Ok? ==> err.None? && s != null && fresh(s) && s.Valid()
                                    && s.reader == null && s.writer == writer && s.bitDepth == a.BitDepth()
                                    && s.sampleRate == a.SampleRate() && s.channels == a.Channels()
                                    && s.bufferSize == bufferSize))
  {
    if segment.None? {
      return null, Some(NilSegment);
    }
    var a := segment.value;
    var stream, e := NewAudioStream(null, writer, a.SampleRate(), a.Channels(), a.BitDepth(), bufferSize);
    if e.Some? {
      return null, e;
    }
    var n := stream.Write(a.Samples());
    if n.Err? {
      return null, Some(n.error);
    }
    return stream, None;
  }
}
