/** The in-process part of pkg/converter/converter.go. SaveAudioFile checks
    the bit depth and writes a WAV image (header, then data) to a temporary
    file before handing it to ffmpeg. LoadAudioFile, once ffmpeg has made a
    WAV file, decodes that file's bytes into samples. The file is a byte
    sink on the writing side and a byte sequence on the reading side. */
module Converter {
  import opened Base
  import opened ByteIO
  import opened LittleEndian
  import opened Pcm
  import opened Wav
  import WavWriter

  // ---------------------------------------------------------------------
  // SaveAudioFile
  // ---------------------------------------------------------------------

  /** The bit-depth switch at the top of SaveAudioFile. */
  function BitDepthCheck(bitDepth: int): (r: Option<Error>)
    ensures r.None? <==> Supported(bitDepth)
    ensures r.Some? ==> r.value == UnsupportedBitDepth(bitDepth)
  {
    if bitDepth == 8 || bitDepth == 16 || bitDepth == 24 || bitDepth == 32 then None
    else Some(UnsupportedBitDepth(bitDepth))
  }

  /** `dataSize := len(samples) * bitDepth / 8`. */
  function DataSize(count: nat, bitDepth: int): int
  {
    GoDiv(count * bitDepth, 8)
  }

  /** What SaveAudioFile writes into the temporary file `f`, which holds
      `written` when it starts (empty once created): nothing when the depth
      is refused, else the header, then the data unless the header write
      failed. Failures are wrapped as the source wraps them. */
  function SaveWavSpec(written: seq<byte>, capacity: Option<nat>, samples: seq<real>,
                       sampleRate: int, channels: int, bitDepth: int): (r: (Option<Error>, seq<byte>))
    requires InRange(samples)
    ensures written <= r.1
    ensures !Supported(bitDepth) ==> r == (Some(UnsupportedBitDepth(bitDepth)), written)
    ensures Supported(bitDepth) && r.0.Some? ==>
              r.0.value == HeaderWriteFailed(ShortWrite) || r.0.value == DataWriteFailed(ShortWrite)
    ensures r.0 == Some(HeaderWriteFailed(ShortWrite)) ==> |r.1| < |written| + 44
  {
    if BitDepthCheck(bitDepth).Some? then (BitDepthCheck(bitDepth), written)
    else
      var header := Serialize(BuildHeader(sampleRate, channels, bitDepth, DataSize(|samples|, bitDepth)));
      var st := SinkWrite(written, capacity, header);
      if st.0.Err? then (Some(HeaderWriteFailed(st.0.error)), st.1)
      else
        var d := WriteDataSpec(st.1, capacity, samples, bitDepth);
        (if d.0.Some? then Some(DataWriteFailed(d.0.value)) else None, d.1)
  }

  /** SaveAudioFile up to the point where the WAV image is complete. */
  method SaveWav(samples: seq<real>, sampleRate: int, channels: int, bitDepth: int, f: ByteSink)
    returns (err: Option<Error>)
    requires InRange(samples)
    modifies f
    ensures (err, f.written) == SaveWavSpec(old(f.written), f.capacity, samples, sampleRate, channels, bitDepth)
  {
    if !(bitDepth == 8 || bitDepth == 16 || bitDepth == 24 || bitDepth == 32) {
      return Some(UnsupportedBitDepth(bitDepth));
    }
    var dataSize := GoDiv(|samples| * bitDepth, 8);
    var e := WriteWavHeader(f, sampleRate, channels, bitDepth, dataSize);
    if e.Some? {
      return Some(HeaderWriteFailed(e.value));
    }
    e := WriteWavData(f, samples, bitDepth);
    if e.Some? {
      return Some(DataWriteFailed(e.value));
    }
    return None;
  }

  /** The declared data size is the true one: at a supported depth the
      file SaveAudioFile writes is the canonical header announcing exactly
      the length of the data, then the data. The file receives a prefix of
      it, all of it with no error exactly when there is room; a header that
      does not fit fails the header write, and after it only the data write
      can fail. A refused depth writes nothing. */
  lemma SaveWavOutcome(written: seq<byte>, capacity: Option<nat>, samples: seq<real>,
                       sampleRate: int, channels: int, bitDepth: int)
    requires InRange(samples) && (capacity.None? || |written| <= capacity.value)
    ensures !Supported(bitDepth) ==>
              SaveWavSpec(written, capacity, samples, sampleRate, channels, bitDepth)
              == (Some(UnsupportedBitDepth(bitDepth)), written)
    ensures Supported(bitDepth) ==>
              var r := SaveWavSpec(written, capacity, samples, sampleRate, channels, bitDepth);
              var data := WavDataBytes(samples, bitDepth);
              var file := WavWriter.CanonicalHeader(sampleRate, channels, bitDepth, |data|) + data;
              r.1 == written + file[..Accepted(|written|, capacity, |file|)]
              && (r.0.None? <==> capacity.None? || |written| + |file| <= capacity.value)
              && (r.0.Some? && capacity.Some? && |written| + 44 > capacity.value ==> r.0.value == HeaderWriteFailed(ShortWrite))
              && (r.0.Some? && (capacity.None? || |written| + 44 <= capacity.value) ==> r.0.value == DataWriteFailed(ShortWrite))
  {
    if Supported(bitDepth) {
      var data := WavDataBytes(samples, bitDepth);
      WavDataLength(samples, bitDepth);
      HeadersAgree(sampleRate, channels, bitDepth, |data|);
      var header := WavWriter.CanonicalHeader(sampleRate, channels, bitDepth, |data|);
      HeaderThenDataOutcome(written, capacity, header, samples, bitDepth);
    }
  }

  /** The header write followed by writeWAVData, for any header. */
  lemma HeaderThenDataOutcome(written: seq<byte>, capacity: Option<nat>, header: seq<byte>, samples: seq<real>, bitDepth: int)
    requires InRange(samples) && (capacity.None? || |written| <= capacity.value)
    ensures var st := SinkWrite(written, capacity, header);
            var r := if st.0.Err? then (Some(HeaderWriteFailed(st.0.error)), st.1)
                     else var d := WriteDataSpec(st.1, capacity, samples, bitDepth);
                          (if d.0.Some? then Some(DataWriteFailed(d.0.value)) else None, d.1);
            var file := header + WavDataBytes(samples, bitDepth);
            r.1 == written + file[..Accepted(|written|, capacity, |file|)]
            && (r.0.None? <==> capacity.None? || |written| + |file| <= capacity.value)
            && (r.0.Some? && capacity.Some? && |written| + |header| > capacity.value ==> r.0.value == HeaderWriteFailed(ShortWrite))
            && (r.0.Some? && (capacity.None? || |written| + |header| <= capacity.value) ==> r.0.value == DataWriteFailed(ShortWrite))
  {
    var data := WavDataBytes(samples, bitDepth);
    var st := SinkWrite(written, capacity, header);
    if st.0.Err? {
      AcceptedShort(|written|, capacity, |header|, |header| + |data|);
      PrefixOfConcat(header, data, Accepted(|written|, capacity, |header|));
    } else {
      DataAfterHeader(written, capacity, header, samples, bitDepth);
    }
  }

  /** The data writes after a header write that fit. */
  lemma DataAfterHeader(written: seq<byte>, capacity: Option<nat>, header: seq<byte>, samples: seq<real>, bitDepth: int)
    requires InRange(samples) && (capacity.None? || |written| + |header| <= capacity.value)
    ensures var d := WriteDataSpec(written + header, capacity, samples, bitDepth);
            var file := header + WavDataBytes(samples, bitDepth);
            d.1 == written + file[..Accepted(|written|, capacity, |file|)]
            && (d.0.None? <==> capacity.None? || |written| + |file| <= capacity.value)
            && (d.0.Some? ==> d.0.value == ShortWrite)
  {
    var data := WavDataBytes(samples, bitDepth);
    var file := header + data;
    var held := written + header;
    WriteDataOutcome(held, capacity, samples, bitDepth);
    var m := Accepted(|held|, capacity, |data|);
    AcceptedSplit(|written|, capacity, |header|, |data|);
    assert Accepted(|written|, capacity, |file|) == |header| + m;
    PrefixOfConcat(header, data, |header| + m);
    assert file[..|header| + m] == header + data[..m];
    assert held + data[..m] == written + (header + data[..m]);
  }

  // ---------------------------------------------------------------------
  // The decode loop of LoadAudioFile
  // ---------------------------------------------------------------------

  /** The samples of the complete byte groups of `data`, each divided by
      2^(bitDepth-1). */
  function FileSamples(data: seq<byte>, bitDepth: int): (ss: seq<real>)
    requires Supported(bitDepth)
    ensures |ss| == |data| / Width(bitDepth)
    ensures forall i :: 0 <= i < |ss| ==> ss[i] == FileValue(DecodeInts(data, bitDepth)[i], bitDepth)
  {
    var vs := DecodeInts(data, bitDepth);
    seq(|vs|, i requires 0 <= i < |vs| => FileValue(vs[i], bitDepth))
  }

  /** Every decoded sample lies in [-1, 1). */
  lemma FileSamplesRange(data: seq<byte>, bitDepth: int)
    requires Supported(bitDepth)
    ensures forall i :: 0 <= i < |FileSamples(data, bitDepth)| ==> -1.0 <= FileSamples(data, bitDepth)[i] < 1.0
  {
    var vs := DecodeInts(data, bitDepth);
    forall i | 0 <= i < |vs| ensures -1.0 <= FileValue(vs[i], bitDepth) < 1.0 {
      assert MinSample(bitDepth) <= vs[i] <= MaxSample(bitDepth);
    }
  }

  /** LoadAudioFile from the point where the file's bytes are in `data`:
      `bytesPerSample := bitDepth / 8` (a zero divisor panics), then
      `make([]float64, len(data)/bytesPerSample)` (a negative length
      panics), then the decode loop, whose switch refuses other depths as
      soon as there is a sample to decode. */
  function LoadSamples(data: seq<byte>, bitDepth: int): (r: Result<seq<real>>)
    ensures GoDiv(bitDepth, 8) == 0 ==> r == Err(RuntimePanic)
    ensures Supported(bitDepth) ==> r == Ok(FileSamples(data, bitDepth))
    ensures bitDepth >= 8 && !Supported(bitDepth) ==>
              (r == Ok([]) <==> |data| < GoDiv(bitDepth, 8))
              && (r.Err? <==> |data| >= GoDiv(bitDepth, 8))
              && (r.Err? ==> r.error == UnsupportedBitDepth(bitDepth))
    ensures r.Err? ==> r.error == RuntimePanic || r.error == UnsupportedBitDepth(bitDepth)
  {
    var bytesPerSample := GoDiv(bitDepth, 8);
    if bytesPerSample == 0 then Err(RuntimePanic)
    else
      var count := GoDiv(|data|, bytesPerSample);
      assert bytesPerSample > 0 ==> (count > 0 <==> |data| >= bytesPerSample) by {
        if bytesPerSample > 0 {
          DivPositive(|data|, bytesPerSample);
        }
      }
      if count < 0 then Err(RuntimePanic)
      else if count == 0 then Ok([])
      else if !Supported(bitDepth) then Err(UnsupportedBitDepth(bitDepth))
      else Ok(FileSamples(data, bitDepth))
  }

  lemma DivPositive(n: nat, d: int)
    requires d > 0
    ensures n / d > 0 <==> n >= d
  {
    if n >= d {
      assert n / d >= 1 by {
        assert d * (n / d) + n % d == n;
      }
    }
  }

  /** The decode loop over a preallocated sample slice. */
  method DecodeWavData(data: seq<byte>, bitDepth: int) returns (r: Result<seq<real>>)
    ensures r == LoadSamples(data, bitDepth)
  {
    var bytesPerSample := GoDiv(bitDepth, 8);
    if bytesPerSample == 0 {
      return Err(RuntimePanic);
    }
    var count := GoDiv(|data|, bytesPerSample);
    LoadSamplesCases(data, bitDepth, bytesPerSample, count);
    if count < 0 {
      return Err(RuntimePanic);
    }
    var samples := new real[count];
    for i := 0 to count
      invariant i > 0 ==> Supported(bitDepth)
      invariant Supported(bitDepth) ==> samples[..i] == FileSamples(data, bitDepth)[..i]
    {
      if !(bitDepth == 8 || bitDepth == 16 || bitDepth == 24 || bitDepth == 32) {
        return Err(UnsupportedBitDepth(bitDepth));
      }
      samples[i] := DecodeSample(data, i, bitDepth);
      assert samples[..i + 1] == samples[..i] + [samples[i]];
    }
    if Supported(bitDepth) {
      assert samples[..] == samples[..count];
      assert FileSamples(data, bitDepth)[..count] == FileSamples(data, bitDepth);
    } else {
      assert samples[..] == [];
    }
    return Ok(samples[..]);
  }

  /** The outcomes of LoadSamples once the divisor is known to be nonzero. */
  lemma LoadSamplesCases(data: seq<byte>, bitDepth: int, bytesPerSample: int, count: int)
    requires bytesPerSample == GoDiv(bitDepth, 8) != 0 && count == GoDiv(|data|, bytesPerSample)
    ensures count < 0 ==> LoadSamples(data, bitDepth) == Err(RuntimePanic)
    ensures count == 0 ==> LoadSamples(data, bitDepth) == Ok([])
    ensures count > 0 && !Supported(bitDepth) ==> LoadSamples(data, bitDepth) == Err(UnsupportedBitDepth(bitDepth))
    ensures Supported(bitDepth) ==> count == |FileSamples(data, bitDepth)|
                                    && LoadSamples(data, bitDepth) == Ok(FileSamples(data, bitDepth))
  {
  }

  /** One case of the decode switch: sample i from its byte group. */
  method DecodeSample(data: seq<byte>, i: nat, bitDepth: int) returns (x: real)
    requires Supported(bitDepth) && i < |data| / Width(bitDepth)
    ensures x == FileSamples(data, bitDepth)[i]
  {
    var sample := Unpack(Group(data, i, bitDepth), bitDepth);
    if bitDepth == 8 {
      x := sample as real / 128.0;
    } else if bitDepth == 16 {
      x := sample as real / 32768.0;
    } else if bitDepth == 24 {
      x := sample as real / 8388608.0;
    } else {
      x := sample as real / 2147483648.0;
    }
  }

  /** Trailing bytes that do not fill a sample are ignored. */
  lemma LoadIgnoresRemainder(data: seq<byte>, bitDepth: int)
    requires Supported(bitDepth)
    ensures var k := |data| / Width(bitDepth) * Width(bitDepth);
            0 <= k <= |data| && LoadSamples(data, bitDepth) == LoadSamples(data[..k], bitDepth)
  {
    var w := Width(bitDepth);
    var k := |data| / w * w;
    assert w * (|data| / w) + |data| % w == |data|;
    MulDiv(|data| / w, w);
    IntsIgnoreRemainder(data, k, bitDepth);
    var vs := FileSamples(data, bitDepth);
    assert vs == FileSamples(data[..k], bitDepth);
  }

  lemma IntsIgnoreRemainder(data: seq<byte>, k: nat, bitDepth: int)
    requires Supported(bitDepth) && k <= |data| && k % Width(bitDepth) == 0 && |data| - k < Width(bitDepth)
    ensures DecodeInts(data, bitDepth) == DecodeInts(data[..k], bitDepth)
  {
    var a, b := data[..k], data[k..];
    assert data == a + b;
    DecodeIntsAppend(a, b, bitDepth);
    assert DecodeInts(b, bitDepth) == [];
  }

  /** Decoding splits at a sample boundary. */
  lemma FileSamplesAppend(a: seq<byte>, b: seq<byte>, bitDepth: int)
    requires Supported(bitDepth) && |a| % Width(bitDepth) == 0
    ensures FileSamples(a + b, bitDepth) == FileSamples(a, bitDepth) + FileSamples(b, bitDepth)
  {
    DecodeIntsAppend(a, b, bitDepth);
    var l, r := FileSamples(a + b, bitDepth), FileSamples(a, bitDepth) + FileSamples(b, bitDepth);
    assert |l| == |r|;
    forall i | 0 <= i < |l| ensures l[i] == r[i] {
      if i >= |FileSamples(a, bitDepth)| {
        assert r[i] == FileSamples(b, bitDepth)[i - |FileSamples(a, bitDepth)|];
      }
    }
  }

  // ---------------------------------------------------------------------
  // The header is decoded as audio
  // ---------------------------------------------------------------------

  /** LoadAudioFile decodes the whole file, so the 44 header bytes come
      first in the samples: 44, 22 or 11 spurious samples at 8, 16 or 32
      bits, before those of the data chunk. */
  lemma HeaderDecodedAsSamples(header: seq<byte>, data: seq<byte>, bitDepth: int)
    requires Supported(bitDepth) && bitDepth != 24 && |header| == 44
    ensures LoadSamples(header + data, bitDepth) == Ok(FileSamples(header, bitDepth) + FileSamples(data, bitDepth))
    ensures |FileSamples(header, bitDepth)| == 44 / Width(bitDepth) > 0
  {
    FileSamplesAppend(header, data, bitDepth);
  }

  /** At 24 bits 44 is not a multiple of 3: the header gives 14 whole
      samples, the fifteenth joins header bytes 42 and 43 with the first
      data byte, and every data sample after it starts two bytes early. */
  lemma HeaderMisaligns24(header: seq<byte>, data: seq<byte>)
    requires |header| == 44
    ensures LoadSamples(header + data, 24)
            == Ok(FileSamples(header[..42], 24) + FileSamples(header[42..] + data, 24))
    ensures |FileSamples(header[..42], 24)| == 14
  {
    assert header + data == header[..42] + (header[42..] + data);
    FileSamplesAppend(header[..42], header[42..] + data, 24);
  }

  /** In every 16-bit file the first decoded sample is the letters "RI"
      of the RIFF tag read as the number 18770, and the samples of the data
      come only after 22 of the header's. */
  lemma HeaderSampleExample(sampleRate: int, channels: int, data: seq<byte>)
    ensures var file := WavWriter.CanonicalHeader(sampleRate, channels, 16, |data|) + data;
            var r := LoadSamples(file, 16);
            r.Ok? && |r.value| == 22 + |data| / 2 && r.value[0] == 18770.0 / 32768.0
            && r.value[22..] == FileSamples(data, 16)
  {
    var header := WavWriter.CanonicalHeader(sampleRate, channels, 16, |data|);
    HeaderDecodedAsSamples(header, data, 16);
    WavWriter.HeaderSlices(sampleRate, channels, 16, |data|);
    FirstHeaderSample(header);
  }

  lemma FirstHeaderSample(header: seq<byte>)
    requires |header| == 44 && header[0..4] == Ascii("RIFF")
    ensures FileSamples(header, 16)[0] == 18770.0 / 32768.0
  {
    assert Group(header, 0, 16) == header[0..2] == [82, 73];
    assert U16([82, 73]) == 18770;
  }

  /** The evidently intended decode: the samples of the data chunk that
      follows the 44-byte header. */
  function LoadDataSamples(file: seq<byte>, bitDepth: int): (r: Result<seq<real>>)
    ensures |file| >= 44 ==> r == LoadSamples(file[44..], bitDepth)
    ensures |file| < 44 ==> r == Err(HeaderReadFailed)
  {
    if |file| < 44 then Err(HeaderReadFailed) else LoadSamples(file[44..], bitDepth)
  }

  /** Saving samples and decoding the data chunk gives back one value per
      sample, each within two quantization steps of the original. */
  lemma SaveLoadRoundTrip(samples: seq<real>, sampleRate: int, channels: int, bitDepth: int)
    requires InRange(samples) && Supported(bitDepth)
    ensures var file := SaveWavSpec([], None, samples, sampleRate, channels, bitDepth).1;
            var r := LoadDataSamples(file, bitDepth);
            r.Ok? && |r.value| == |samples|
            && forall i :: 0 <= i < |samples| ==> WithinTwoSteps(r.value[i], samples[i], bitDepth)
  {
    SavedDataChunk(samples, sampleRate, channels, bitDepth);
    DataRoundTrip(samples, bitDepth);
  }

  /** The data chunk of a saved file is the data writeWAVData emitted. */
  lemma SavedDataChunk(samples: seq<real>, sampleRate: int, channels: int, bitDepth: int)
    requires InRange(samples) && Supported(bitDepth)
    ensures var file := SaveWavSpec([], None, samples, sampleRate, channels, bitDepth).1;
            LoadDataSamples(file, bitDepth) == Ok(FileSamples(WavDataBytes(samples, bitDepth), bitDepth))
  {
    var data := WavDataBytes(samples, bitDepth);
    SaveWavOutcome([], None, samples, sampleRate, channels, bitDepth);
    var header := WavWriter.CanonicalHeader(sampleRate, channels, bitDepth, |data|);
    var file := header + data;
    assert file[..|file|] == file;
    var saved := SaveWavSpec([], None, samples, sampleRate, channels, bitDepth).1;
    assert saved == file;
    DataChunkOf(saved, header, data, bitDepth);
  }

  lemma DataChunkOf(file: seq<byte>, header: seq<byte>, data: seq<byte>, bitDepth: int)
    requires Supported(bitDepth) && |header| == 44 && file == header + data
    ensures LoadDataSamples(file, bitDepth) == Ok(FileSamples(data, bitDepth))
  {
    assert file[44..] == data;
  }

  /** Decoding the data bytes of some samples recovers each sample to
      within two quantization steps. */
  lemma DataRoundTrip(samples: seq<real>, bitDepth: int)
    requires InRange(samples) && Supported(bitDepth)
    ensures var vs := FileSamples(WavDataBytes(samples, bitDepth), bitDepth);
            |vs| == |samples|
            && forall i :: 0 <= i < |samples| ==> WithinTwoSteps(vs[i], samples[i], bitDepth)
  {
    var vs := FileSamples(WavDataBytes(samples, bitDepth), bitDepth);
    WavDataLength(samples, bitDepth);
    assert |vs| == |samples| by {
      MulDiv(|samples|, Width(bitDepth));
    }
    forall i | 0 <= i < |samples|
      ensures WithinTwoSteps(vs[i], samples[i], bitDepth)
    {
      DataSampleIs(samples, i, bitDepth);
      FileRoundTripError(samples[i], bitDepth);
    }
  }

  /** Sample i of the decoded data chunk is the decoding of sample i's bytes. */
  lemma DataSampleIs(samples: seq<real>, i: nat, bitDepth: int)
    requires InRange(samples) && Supported(bitDepth) && i < |samples|
    ensures var data := WavDataBytes(samples, bitDepth);
            i < |FileSamples(data, bitDepth)|
            && FileSamples(data, bitDepth)[i] == FileValue(Unpack(FileBytes(samples[i], bitDepth), bitDepth), bitDepth)
  {
    var cs := DataChunks(samples, bitDepth);
    GroupOfFlatten(cs, i, bitDepth);
  }

  /** Chunks of one sample each: group i of their concatenation is chunk i. */
  lemma {:induction false} GroupOfFlatten(cs: seq<seq<byte>>, i: nat, bitDepth: int)
    requires Supported(bitDepth) && i < |cs|
    requires forall j :: 0 <= j < |cs| ==> |cs[j]| == Width(bitDepth)
    ensures |Flatten(cs)| / Width(bitDepth) == |cs|
    ensures Group(Flatten(cs), i, bitDepth) == cs[i]
    decreases |cs|
  {
    var w, n := Width(bitDepth), |cs|;
    var front := cs[..n - 1];
    var a, b := Flatten(front), cs[n - 1];
    assert Flatten(cs) == a + b;
    UniformTotal(front, w);
    MulDiv(n - 1, w);
    AppendArith(|a|, |b|, 0, w);
    if i < n - 1 {
      GroupOfFlatten(front, i, bitDepth);
      GroupAppendLeft(a, b, i, bitDepth);
    } else {
      GroupAppendRight(a, b, i, bitDepth);
      assert Group(b, 0, bitDepth) == b[0..w] == b;
    }
  }
}
