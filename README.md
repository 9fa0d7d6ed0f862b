# godub in Dafny

A Dafny model of the in-process core of godub, a Go audio library. The
core has five parts:

- the `AudioSegment` value and its constructor checks;
- the `AudioStream`, which decodes PCM bytes from an `io.Reader` into
  samples in [-1, 1] and encodes samples into PCM bytes for an
  `io.Writer`, with its chunked `Process` and `ToSegment` loops;
- the WAV writers: `makeWAVHeader`/`WriteWAVFile` in pkg/stream and
  `writeWAVHeader`/`writeWAVData` in pkg/converter;
- the in-process halves of `SaveAudioFile` and `LoadAudioFile`: the
  bit-depth check, the WAV image, and the decode of a WAV file's bytes;
- the frame-aligning read loop of `FFmpegProcessor.Process`, and the
  generic `Reverse`.

Samples are Dafny `real`s. Bytes are `int`s in [0, 256). Go's integer
width conversions are written out: `uint16(x)` is `x % 2^16`, `int32(f)`
truncates toward zero, and Go's `/` on `int` truncates toward zero
(`GoDiv`).

Every class method and every loop is proved equal to a pure function of
the inputs or of the old state. For example:

- `AudioStream.Read` equals `ReadSpec`;
- `WriteWavFile` equals `WriteWavFileSpec`;
- `Processor.Process` equals `ProcessSpec`.

The properties are lemmas about those functions: round trips, lengths,
error cases, prefix and append-only behaviour, and header layout.

Files, one module each:

- `base.dfy`: bytes, `Result`/`Option`, the error values, Go arithmetic,
  and concatenation of byte chunks.
- `little_endian.dfy`: the 16/24/32-bit little-endian encodings and
  their inverses.
- `pcm.dfy`: the integer codec (`Pack`/`Unpack`), sign extension, the
  scale factors, and quantization.
- `byte_io.dfy`: `io.Reader` as a byte sequence with a cursor
  (`bytes.Reader` behaviour, optionally ending in an error), and
  `io.Writer` as an append-only sink with an optional capacity
  (short write beyond it).
- `segment.dfy`: `AudioSegment`.
- `stream.dfy`: `AudioStream`, `NewAudioStream`, `FromSegment`.
- `wav_writer.dfy`: `makeWAVHeader`, `putLE`, `WriteWAVFile`.
- `wav.dfy`: `wavHeader`, `writeWAVHeader`, `writeWAVData`.
- `converter.dfy`: `SaveAudioFile` up to the finished WAV image, and the
  sample decode of `LoadAudioFile`.
- `processor.dfy`: the read loop of `FFmpegProcessor.Process`.
- `reverse.dfy`: `Reverse`.

Where the documentation and the code disagree, the model follows the
code:

- The stream codec divides by `2^(n-1) - 1` on both sides
  (pkg/stream/stream.go:81-93, 121-148).
- The file decoder divides by `2^(n-1)` (pkg/converter/converter.go:135-147).
- The file encoder multiplies by `2^(n-1) - 1` (pkg/converter/wav.go:57-72).
- At 8 bits the file encoder stores `uint8((s + 1) * 127.5)`
  (pkg/converter/wav.go:52), while the stream encoder stores
  `int32(s * 127) + 128` (pkg/stream/stream.go:121-122). Silence is
  therefore byte 127 in a file and byte 128 in a stream
  (`Wav.SilenceAt8Bits`).
- Both decoders read 8-bit data as `byte - 128`.
- `LoadAudioFile` decodes every byte of the WAV file, the header
  included. See "## Findings".

`FFmpegProcessor.Process` with a frame size below zero panics in the
buffer's `make` (pkg/stream/processor.go:82). With a frame size of zero the
buffer is empty. A read from the decoder's pipe into an empty buffer
returns (0, nil) without waiting, so the first `n / frameSize`
(pkg/stream/processor.go:94) panics. The model gives both as
`RuntimePanic`, after the header has been read and without killing the
decoder.

`FFmpegProcessor.Process` keeps from each read only its first
`(n / frameSize) * frameSize` bytes (pkg/stream/processor.go:94-99). The
remainder of a read is dropped, not carried into the next read. After a
read that ends part-way through a frame, every later frame therefore starts
part-way through a frame. `Processor.CollectAppend` and
`Processor.FramesArePrefixes` state this, and `Processor.AlignedTotalBounds`
bounds the bytes lost: at most frameSize-1 per read.

## Model

| member | source | states |
|---|---|---|
| Base.GoDiv | pkg/stream/stream.go:64 | Go's `/` on int, for every sign: the remainder `a - q*b` is smaller than the divisor in magnitude and is zero or has the dividend's sign (truncation toward zero); for a non-negative dividend and positive divisor this is Dafny's quotient |
| Base.ToUint16 | pkg/stream/writer.go:56 | `uint16(x)` differs from x by a multiple of 2^16 and keeps a value that already fits |
| Base.ToUint32 | pkg/stream/writer.go:46 | `uint32(x)` differs from x by a multiple of 2^32 and keeps a value that already fits |
| Base.Trunc | pkg/stream/stream.go:121 | `int32(f)` truncates toward zero: the result is within one of f, on the side of zero |
| LittleEndian.Le16Decode | pkg/stream/writer.go:76-78 | the two bytes `putLE` stores for a uint16 read back as the value modulo 2^16 |
| LittleEndian.Le32Decode | pkg/stream/writer.go:79-83 | the four bytes stored for a uint32 read back as the value modulo 2^32 |
| LittleEndian.Le24Decode | pkg/converter/wav.go:63-67 | the three low bytes of a 24-bit sample read back as the value modulo 2^24 |
| LittleEndian.Le16Encode | pkg/stream/writer.go:76-78 | encoding the value of any two bytes gives those bytes: the encoding is onto |
| LittleEndian.Le24Encode | pkg/converter/wav.go:63-67 | the same for three bytes |
| LittleEndian.Le32Encode | pkg/stream/writer.go:79-83 | the same for four bytes |
| LittleEndian.Le32Bytes | pkg/stream/stream.go:149-152 | the encoding is `byte(v)`, `byte(v>>8)`, `byte(v>>16)`, `byte(v>>24)` |
| LittleEndian.PeriodicLe32 | pkg/stream/stream.go:148-152 | the bytes only depend on the value modulo 2^32, so negative int32 samples are stored as two's complement |
| Pcm.Width | pkg/stream/stream.go:64 | bytesPerSample is `bitDepth / 8` and, for the four supported depths, between 1 and 4 with `8 * w == bitDepth` |
| Pcm.Pack | pkg/stream/stream.go:121-152 | the writer stores bytesPerSample bytes per integer sample; `PackUnpack` and `UnpackPack` make it the inverse of `Unpack` |
| Pcm.Unpack | pkg/stream/stream.go:79-93 | a decoded sample always lies in the signed range of its bit depth |
| Pcm.PackUnpack | pkg/stream/stream.go:79-93 | decoding the bytes the writer stores for an in-range integer gives that integer back |
| Pcm.UnpackPack | pkg/stream/stream.go:121-152 | re-encoding a decoded sample gives the original bytes, so the codec is a bijection on byte groups |
| Pcm.SignExtension24 | pkg/stream/stream.go:86-89 | a 24-bit sample is negative exactly when bit 23 is set, and is then the unsigned value minus 2^24 |
| Pcm.DecodeInts | pkg/stream/stream.go:75-76 | `n / bytesPerSample` samples are decoded, each in range, and trailing bytes are ignored |
| Pcm.DecodeIntsAppend | pkg/stream/stream.go:75-95 | decoding distributes over concatenation at a sample boundary |
| Pcm.Clamp | pkg/stream/stream.go:116-120 | the clamped sample lies in [-1, 1], is the input when that is inside, and ±1 otherwise |
| Pcm.Quantize | pkg/stream/stream.go:113-148 | `int32(clamp(s) * (2^(n-1) - 1))` lies in [-(2^(n-1) - 1), 2^(n-1) - 1] |
| Pcm.FileValue | pkg/converter/converter.go:135-147 | the file decoder's `v / 2^(n-1)` of an in-range integer lies in [-1, 1) |
| Pcm.QuantizeSaturates | pkg/stream/stream.go:116-121 | every input at or beyond ±1 quantizes to the full-scale value, as ±1 does |
| Pcm.StreamByte8 | pkg/stream/stream.go:121-122 | the 8-bit stream byte is `intSample + 128` and lies in [1, 255] |
| Pcm.QuantizeStreamValue | pkg/stream/stream.go:79-148 | a value on the quantization grid survives normalisation and re-quantization |
| Pcm.StreamRoundTripError | pkg/stream/stream.go:79-148 | a sample in [-1, 1], written and read back by the stream codec, is off by less than one quantization step |
| Pcm.StreamExample16 | pkg/stream/stream_test.go:105 | the test samples 0, 0.5, -0.5, 1 and -1 quantize to 0, 16383, -16383, 32767 and -32767 at 16 bits |
| ByteIO.SourceRead | pkg/stream/stream.go:69-72 | a read returns min(k, remaining) bytes from the cursor and advances it; end of input only when nothing remains |
| ByteIO.SourceReadProgress | pkg/stream/stream.go:69 | a successful read of a non-empty buffer consumes at least one byte |
| ByteIO.SinkWrite | pkg/stream/stream.go:157-160 | a write appends what fits; it succeeds exactly when all of it fits, and otherwise is a short write |
| ByteIO.WriteChunks | pkg/stream/writer.go:30-34 | the per-chunk write loop only appends to the sink, and a failure it returns is the failing write's short write |
| ByteIO.WriteChunksOutcome | pkg/stream/writer.go:30-34 | one write per chunk until the first failure leaves the concatenation's prefix that fits, with no error exactly when all of it fits |
| ByteIO.ByteSource.Read | pkg/stream/stream.go:69 | the reader object's read equals `SourceRead` of its old state |
| ByteIO.ByteSink.Write | pkg/stream/stream.go:157 | the writer object's write equals `SinkWrite` of its old contents, which it only appends to |
| Segment.NewAudioSegment | pkg/audio/segment.go:24-47 | succeeds exactly when samples are non-empty and rate, channels and depth are positive; each failure has its own error in the source's order; the segment holds the arguments |
| Segment.ValidSegmentRebuilds | pkg/audio/segment.go:49-72 | the accessors return the fields, and rebuilding from them gives the same segment |
| Segment.SliceRangeError | pkg/audio/segment.go:76-78 | `Slice` accepts exactly 0 <= start < end <= duration |
| Segment.SliceNeedsPositiveDuration | pkg/audio/segment.go:76-78 | an accepted range needs a positive duration and is no longer than it |
| Stream.ConfigError | pkg/stream/stream.go:29-44 | the checks of NewAudioStream: accepted exactly when an endpoint exists and all sizes are positive, each failure giving its own error in order |
| Stream.NewAudioStream | pkg/stream/stream.go:29-55 | returns the error of `ConfigError`, and otherwise a fresh stream holding the arguments and a zeroed buffer of bufferSize samples |
| Stream.StreamSamples | pkg/stream/stream.go:75-95 | one sample per complete byte group |
| Stream.StreamSamplesAppend | pkg/stream/stream.go:75-95 | decoding distributes over concatenation at a sample boundary |
| Stream.ReadSpec | pkg/stream/stream.go:58-98 | Read leaves p's length alone, keeps p and the source on error, returns at most len(p) samples, and makes progress on a non-empty buffer |
| Stream.ReadOutcomes | pkg/stream/stream.go:69-75 | Read ends in EOF exactly when a cleanly ending source is exhausted, in a read error when a failing one is, and panics when bytesPerSample is 0 |
| Stream.ReadDecodes | pkg/stream/stream.go:63-97 | a successful Read consumes min(len(p)*bytesPerSample, remaining) bytes, returns the complete samples among them, decodes them into the front of p and leaves the rest of p alone |
| Stream.AudioStream.Read | pkg/stream/stream.go:58-98 | refuses without a reader; otherwise equals `ReadSpec` on the source and the buffer |
| Stream.DecodeSamples | pkg/stream/stream.go:76-95 | the loop stores sample i at p[i] for the decoded samples and changes nothing else |
| Stream.Encode | pkg/stream/stream.go:106-154 | the codec bytes of a run of samples: bytesPerSample bytes per sample, so Write encodes len(p) * bytesPerSample bytes; `EncodeAppend` and `DecodeEncode` give their contents |
| Stream.EncodeAppend | pkg/stream/stream.go:111-154 | encoding distributes over concatenation |
| Stream.StreamBytes | pkg/stream/stream.go:106-154 | the buffer Write hands to the writer has len(p) * bytesPerSample bytes |
| Stream.EncodeSamples | pkg/stream/stream.go:106-154 | the loop fills a fresh zeroed buffer with exactly `StreamBytes` |
| Stream.PutSample | pkg/stream/stream.go:121-152 | one sample's bytes are stored at its offset, and the rest of the buffer keeps its contents |
| Stream.WriteSpec | pkg/stream/stream.go:101-163 | Write appends the prefix of the encoding that fits; it returns len(p) exactly when all of it fits and bytesPerSample is positive, and otherwise a short write or the division panic |
| Stream.AudioStream.Write | pkg/stream/stream.go:101-163 | refuses without a writer; otherwise equals `WriteSpec` |
| Stream.DecodeEncode | pkg/stream/stream.go:75-154 | decoding what Write emits gives each sample's quantized value, in order |
| Stream.WriteThenRead | pkg/stream/stream.go:58-163 | a reader fed a writer's output, through a buffer of at least len(p) samples, returns every sample in one read, each within one quantization step of the original for inputs in [-1, 1], and leaves the rest of the buffer alone |
| Stream.ReadWhole | pkg/stream/stream.go:63-97 | a buffer with room for all of the source's samples takes them all in one read, into its front |
| Stream.ProcessStep | pkg/stream/stream.go:171-192 | one round keeps the buffer length and the sink without a writer, only advances the source, makes progress when it goes on, and stops normally exactly at a clean end of input |
| Stream.ProcessSpec | pkg/stream/stream.go:166-195 | Process keeps those invariants, and without an error on a cleanly ending source it consumes all of it |
| Stream.ProcessAppendsOnly | pkg/stream/stream.go:187-191 | Process only appends to the sink |
| Stream.ProcessCompletes | pkg/stream/stream.go:171-194 | with a clean source, a callback that never fails and an unlimited sink, Process returns no error having read everything |
| Stream.ProcessIdentityCopies | pkg/stream/stream.go:171-194 | with the identity callback and an unlimited writer, the sink receives the re-encoding of every complete sample of the source, in order |
| Stream.ProcessAtEnd | pkg/stream/stream.go:173-176 | at a clean end of input Process stops at once and changes nothing |
| Stream.AudioStream.Process | pkg/stream/stream.go:166-195 | refuses without a reader and changes nothing; otherwise equals `ProcessSpec` on the source, sink and buffer |
| Stream.AudioStream.Round | pkg/stream/stream.go:173-191 | one loop pass equals `ProcessStep` |
| Stream.ToSegmentSpec | pkg/stream/stream.go:198-218 | the loop succeeds only at a clean end of input, fails only with the reader's error or the division panic, and never changes the source's data |
| Stream.ToSegmentKeepsPrefix | pkg/stream/stream.go:215 | the accumulated samples only grow at their end |
| Stream.ToSegmentDecodesAll | pkg/stream/stream.go:203-218 | from a clean source the loop collects exactly the samples of all remaining bytes |
| Stream.SegmentRoundTrip | pkg/stream/stream_test.go:223-279 | the bytes FromSegment writes for p, read back by ToSegment through a buffer of any positive size, give len(p) samples, each p[i] quantized and normalised and within one step of p[i] in [-1, 1]; the segment built from them has the reading stream's rate, channels and depth |
| Stream.ToSegmentOfShortSource | pkg/stream/stream.go:215-218 | a source with no complete sample yields no samples, so the segment constructor refuses them |
| Stream.AudioStream.ToSegment | pkg/stream/stream.go:198-219 | refuses without a reader; otherwise equals `ToSegmentSpec` followed by `NewAudioSegment` |
| Stream.FromSegment | pkg/stream/stream.go:222-245 | a nil segment is refused; otherwise the configuration is checked and all samples are written once, and the write's error or the new write-only stream is returned |
| WavWriter.LEBytesDecode | pkg/stream/writer.go:74-85 | `putLE` of a uint16 or uint32 stores bytes that read back as the value; any other type stores nothing |
| WavWriter.PutLE | pkg/stream/writer.go:74-85 | `putLE` changes only its two or four target bytes |
| WavWriter.CopyInto | pkg/stream/writer.go:44 | `copy` changes only its target bytes |
| WavWriter.ByteRate | pkg/stream/writer.go:60 | the byte rate is sampleRate * channels * bytesPerSample modulo 2^32 at a supported depth with non-negative rate and channels |
| WavWriter.BlockAlign | pkg/stream/writer.go:62 | the block alignment is channels * bytesPerSample modulo 2^16 at a supported depth with non-negative channels |
| WavWriter.CanonicalHeader | pkg/stream/writer.go:40-71 | the header is 44 bytes |
| WavWriter.HeaderLayout | pkg/stream/writer.go:43-68 | the tags RIFF, WAVE, "fmt " and data sit at offsets 0, 8, 12 and 36, and every numeric field reads back as its uint16/uint32 truncation of the Go expression |
| WavWriter.EmptyDataHeader | pkg/stream/processor_test.go:121-133 | with no data the RIFF size is 36 and the data size 0 |
| WavWriter.MakeWavHeader | pkg/stream/writer.go:40-71 | the array-filling code produces exactly `CanonicalHeader` |
| WavWriter.DataSize | pkg/stream/writer.go:18-21 | the summing loop returns the total frame length |
| WavWriter.WriteWavFile | pkg/stream/writer.go:9-37 | equals `WriteWavFileSpec`: header of the frame total, then each frame, stopping at the first failed write with the wrapped error |
| WavWriter.WavFileLength | pkg/stream/writer.go:18-34 | the file image is 44 + Σ len(frame) bytes, and after byte 44 it is the frames in order |
| WavWriter.WriteFramesSpec | pkg/stream/writer.go:30-34 | the frame loop only appends, and its failure is the wrapped short write of a frame |
| WavWriter.HeaderThenFrames | pkg/stream/writer.go:24-34 | the header write and then the frame loop only append; a failure is the wrapped header or frame error, and a failed header write leaves fewer than all header bytes |
| WavWriter.WriteWavFileSpec | pkg/stream/writer.go:9-37 | WriteWAVFile only appends to the file; its error is the wrapped header-write or frame-write failure, and a failed header write leaves fewer than 44 new bytes |
| WavWriter.WriteWavFileOutcome | pkg/stream/writer.go:24-34 | WriteWAVFile writes a prefix of the file image, all of it with no error exactly when the sink has room, and a failed header write reaches no frame |
| WavWriter.HeaderThenFramesOutcome | pkg/stream/writer.go:25-34 | the same for any header |
| WavWriter.EmptyFramesFile | pkg/stream/processor_test.go:121-133 | nil or empty frames give exactly 44 bytes with RIFF size 36 and data size 0 |
| Wav.BuildHeader | pkg/converter/wav.go:26-42 | the record's ChunkSize is `uint32(dataSize) + 36` wrapped, equal to `uint32(dataSize + 36)` |
| Wav.Serialize | pkg/converter/wav.go:44 | `binary.Write` of the record gives 44 bytes |
| Wav.SerializeLayout | pkg/converter/wav.go:9-44 | every field is at its offset in declaration order, little-endian |
| Wav.ParseSerialize | pkg/converter/wav.go:44 | the 44 bytes determine the record: parsing them gives it back |
| Wav.HeadersAgree | pkg/converter/wav.go:26-44 | writeWAVHeader and makeWAVHeader produce the same 44 bytes |
| Wav.WriteWavHeader | pkg/converter/wav.go:26-45 | the writer receives the serialized record through one write, and its error is returned |
| Wav.FileInt | pkg/converter/wav.go:50-72 | the 8-bit file sample lies in [0, 255]; the others are the stream's quantization |
| Wav.FileBytes | pkg/converter/wav.go:50-76 | a supported depth emits bitDepth/8 bytes per sample, any other depth none |
| Wav.FileBytesDecode | pkg/converter/wav.go:52-74 | the emitted bytes decode to the integer sample |
| Wav.FileMatchesStream | pkg/converter/wav.go:56-74 | at 16, 24 and 32 bits the file bytes equal the stream codec's |
| Wav.SilenceAt8Bits | pkg/converter/wav.go:52 | silence is byte 127 in a file and byte 128 in a stream |
| Wav.FileRoundTripError | pkg/converter/wav.go:50-75 | a sample in [-1, 1] written to a file and decoded by the file reader is off by less than two steps of 2^-(n-1) |
| Wav.DataChunks | pkg/converter/wav.go:49-76 | one write per sample, each the sample's bytes, and none at an unsupported depth |
| Wav.EncodeFileSample | pkg/converter/wav.go:50-75 | the per-sample switch gives `FileBytes` |
| Wav.WriteDataSpec | pkg/converter/wav.go:48-79 | writeWAVData only appends, fails only with the short write of a sample, and writes nothing at an unsupported depth |
| Wav.WriteWavData | pkg/converter/wav.go:48-79 | equals one write per sample until the first failed write, whose error is returned |
| Wav.WavDataLength | pkg/converter/wav.go:48-79 | the data is len(samples) * bitDepth/8 bytes at a supported depth and empty otherwise, which is the dataSize SaveAudioFile declares |
| Pcm.DeclaredDataSize | pkg/converter/converter.go:183 | `n * bitDepth / 8` equals n times bytesPerSample at a supported depth |
| Wav.WriteDataOutcome | pkg/converter/wav.go:48-79 | the data writer leaves a prefix of the data bytes, all with no error exactly when the writer has room, and a short write otherwise |
| Converter.BitDepthCheck | pkg/converter/converter.go:158-164 | accepted exactly at 8, 16, 24 and 32, otherwise the unsupported-depth error |
| Converter.SaveWavSpec | pkg/converter/converter.go:157-193 | SaveAudioFile's image only appends to the file; a refused depth writes nothing and returns the unsupported-depth error, and otherwise a failure is the wrapped header or data write error, with a failed header write leaving fewer than 44 new bytes |
| Converter.SaveWav | pkg/converter/converter.go:157-193 | equals `SaveWavSpec`: the check, then the header of `len(samples)*bitDepth/8`, then the data, each failure wrapped |
| Converter.SaveWavOutcome | pkg/converter/converter.go:157-193 | a refused depth writes nothing; otherwise the file is a prefix of `CanonicalHeader + data`, whole with no error exactly when it fits, with a header or data write error otherwise |
| Converter.HeaderThenDataOutcome | pkg/converter/converter.go:186-193 | the same for any header |
| Converter.FileSamples | pkg/converter/converter.go:126-147 | one value per complete byte group, each the file normalisation of its integer |
| Converter.FileSamplesRange | pkg/converter/converter.go:133-147 | every decoded file sample lies in [-1, 1) |
| Converter.LoadSamples | pkg/converter/converter.go:126-153 | bytesPerSample 0 panics, an unsupported depth with samples to decode fails, and a supported depth gives `FileSamples` |
| Converter.LoadSamplesCases | pkg/converter/converter.go:127-149 | a negative count panics, a zero count succeeds with no samples at any depth, an unsupported depth with samples fails |
| Converter.DecodeWavData | pkg/converter/converter.go:126-153 | the decode loop returns exactly `LoadSamples` |
| Converter.DecodeSample | pkg/converter/converter.go:132-147 | the per-sample switch gives sample i of `FileSamples` |
| Converter.LoadIgnoresRemainder | pkg/converter/converter.go:127 | trailing bytes short of a sample do not change the result |
| Converter.FileSamplesAppend | pkg/converter/converter.go:130-147 | decoding distributes over concatenation at a sample boundary |
| Converter.HeaderDecodedAsSamples | pkg/converter/converter.go:119-127 | at 8, 16 and 32 bits, decoding a whole file decodes its 44 header bytes first, as 44, 22 or 11 spurious samples, and then the data's samples |
| Converter.HeaderMisaligns24 | pkg/converter/converter.go:119-127 | at 24 bits the header gives 14 whole samples, and the data is decoded from two header bytes before it, so every data sample is misaligned |
| Converter.HeaderSampleExample | pkg/converter/converter.go:119-138 | in every 16-bit file the first sample is "RI" read as 18770/32768, and the data's samples only start at index 22; at 24 bits the data is also misaligned by two bytes (`Converter.HeaderMisaligns24`) |
| Converter.LoadDataSamples | pkg/converter/converter.go:119-127 | the corrected decode of the data after the header, failing on a file shorter than a header |
| Converter.SaveLoadRoundTrip | pkg/converter/converter.go:119-193 | saving samples in [-1, 1] and decoding the data chunk gives one value per sample, each within two steps of the original |
| Converter.SavedDataChunk | pkg/converter/converter.go:183-193 | the data chunk of a saved file is exactly the data writeWAVData emitted |
| Converter.DataRoundTrip | pkg/converter/wav.go:48-79 | decoding the data bytes gives each sample back within two steps |
| Processor.CollectFrames | pkg/stream/processor.go:83-100 | the loop keeps at most one frame per read, each a positive multiple of frameSize |
| Processor.AlignedPrefix | pkg/stream/processor.go:94-97 | the kept part of a read is its prefix of `(n / frameSize) * frameSize` bytes, a multiple of frameSize, short of n by less than a frame, and non-empty exactly when n >= frameSize |
| Processor.ProcessSpec | pkg/stream/processor.go:70-107 | success exactly when the header is complete, the frame size is positive, reads end in EOF and Wait succeeds; after a complete header a frame size of zero or less is the run-time panic; header and read failures kill the decoder, a panic or a Wait failure does not; every failure discards the frames |
| Processor.ReadInto | pkg/stream/processor.go:84 | a read overwrites the front of the reused buffer and leaves the rest |
| Processor.CopyPrefix | pkg/stream/processor.go:96-97 | a frame is a fresh array holding the first frameSize*frameCount buffer bytes |
| Processor.Process | pkg/stream/processor.go:70-107 | the panic for a non-positive frame size, or else the loop over a reused buffer of frameSize*1024 bytes, returns exactly `ProcessSpec` |
| Processor.CollectAppend | pkg/stream/processor.go:83-100 | the frames of two runs of reads are the first run's frames followed by the second's: read order, and no remainder carried between reads |
| Processor.SingleRead | pkg/stream/processor.go:94-99 | a read gives one frame, its aligned prefix, when it holds a whole frame, and none otherwise |
| Processor.ShortReadAddsNothing | pkg/stream/processor.go:95 | a read shorter than a frame adds nothing wherever it falls |
| Processor.FramesShape | pkg/stream/processor.go:82-99 | every frame is a positive multiple of frameSize no longer than the buffer, and there are at most as many frames as reads |
| Processor.FramesTotal | pkg/stream/processor.go:94-98 | the frames hold Σ floor(n_i/frameSize)*frameSize bytes |
| Processor.AlignedTotalBounds | pkg/stream/processor.go:94-98 | that total is at most the payload and short of it by at most frameSize-1 bytes per read |
| Processor.FramesArePrefixes | pkg/stream/processor.go:94-98 | the concatenated frames are the concatenated aligned prefixes of the reads, in order |
| Processor.HeaderNeverInFrames | pkg/stream/processor.go:71-75 | the header's contents never affect the result; only whether 44 bytes arrive does |
| Reversal.Reversed | reverse.go:8-18 | the reversal has the input's length |
| Reversal.ReversedIndex | reverse.go:12-15 | element i of the input is element len-1-i of the output |
| Reversal.Involution | test/reverse_test.go:77-81 | reversing twice gives the input |
| Reversal.Reverse | reverse.go:8-18 | a fresh array equal to the reversal of the input, which is left unchanged |
| Reversal.Examples | test/reverse_test.go:22-55 | [1,2,3] → [3,2,1], [] → [], ["a","b","c"] → ["c","b","a"], ["a"] → ["a"] |

## Left out

- ffmpeg, ffprobe and file handling are not modelled: subprocess start and
  arguments, probe JSON, temp directories, `os.Create`, `Close`, `Sync`,
  `os.ReadFile` and `os.WriteFile` (pkg/converter/converter.go:23-118,
  166-180, 195-248; pkg/stream/processor.go:46-68;
  pkg/stream/writer.go:11-15). They are foreign processes and I/O. The
  file being written is a `ByteSink`, the file being read is a byte
  sequence, and the decoder's output is a `DecoderOutput` value.
- The goroutine that copies the input into ffmpeg's stdin
  (pkg/stream/processor.go:59) is concurrency, outside a sequential
  model.
- The segment's `time.Duration` is computed in floating point
  (pkg/audio/segment.go:38). The model keeps only `Slice`'s range check,
  with the duration as a parameter. The float conversion of the slice
  bounds to sample indices (pkg/audio/segment.go:80-88) is not modelled.
- pkg/audio/loader.go and pkg/effects/effects.go are not part of this
  model.
- Samples are exact reals, not IEEE doubles. The file writer converts a
  float64 to an integer type with `uint8`, `int16` or `int32`; Go leaves
  the result undefined when the value is out of range. The file-side
  members therefore require samples in [-1, 1] (`Wav.InRange`).
- Wav.FileInt: requires in-range samples because Go leaves an
  out-of-range float-to-integer conversion undefined; the stream writer
  clamps and needs no such requirement.
- Go `int` overflow is not modelled. Products such as
  `sampleRate*channels*bitDepth` are unbounded integers, truncated only
  where the source converts to `uint16`/`uint32`.
- The `Process` callback is a function from the slice to its new
  contents, or to an error (`Stream.LengthPreserving`). A callback that
  keeps a reference to the buffer and changes it later is not modelled.
- Stream.ProcessStep: a failing callback is modelled as leaving the
  buffer unchanged. A Go callback may rewrite `s.buffer[:n]` in place,
  or `append` into the slice's spare capacity, before it returns its
  error (pkg/stream/stream.go:180-182); that write is not captured.
- Processor.Process: the decoder's output is given as the header bytes,
  the successful reads and how they end. The model does not represent
  pipe timing. A `header` value longer than 44 bytes is treated as
  exactly 44 bytes read; the model does not carry the excess into the
  first read.
- Processor.Process: a frame's `make` and `copy` are a fresh array,
  whose contents enter the result as a sequence value. Aliasing between
  frames therefore cannot arise in the model.
- ByteIO.SourceRead: each read returns as much of the request as the
  source holds, as `bytes.Reader` does. The `io.Reader` contract also
  lets `Read` return fewer bytes with no error, as a pipe or a socket may.
  `samplesRead := n / bytesPerSample` (pkg/stream/stream.go:75) then
  drops the `n % bytesPerSample` trailing bytes, and every later sample
  of `Read`, `Process` (pkg/stream/stream.go:172) and `ToSegment`
  (pkg/stream/stream.go:209) is misaligned. The model cannot produce such
  a read. Stream.ReadWhole, Stream.WriteThenRead, Stream.SegmentRoundTrip,
  Stream.ToSegmentDecodesAll, Stream.ProcessCompletes and
  Stream.ProcessIdentityCopies therefore hold only for a reader that fills
  every request. The decoder's pipe in `processor.dfy` does have arbitrary
  reads (`DecoderOutput.chunks`).
- Reversal.Reverse: Go's `SupportedReverseType` constraint (string, int,
  byte, float64) is modelled as any type with a default value.

## Findings

| source | as written | input that shows it | evidently intended | confidence | as-written member | corrected member |
|---|---|---|---|---|---|---|
| pkg/converter/converter.go:119-127 | `LoadAudioFile` decodes `len(data)/bytesPerSample` samples from the whole WAV file, the 44 header bytes included | any 16-bit file `CanonicalHeader(sr, ch, 16, n) + data`: the result starts with 22 header samples, the first 18770/32768 ("RI"), and the data's samples only start at index 22; at 24 bits the data is also misaligned by two bytes (`Converter.HeaderMisaligns24`) | decode only the data chunk after the 44-byte header, so that loading a saved file gives its samples back | medium, not executed | Converter.HeaderSampleExample | Converter.SaveLoadRoundTrip |
