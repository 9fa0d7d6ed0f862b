/** An audio segment: decoded samples with their sample rate, channel count
    and bit depth (pkg/audio/segment.go). A segment is a value: it is built
    once by `NewAudioSegment` and never changed afterwards. */
module Segment {
  import opened Base

  datatype AudioSegment = AudioSegment(samples: seq<real>, sampleRate: int, channels: int, bitDepth: int)
  {
    function Samples(): seq<real> { samples }
    function SampleRate(): int { sampleRate }
    function Channels(): int { channels }
    function BitDepth(): int { bitDepth }

    /** What every segment built by `NewAudioSegment` satisfies. */
    predicate Valid()
    {
      |samples| > 0 && sampleRate > 0 && channels > 0 && bitDepth > 0
    }
  }

  /** The constructor's checks, in the order the source makes them:
      empty samples, then the sample rate, the channel count and the bit
      depth. Any positive bit depth is accepted. */
  function NewAudioSegment(samples: seq<real>, sampleRate: int, channels: int, bitDepth: int): (r: Result<AudioSegment>)
    ensures r.Ok? <==> |samples| > 0 && sampleRate > 0 && channels > 0 && bitDepth > 0
    ensures |samples| == 0 ==> r == Err(EmptySamples)
    ensures |samples| > 0 && sampleRate <= 0 ==> r == Err(BadSampleRate)
    ensures |samples| > 0 && sampleRate > 0 && channels <= 0 ==> r == Err(BadChannels)
    ensures |samples| > 0 && sampleRate > 0 && channels > 0 && bitDepth <= 0 ==> r == Err(BadBitDepth)
    ensures r.Ok? ==> r.value.Valid()
    ensures r.Ok? ==> r.value.Samples() == samples && r.value.SampleRate() == sampleRate
                      && r.value.Channels() == channels && r.value.BitDepth() == bitDepth
  {
    if |samples| == 0 then Err(EmptySamples)
    else if sampleRate <= 0 then Err(BadSampleRate)
    else if channels <= 0 then Err(BadChannels)
    else if bitDepth <= 0 then Err(BadBitDepth)
    else Ok(AudioSegment(samples, sampleRate, channels, bitDepth))
  }

  /** Every valid segment is what the constructor builds from its own
      accessors, so reading the accessors loses nothing. */
  lemma ValidSegmentRebuilds(a: AudioSegment)
    requires a.Valid()
    ensures NewAudioSegment(a.Samples(), a.SampleRate(), a.Channels(), a.BitDepth()) == Ok(a)
  {
  }

  /** The range check of `Slice`: it refuses a start before zero, an end
      past the segment's duration and an empty or inverted range. The
      duration and the offsets are `time.Duration` values (nanoseconds); the
      duration itself is computed in floating point and is a parameter here. */
  function SliceRangeError(start: int, end: int, duration: int): (r: Option<Error>)
    ensures r.None? <==> 0 <= start < end <= duration
    ensures r.Some? ==> r.value == InvalidSliceRange
  {
    if start < 0 || end > duration || start >= end then Some(InvalidSliceRange) else None
  }

  /** An accepted range lies inside [0, duration] and is not empty, so
      only a segment of positive duration can be sliced. */
  lemma SliceNeedsPositiveDuration(start: int, end: int, duration: int)
    requires SliceRangeError(start, end, duration).None?
    ensures duration > 0 && end - start <= duration
  {
  }
}
