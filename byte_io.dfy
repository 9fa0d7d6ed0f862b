/** The byte source and sink behind `io.Reader` and `io.Writer`.
    A source behaves like Go's `bytes.Reader`: a read of k bytes returns
    min(k, remaining) bytes and reports end of input only when nothing
    remains. A source may instead end in a read error (`failsAtEnd`), which
    is how a broken device shows up. A sink appends what it is given; one
    with a capacity accepts bytes up to it and then reports a short write,
    as Go's io.Writer contract requires. */
module ByteIO {
  import opened Base

  datatype SourceState = SourceState(data: seq<byte>, pos: nat, failsAtEnd: bool)

  function Remaining(s: SourceState): nat
  {
    if s.pos < |s.data| then |s.data| - s.pos else 0
  }

  /** The bytes not yet read. */
  function Rest(s: SourceState): (r: seq<byte>)
    ensures |r| == Remaining(s)
  {
    if s.pos < |s.data| then s.data[s.pos..] else []
  }

  /** One `Read` of a buffer of k bytes: the outcome and the new state. */
  function SourceRead(s: SourceState, k: nat): (r: (Result<seq<byte>>, SourceState))
    ensures r.0.Ok? ==> s.pos < |s.data| && |r.0.value| == Min(k, Remaining(s))
                        && r.0.value == s.data[s.pos .. s.pos + |r.0.value|]
                        && r.1 == s.(pos := s.pos + |r.0.value|)
    ensures r.0.Err? ==> r.1 == s && Remaining(s) == 0
    ensures r.0 == Err(Eof) <==> Remaining(s) == 0 && !s.failsAtEnd
    ensures r.0.Err? ==> r.0.error == Eof || r.0.error == ReadFailed
  {
    if s.pos >= |s.data| then
      (Err(if s.failsAtEnd then ReadFailed else Eof), s)
    else
      var n := Min(k, |s.data| - s.pos);
      (Ok(s.data[s.pos .. s.pos + n]), s.(pos := s.pos + n))
  }

  /** A read that asks for at least one byte and succeeds makes progress. */
  lemma SourceReadProgress(s: SourceState, k: nat)
    requires k > 0 && SourceRead(s, k).0.Ok?
    ensures Remaining(SourceRead(s, k).1) < Remaining(s)
    ensures Remaining(SourceRead(s, k).1) == Remaining(s) - |SourceRead(s, k).0.value|
  {
  }

  /** How many of k offered bytes a sink holding `held` bytes accepts. */
  function Accepted(held: nat, capacity: Option<nat>, k: nat): (m: nat)
    ensures m <= k
    ensures capacity.None? || held + k <= capacity.value ==> m == k
    ensures capacity.Some? && held + k > capacity.value && k > 0 ==> m < k
    ensures m < k ==> capacity.Some? && held + m >= capacity.value
  {
    if capacity.None? || held + k <= capacity.value then k
    else if capacity.value > held then capacity.value - held
    else 0
  }

  /** A write that fits leaves the rest of the room to the next one. */
  lemma AcceptedSplit(held: nat, capacity: Option<nat>, a: nat, b: nat)
    requires capacity.None? || held + a <= capacity.value
    ensures Accepted(held, capacity, a + b) == a + Accepted(held + a, capacity, b)
  {
  }

  /** Once a write of a bytes overflows, offering more changes nothing. */
  lemma AcceptedShort(held: nat, capacity: Option<nat>, a: nat, t: nat)
    requires capacity.Some? && held <= capacity.value < held + a && a <= t
    ensures Accepted(held, capacity, t) == Accepted(held, capacity, a) < a
  {
  }

  /** What a sink holds after a `Write(bs)`, and the write's outcome: the
      accepted bytes are appended, and accepting fewer than offered is a
      short write. */
  function SinkWrite(written: seq<byte>, capacity: Option<nat>, bs: seq<byte>): (r: (Result<nat>, seq<byte>))
    ensures r.1 == written + bs[..Accepted(|written|, capacity, |bs|)]
    ensures r.0.Ok? <==> capacity.None? || |written| + |bs| <= capacity.value
    ensures r.0.Ok? ==> r.0.value == |bs| && r.1 == written + bs
    ensures r.0.Err? ==> r.0.error == ShortWrite
  {
    if capacity.None? || |written| + |bs| <= capacity.value then
      assert bs[..|bs|] == bs;
      (Ok(|bs| as nat), written + bs)
    else
      (Err(ShortWrite), written + bs[..Accepted(|written|, capacity, |bs|)])
  }

  /** Writing each chunk in one write, in order, until a write fails: the
      loop shape of WriteWAVFile's frames and of writeWAVData's samples.
      The first failed write's error is returned as it is. */
  function WriteChunks(written: seq<byte>, capacity: Option<nat>, chunks: seq<seq<byte>>): (r: (Option<Error>, seq<byte>))
    ensures written <= r.1
    ensures r.0.Some? ==> r.0.value == ShortWrite
    decreases |chunks|
  {
    if |chunks| == 0 then (None, written)
    else
      var st := SinkWrite(written, capacity, chunks[0]);
      if st.0.Err? then (Some(st.0.error), st.1)
      else WriteChunks(st.1, capacity, chunks[1..])
  }

  /** The chunk loop writes a prefix of the concatenated chunks: all of it,
      with no error, exactly when the sink has room for all of it, and
      otherwise as much as fits, with a short write. */
  lemma {:induction false} WriteChunksOutcome(written: seq<byte>, capacity: Option<nat>, chunks: seq<seq<byte>>)
    requires capacity.None? || |written| <= capacity.value
    ensures var r := WriteChunks(written, capacity, chunks);
            r.1 == written + Flatten(chunks)[..Accepted(|written|, capacity, TotalLength(chunks))]
            && (r.0.None? <==> capacity.None? || |written| + TotalLength(chunks) <= capacity.value)
            && (r.0.Some? ==> r.0.value == ShortWrite)
    decreases |chunks|
  {
    if |chunks| > 0 {
      FlattenCons(chunks);
      var c0, rest := chunks[0], chunks[1..];
      var st := SinkWrite(written, capacity, c0);
      if st.0.Err? {
        AcceptedShort(|written|, capacity, |c0|, TotalLength(chunks));
        PrefixOfConcat(c0, Flatten(rest), Accepted(|written|, capacity, |c0|));
      } else {
        WriteChunksOutcome(st.1, capacity, rest);
        AcceptedSplit(|written|, capacity, |c0|, TotalLength(rest));
        PrefixOfConcat(c0, Flatten(rest), Accepted(|written|, capacity, TotalLength(chunks)));
      }
    }
  }

  /** The caller's `io.Reader`. */
  class ByteSource {
    var state: SourceState

    constructor (data: seq<byte>, failsAtEnd: bool)
      ensures state == SourceState(data, 0, failsAtEnd)
    {
      state := SourceState(data, 0, failsAtEnd);
    }

    method Read(k: nat) returns (r: Result<seq<byte>>)
      modifies this
      ensures (r, state) == SourceRead(old(state), k)
    {
      var step := SourceRead(state, k);
      r, state := step.0, step.1;
    }
  }

  /** The caller's `io.Writer`; `written` only ever grows at its end. */
  class ByteSink {
    var written: seq<byte>
    const capacity: Option<nat>

    constructor (capacity: Option<nat>)
      ensures written == [] && this.capacity == capacity
    {
      written := [];
      this.capacity := capacity;
    }

    method Write(bs: seq<byte>) returns (r: Result<nat>)
      modifies this
      ensures (r, written) == SinkWrite(old(written), capacity, bs)
      ensures old(written) <= written
    {
      var step := SinkWrite(written, capacity, bs);
      r, written := step.0, step.1;
    }
  }
}
