/** Shared vocabulary: bytes, Go's fixed-width casts and integer division,
    the error kinds the Go code returns, and Option/Result wrappers. */
module Base {

  /** A Go `byte`. */
  type byte = x: int | 0 <= x < 0x100

  /** Values of Go's `uint16` and `uint32`. */
  type uint16 = x: int | 0 <= x < 0x1_0000
  type uint32 = x: int | 0 <= x < 0x1_0000_0000

  datatype Option<T> = None | Some(value: T)

  /** The Go `(value, error)` pair: every error path of the modelled code
      returns the zero value, so the value is present only on success. */
  datatype Result<T> = Ok(value: T) | Err(error: Error)

  /** The error values the modelled code can return or provoke. */
  datatype Error =
    // configuration errors of NewAudioStream / NewAudioSegment
    | NoEndpoint | BadSampleRate | BadChannels | BadBitDepth | BadBufferSize
    | EmptySamples | NilSegment | InvalidSliceRange
    // capability errors of AudioStream
    | NotReadable | NotWritable
    // errors of the byte source and sink
    | Eof | ReadFailed | ShortWrite
    // an error returned by a caller-supplied transform
    | TransformFailed(code: int)
    // a Go run-time panic (integer division by zero, negative make length)
    | RuntimePanic
    // FFmpegProcessor.Process
    | HeaderReadFailed | AudioReadFailed | DecoderFailed
    // WriteWAVFile / SaveAudioFile
    | HeaderWriteFailed(cause: Error) | FrameWriteFailed(cause: Error) | DataWriteFailed(cause: Error)
    | UnsupportedBitDepth(bitDepth: int)

  function Min(a: int, b: int): int { if a <= b then a else b }

  /** Go's integer division, which truncates toward zero (Dafny's `/` is
      Euclidean): the remainder `a - q * b` is smaller than the divisor in
      magnitude and is zero or has the dividend's sign. */
  function GoDiv(a: int, b: int): (q: int)
    requires b != 0
    ensures a >= 0 && b > 0 ==> q == a / b
    ensures b > 0 ==> (a >= 0 ==> q >= 0) && (a < 0 ==> q <= 0)
    ensures var r := a - q * b;
            (if r < 0 then -r else r) < (if b < 0 then -b else b) && (r == 0 || (r > 0) == (a > 0))
  {
    var q := if (a >= 0) == (b > 0) then
      (if a >= 0 then a / b else (-a) / (-b))
    else
      -((if a >= 0 then a else -a) / (if b > 0 then b else -b));
    TruncSign(a, b, q);
    TruncRemainder(a, b, q);
    q
  }

  /** The quotient GoDiv computes is Dafny's for a non-negative dividend
      and a positive divisor, and otherwise has the dividend's sign. */
  lemma TruncSign(a: int, b: int, q: int)
    requires b != 0
    requires q == if (a >= 0) == (b > 0) then
                    (if a >= 0 then a / b else (-a) / (-b))
                  else
                    -((if a >= 0 then a else -a) / (if b > 0 then b else -b))
    ensures a >= 0 && b > 0 ==> q == a / b
    ensures b > 0 ==> (a >= 0 ==> q >= 0) && (a < 0 ==> q <= 0)
  {
  }

  /** The quotient GoDiv computes leaves a remainder smaller than the
      divisor in magnitude, zero or of the dividend's sign. */
  lemma TruncRemainder(a: int, b: int, q: int)
    requires b != 0
    requires q == if (a >= 0) == (b > 0) then
                    (if a >= 0 then a / b else (-a) / (-b))
                  else
                    -((if a >= 0 then a else -a) / (if b > 0 then b else -b))
    ensures var r := a - q * b;
            (if r < 0 then -r else r) < (if b < 0 then -b else b) && (r == 0 || (r > 0) == (a > 0))
  {
    var rem: int;
    if a >= 0 && b > 0 {
      rem := a % b;
      assert a == b * q + rem;
    } else if a < 0 && b < 0 {
      rem := (-a) % (-b);
      assert -a == (-b) * q + rem;
      MulNeg(q, b);
    } else if a >= 0 {
      rem := a % (-b);
      assert a == (-b) * (-q) + rem;
      MulNeg(-q, b);
    } else {
      rem := (-a) % b;
      assert -a == b * (-q) + rem;
      MulNeg(-q, b);
    }
    TruncBound(a, b, q, rem);
  }

  /** A remainder of magnitude below |b| that is zero or has a's sign. */
  lemma TruncBound(a: int, b: int, q: int, rem: int)
    requires b != 0 && 0 <= rem < (if b < 0 then -b else b)
    requires a - q * b == (if a >= 0 then rem else -rem)
    ensures var r := a - q * b;
            (if r < 0 then -r else r) < (if b < 0 then -b else b) && (r == 0 || (r > 0) == (a > 0))
  {
  }

  /** Negating one factor negates the product. */
  lemma MulNeg(x: int, y: int)
    ensures x * (-y) == -(x * y)
  {
  }

  /** Go's conversions `uint16(x)` and `uint32(x)` keep the low bits: the
      result differs from x by a multiple of 2^16 (2^32), and a value that
      already fits is kept. */
  function ToUint16(x: int): (u: uint16)
    ensures (x - u) % 0x1_0000 == 0
    ensures 0 <= x < 0x1_0000 ==> u == x
  {
    x % 0x1_0000
  }

  function ToUint32(x: int): (u: uint32)
    ensures (x - u) % 0x1_0000_0000 == 0
    ensures 0 <= x < 0x1_0000_0000 ==> u == x
  {
    x % 0x1_0000_0000
  }

  /** Go's float-to-integer conversion of an in-range value: truncation toward zero. */
  function Trunc(r: real): (i: int)
    ensures r >= 0.0 ==> 0 <= i && i as real <= r < i as real + 1.0
    ensures r < 0.0 ==> i <= 0 && i as real - 1.0 < r <= i as real
  {
    if r >= 0.0 then r.Floor else -((-r).Floor)
  }

  /** The bytes of an ASCII string (the low eight bits of each character). */
  function Ascii(s: string): (bs: seq<byte>)
    ensures |bs| == |s| && forall i :: 0 <= i < |s| ==> bs[i] == s[i] as int % 0x100
  {
    seq(|s|, i requires 0 <= i < |s| => s[i] as int % 0x100)
  }

  /** The sum of the lengths of a sequence of byte strings. */
  function TotalLength(chunks: seq<seq<byte>>): nat
  {
    if |chunks| == 0 then 0 else TotalLength(chunks[..|chunks| - 1]) + |chunks[|chunks| - 1]|
  }

  /** The concatenation of a sequence of byte strings, in order. */
  function Flatten(chunks: seq<seq<byte>>): (r: seq<byte>)
    ensures |r| == TotalLength(chunks)
  {
    if |chunks| == 0 then [] else Flatten(chunks[..|chunks| - 1]) + chunks[|chunks| - 1]
  }

  /** Flattening distributes over concatenation. */
  lemma {:induction false} FlattenAppend(a: seq<seq<byte>>, b: seq<seq<byte>>)
    ensures Flatten(a + b) == Flatten(a) + Flatten(b)
    decreases |b|
  {
    if |b| == 0 {
      assert a + b == a;
    } else {
      var b' := b[..|b| - 1];
      assert (a + b)[..|a + b| - 1] == a + b';
      assert (a + b)[|a + b| - 1] == b[|b| - 1];
      FlattenAppend(a, b');
    }
  }

  /** Splitting off the first chunk. */
  lemma FlattenCons(chunks: seq<seq<byte>>)
    requires |chunks| > 0
    ensures Flatten(chunks) == chunks[0] + Flatten(chunks[1..])
    ensures TotalLength(chunks) == |chunks[0]| + TotalLength(chunks[1..])
  {
    assert chunks == [chunks[0]] + chunks[1..];
    FlattenAppend([chunks[0]], chunks[1..]);
    assert Flatten([chunks[0]]) == Flatten([]) + chunks[0];
  }

  /** A piece `x` that follows the prefix `p` of `h` sits at offset |p|. */
  lemma PieceAt<T>(h: seq<T>, p: seq<T>, x: seq<T>)
    requires |p + x| <= |h| && h[..|p + x|] == p + x
    ensures h[|p|..|p| + |x|] == x && h[..|p|] == p
  {
    assert h[|p|..|p| + |x|] == (p + x)[|p|..];
  }

  /** Chunks of one common length w hold w bytes each in total. */
  lemma {:induction false} UniformTotal(chunks: seq<seq<byte>>, w: nat)
    requires forall i :: 0 <= i < |chunks| ==> |chunks[i]| == w
    ensures TotalLength(chunks) == |chunks| * w
  {
    if |chunks| > 0 {
      UniformTotal(chunks[..|chunks| - 1], w);
    }
  }

  /** A prefix of a concatenation. */
  lemma PrefixOfConcat<T>(a: seq<T>, b: seq<T>, k: nat)
    requires k <= |a| + |b|
    ensures k <= |a| ==> (a + b)[..k] == a[..k]
    ensures k >= |a| ==> (a + b)[..k] == a + b[..k - |a|]
  {
    if k <= |a| {
      assert (a + b)[..k] == a[..k];
    } else {
      assert (a + b)[..k] == a + b[..k - |a|];
    }
  }

  // Nonlinear facts about products and quotients, proved once here.

  lemma MulNonneg(a: int, b: int)
    requires a >= 0 && b >= 0
    ensures a * b >= 0
  {
  }

  lemma MulMono(a: int, b: int, w: int)
    requires a <= b && w >= 0
    ensures a * w <= b * w
  {
    MulNonneg(b - a, w);
    assert (b - a) * w == b * w - a * w;
  }

  /** n <= m * w implies n / w <= m. */
  lemma DivBound(n: int, m: int, w: int)
    requires 0 <= n && 0 <= m && 0 < w && n <= m * w
    ensures n / w <= m
  {
    var q := n / w;
    assert w * q + n % w == n;
    if q > m {
      MulMono(m + 1, q, w);
    }
  }

  lemma MulDiv(n: int, w: int)
    requires 0 <= n && 0 < w
    ensures (n * w) / w == n && (n * w) % w == 0
  {
    var q, r := (n * w) / w, (n * w) % w;
    assert w * q + r == n * w;
    if q < n {
      MulMono(q + 1, n, w);
    } else if q > n {
      MulMono(n + 1, q, w);
    }
    assert q == n;
    assert w * n == n * w;
  }

  lemma MulStep(i: int, n: int, w: int)
    requires 0 <= i < n && 0 <= w
    ensures 0 <= i * w && i * w + w <= n * w && (i + 1) * w == i * w + w
  {
    MulNonneg(i, w);
    MulMono(i + 1, n, w);
  }
}
