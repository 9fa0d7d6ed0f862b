/** Little-endian byte encodings of fixed-width integers, low byte first.
    Byte k of a value v is `byte(v >> 8k)`: an arithmetic shift (floor
    division) followed by keeping the low eight bits (Euclidean `% 256`),
    exactly what Go does for both signed and unsigned operands. */
module LittleEndian {
  import opened Base

  function Le16(v: int): (bs: seq<byte>)
    ensures |bs| == 2
  {
    [v % 0x100, (v / 0x100) % 0x100]
  }

  /** Shifting by 8k bits is k successive shifts by 8, so the bytes of a
      wider encoding are the low byte followed by the bytes of `v >> 8`. */
  function Le24(v: int): (bs: seq<byte>)
    ensures |bs| == 3
  {
    [v % 0x100] + Le16(v / 0x100)
  }

  function Le32(v: int): (bs: seq<byte>)
    ensures |bs| == 4
  {
    [v % 0x100] + Le24(v / 0x100)
  }

  /** The bytes of Le32 are Go's `byte(v)`, `byte(v >> 8)`, `byte(v >> 16)`
      and `byte(v >> 24)`. */
  lemma Le32Bytes(v: int)
    ensures Le32(v) == [v % 0x100, (v / 0x100) % 0x100, (v / 0x1_0000) % 0x100, (v / 0x100_0000) % 0x100]
  {
    var q1 := v / 0x100;
    var q2 := q1 / 0x100;
    assert v / 0x1_0000 == q2;
    assert v / 0x100_0000 == q2 / 0x100;
  }

  /** The unsigned value of two, three or four little-endian bytes. */
  function U16(bs: seq<byte>): (u: int)
    requires |bs| == 2
    ensures 0 <= u < 0x1_0000
  {
    bs[0] + 0x100 * (bs[1] as int)
  }

  function U24(bs: seq<byte>): (u: int)
    requires |bs| == 3
    ensures 0 <= u < 0x100_0000
  {
    bs[0] + 0x100 * U16(bs[1..])
  }

  function U32(bs: seq<byte>): (u: int)
    requires |bs| == 4
    ensures 0 <= u < 0x1_0000_0000
  {
    bs[0] + 0x100 * U24(bs[1..])
  }

  /** Splitting off the low byte: `v % 256 + 256 * ((v / 256) % m) == v % (256 * m)`. */
  lemma ModSplit16(v: int)
    ensures v % 0x100 + 0x100 * ((v / 0x100) % 0x100) == v % 0x1_0000
  {
    var q, r := v / 0x100, v % 0x100;
    var a, b := q / 0x100, q % 0x100;
    assert q == 0x100 * a + b;
    assert v == 0x1_0000 * a + (0x100 * b + r);
  }

  lemma ModSplit24(v: int)
    ensures v % 0x100 + 0x100 * ((v / 0x100) % 0x1_0000) == v % 0x100_0000
  {
    var q, r := v / 0x100, v % 0x100;
    var a, b := q / 0x1_0000, q % 0x1_0000;
    assert q == 0x1_0000 * a + b;
    assert v == 0x100_0000 * a + (0x100 * b + r);
  }

  lemma ModSplit32(v: int)
    ensures v % 0x100 + 0x100 * ((v / 0x100) % 0x100_0000) == v % 0x1_0000_0000
  {
    var q, r := v / 0x100, v % 0x100;
    var a, b := q / 0x100_0000, q % 0x100_0000;
    assert q == 0x100_0000 * a + b;
    assert v == 0x1_0000_0000 * a + (0x100 * b + r);
    assert 0 <= 0x100 * b + r < 0x1_0000_0000;
  }

  /** Reading the encoding back recovers the value modulo the width. */
  lemma Le16Decode(v: int)
    ensures U16(Le16(v)) == v % 0x1_0000
  {
    ModSplit16(v);
  }

  lemma Le24Decode(v: int)
    ensures U24(Le24(v)) == v % 0x100_0000
  {
    assert Le24(v)[1..] == Le16(v / 0x100);
    Le16Decode(v / 0x100);
    ModSplit24(v);
  }

  lemma Le32Decode(v: int)
    ensures U32(Le32(v)) == v % 0x1_0000_0000
  {
    assert Le32(v)[1..] == Le24(v / 0x100);
    Le24Decode(v / 0x100);
    ModSplit32(v);
  }

  /** Encoding the value read from some bytes gives those bytes back. */
  lemma Le16Encode(bs: seq<byte>)
    requires |bs| == 2
    ensures Le16(U16(bs)) == bs
  {
  }

  lemma Le24Encode(bs: seq<byte>)
    requires |bs| == 3
    ensures Le24(U24(bs)) == bs
  {
    var u := U24(bs);
    assert u / 0x100 == U16(bs[1..]);
    Le16Encode(bs[1..]);
  }

  lemma Le32Encode(bs: seq<byte>)
    requires |bs| == 4
    ensures Le32(U32(bs)) == bs
  {
    var u := U32(bs);
    assert u / 0x100 == U24(bs[1..]);
    Le24Encode(bs[1..]);
  }

  /** The encodings only see the value modulo their width. */
  lemma PeriodicLe16(u: int)
    ensures Le16(u - 0x1_0000) == Le16(u)
  {
    assert (u - 0x1_0000) / 0x100 == u / 0x100 - 0x100;
  }

  lemma PeriodicLe24(u: int)
    ensures Le24(u - 0x100_0000) == Le24(u)
  {
    assert (u - 0x100_0000) / 0x100 == u / 0x100 - 0x1_0000;
    PeriodicLe16(u / 0x100);
  }

  lemma PeriodicLe32(u: int)
    ensures Le32(u - 0x1_0000_0000) == Le32(u)
  {
    assert (u - 0x1_0000_0000) / 0x100 == u / 0x100 - 0x100_0000;
    PeriodicLe24(u / 0x100);
  }
}
