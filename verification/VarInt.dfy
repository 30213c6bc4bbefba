/**
 The three variable-length integers: RFC 9000 section 16, and MoQT's own as draft-17 introduced it and
 as draft-18 revised it. One table describes all three; `Encoding` and `Decoding` are read off the table,
 and the methods of `VarIntCodec`, which follow the shifts and masks of the program, are proved against them.
 */
module VarInt {
  import opened Bytes

  /** Which integer encoding a draft uses. */
  datatype Codec = Quic | Moqt17 | Moqt18

  datatype VarIntError = Overflow(v: u64) | UnexpectedEnd | InvalidCodePoint

  const MAX_VARINT := 0x3FFF_FFFF_FFFF_FFFF

  predicate SevenByte(c: Codec) {
    c.Moqt18?
  }

  // ---------------------------------------------------------------- the table

  /** Whether the codec defines an encoding of this length. */
  predicate Defined(c: Codec, len: nat) {
    match c
    case Quic => len == 1 || len == 2 || len == 4 || len == 8
    case Moqt17 => 1 <= len <= 9 && len != 7
    case Moqt18 => 1 <= len <= 9
  }

  function MaxLen(c: Codec): nat {
    if c.Quic? then 8 else 9
  }

  /** How many values an encoding of this length can carry. */
  function Capacity(c: Codec, len: nat): (cap: nat)
    ensures cap > 0
  {
    if c.Quic? then
      if len <= 1 then 0x40 else if len == 2 then 0x4000 else if len <= 4 then 0x4000_0000 else 0x4000_0000_0000_0000
    else if len <= 1 then 0x80
    else if len == 2 then 0x4000
    else if len == 3 then 0x20_0000
    else if len == 4 then 0x1000_0000
    else if len == 5 then 0x8_0000_0000
    else if len == 6 then 0x400_0000_0000
    else if len == 7 then 0x2_0000_0000_0000
    else if len == 8 then 0x100_0000_0000_0000
    else U64_LIMIT
  }

  /** The first byte of the smallest value of this length: the length bits with every value bit clear. */
  function Head(c: Codec, len: nat): byte {
    if c.Quic? then
      if len <= 1 then 0 else if len == 2 then 0x40 else if len <= 4 then 0x80 else 0xC0
    else if len <= 1 then 0
    else if len == 2 then 0x80
    else if len == 3 then 0xC0
    else if len == 4 then 0xE0
    else if len == 5 then 0xF0
    else if len == 6 then 0xF8
    else if len == 7 then 0xFC
    else if len == 8 then 0xFE
    else 0xFF
  }

  /** How many first bytes announce a length. */
  function Width(c: Codec, len: nat): (w: nat)
    requires Defined(c, len)
    ensures w > 0
  {
    if c.Quic? then 0x40
    else if len <= 7 then Head(c, len + 1) - Head(c, len)
    else 1
  }

  /** The smallest number whose `len` big-endian bytes open with that length's bits. */
  function Base(c: Codec, len: nat): nat
    requires len > 0
  {
    Scale(Head(c, len), len - 1)
  }

  /** The length a first byte announces, defined or not. */
  function LenOf(c: Codec, first: byte): (len: nat)
    ensures 1 <= len <= MaxLen(c)
  {
    if c.Quic? then
      if first < 0x40 then 1 else if first < 0x80 then 2 else if first < 0xC0 then 4 else 8
    else if first < 0x80 then 1
    else if first < 0xC0 then 2
    else if first < 0xE0 then 3
    else if first < 0xF0 then 4
    else if first < 0xF8 then 5
    else if first < 0xFC then 6
    else if first < 0xFE then 7
    else if first < 0xFF then 8
    else 9
  }

  /** The largest value the codec can carry. */
  function MaxValue(c: Codec): u64 {
    if c.Quic? then MAX_VARINT else U64_LIMIT - 1
  }

  // ---------------------------------------------------------- the specification

  /** The least defined length from `len` up that holds `v`, or the last length when none does. */
  function LeastLen(c: Codec, v: u64, len: nat): (n: nat)
    requires 1 <= len <= MaxLen(c)
    ensures len <= n <= MaxLen(c) && Defined(c, n)
    ensures if v <= MaxValue(c) then v < Capacity(c, n) else n == MaxLen(c)
    ensures forall l :: len <= l < n && Defined(c, l) ==> v >= Capacity(c, l)
    decreases MaxLen(c) - len
  {
    if len == MaxLen(c) || (Defined(c, len) && v < Capacity(c, len)) then len else LeastLen(c, v, len + 1)
  }

  function EncodedLen(c: Codec, v: u64): (n: nat)
    ensures 1 <= n <= MaxLen(c) && Defined(c, n)
    ensures if v <= MaxValue(c) then v < Capacity(c, n) else n == MaxLen(c)
  {
    LeastLen(c, v, 1)
  }

  /** The value bits an encoding has room for: QUIC's longest form drops the top two. */
  function Kept(c: Codec, v: u64): (r: u64)
    ensures v <= MaxValue(c) ==> r == v
    ensures r <= MaxValue(c)
  {
    if c.Quic? then v % 0x4000_0000_0000_0000 else v
  }

  function Encoding(c: Codec, v: u64): (s: seq<byte>)
    ensures |s| == EncodedLen(c, v)
  {
    BigEndian(EncodedLen(c, v), Base(c, EncodedLen(c, v)) + Kept(c, v))
  }

  /** What a complete encoding carries: the number it spells, less its length bits. */
  function ValueOf(c: Codec, s: seq<byte>): (v: u64)
    requires s != [] && LenOf(c, s[0]) == |s| && Defined(c, |s|)
    ensures v < Capacity(c, |s|)
    ensures FromBigEndian(s) == Base(c, |s|) + v
  {
    ValueAboveBase(c, s);
    FromBigEndian(s) - Base(c, |s|)
  }

  function Decoding(c: Codec, s: seq<byte>): (p: Parsed<u64, VarIntError>)
    ensures |p.rest| <= |s|
  {
    if s == [] then Parsed(Err(UnexpectedEnd), s)
    else
      var len := LenOf(c, s[0]);
      if !Defined(c, len) then Parsed(Err(InvalidCodePoint), s)
      else if |s| < len then Parsed(Err(UnexpectedEnd), s)
      else Parsed(Ok(ValueOf(c, s[..len])), s[len..])
  }

  // ------------------------------------------------------------------ the table's facts

  /** A length's first bytes are a run of `Width`, and together they fill its capacity. */
  lemma TableRow(c: Codec, len: nat, first: byte)
    requires Defined(c, len)
    ensures LenOf(c, first) == len <==> Head(c, len) <= first < Head(c, len) + Width(c, len)
    ensures Capacity(c, len) == Scale(Width(c, len), len - 1)
    ensures Head(c, len) + Width(c, len) <= 0x100
  {
    ScaleTable(Width(c, len));
  }

  /** Every complete encoding spells a number in its length's range. */
  lemma ValueAboveBase(c: Codec, s: seq<byte>)
    requires s != [] && Defined(c, |s|)
    ensures LenOf(c, s[0]) == |s| <==> Base(c, |s|) <= FromBigEndian(s) < Base(c, |s|) + Capacity(c, |s|)
    ensures Capacity(c, |s|) <= U64_LIMIT
  {
    hide Scale, FromBigEndian, LenOf, Head, Width;
    FirstByte(s);
    TableRow(c, |s|, s[0]);
    InRow(s[0], Head(c, |s|), Width(c, |s|), |s| - 1, FromBigEndian(s[1..]));
  }

  /** A number lies in a row of first bytes exactly when its own first byte does. */
  lemma InRow(first: nat, head: nat, width: nat, n: nat, rest: nat)
    requires rest < Scale(1, n)
    ensures head <= first < head + width <==>
            Scale(head, n) <= Scale(first, n) + rest < Scale(head, n) + Scale(width, n)
  {
    ScaleSum(head, width, n);
    AtOrAbove(first, head, n, rest);
    AtOrAbove(first, head + width, n, rest);
  }

  lemma AtOrAbove(first: nat, bound: nat, n: nat, rest: nat)
    requires rest < Scale(1, n)
    ensures bound <= first <==> Scale(bound, n) <= Scale(first, n) + rest
  {
    hide Scale;
    if bound <= first {
      ScaleSum(bound, first - bound, n);
    } else {
      ScaleStep(first, bound, n);
    }
  }

  /** Numbers a step apart stay at least a step apart when scaled. */
  lemma ScaleStep(a: nat, b: nat, n: nat)
    requires a < b
    ensures Scale(b, n) >= Scale(a, n) + Scale(1, n)
  {
    hide Scale;
    ScaleSum(a, 1, n);
    ScaleSum(a + 1, b - (a + 1), n);
  }
}
