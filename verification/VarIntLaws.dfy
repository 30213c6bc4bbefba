/** What the three integer encodings promise: round trips, shortest forms, and how a prefix code streams. */
module VarIntLaws {
  import opened Bytes
  import opened VarInt

  /** How an encoding is built: the value above its length bits, announced by the first byte. */
  lemma EncodingShape(c: Codec, v: u64)
    ensures var s := Encoding(c, v); var len := EncodedLen(c, v);
            && |s| == len && LenOf(c, s[0]) == len && Defined(c, len)
            && FromBigEndian(s) == Base(c, len) + Kept(c, v)
  {
    hide BigEndian, FromBigEndian, LeastLen, Base, Kept, Capacity, LenOf, Scale;
    var len := EncodedLen(c, v);
    KeptFits(c, v);
    TableTop(c, len);
    BigEndianValue(len, Base(c, len) + Kept(c, v));
    ValueAboveBase(c, Encoding(c, v));
  }

  lemma KeptFits(c: Codec, v: u64)
    ensures Kept(c, v) < Capacity(c, EncodedLen(c, v))
  {
  }

  lemma TableTop(c: Codec, len: nat)
    requires Defined(c, len)
    ensures Base(c, len) + Capacity(c, len) <= Pow256(len)
  {
    var h, w := Head(c, len), Width(c, len);
    TableRow(c, len, 0);
    ScaleSum(h, w, len - 1);
    ScaleSum(h + w, 0x100 - (h + w), len - 1);
    ScaleScale(1, 1, len - 1);
  }

  /** What any 64-bit value reads back as, with whatever follows it left unread. */
  lemma EncodingReads(c: Codec, v: u64, tail: seq<byte>)
    ensures Decoding(c, Encoding(c, v) + tail) == Parsed(Ok(Kept(c, v)), tail)
  {
    var s, len := Encoding(c, v), EncodedLen(c, v);
    EncodingShape(c, v);
    assert (s + tail)[..len] == s && (s + tail)[len..] == tail;
  }

  /** Decoding inverts encoding exactly on the values the codec can carry. */
  lemma RoundTrip(c: Codec, v: u64, tail: seq<byte>)
    ensures Decoding(c, Encoding(c, v) + tail) == Parsed(Ok(v), tail) <==> v <= MaxValue(c)
  {
    EncodingReads(c, v, tail);
  }

  /** Past 2^62 - 1 the QUIC encoder writes an unrelated number: the value modulo 2^62. */
  lemma QuicReadsModulo(v: u64, tail: seq<byte>)
    ensures Decoding(Quic, Encoding(Quic, v) + tail) == Parsed(Ok(v % 0x4000_0000_0000_0000), tail)
  {
    EncodingReads(Quic, v, tail);
  }

  /** The length written is the least the codec defines that holds the value. */
  lemma LeastLength(c: Codec, v: u64, len: nat)
    requires v <= MaxValue(c) && Defined(c, len) && v < Capacity(c, len)
    ensures Defined(c, |Encoding(c, v)|) && v < Capacity(c, |Encoding(c, v)|) && |Encoding(c, v)| <= len
  {
  }

  /** Every value a decoder answers is one its codec can carry, and it consumed a defined length. */
  lemma DecodedRange(c: Codec, s: seq<byte>)
    requires Decoding(c, s).result.Ok?
    ensures Decoding(c, s).result.value <= MaxValue(c)
    ensures s != [] && LenOf(c, s[0]) <= |s| && Decoding(c, s).rest == s[LenOf(c, s[0])..]
    ensures |Decoding(c, s).rest| < |s|
  {
  }

  /** No complete encoding of a value is shorter than the encoder's, and none as short is different. */
  lemma ShortestEncoding(c: Codec, s: seq<byte>)
    requires Decoding(c, s).result.Ok?
    ensures var n := |s| - |Decoding(c, s).rest|; var e := Encoding(c, Decoding(c, s).result.value);
            |e| <= n <= |s| && (|e| == n <==> e == s[..n])
  {
    var n, v := LenOf(c, s[0]), Decoding(c, s).result.value;
    DecodedRange(c, s);
    LeastLength(c, v, n);
    if |Encoding(c, v)| == n {
      SameNumberSameBytes(c, v, s[..n]);
    }
  }

  lemma SameNumberSameBytes(c: Codec, v: u64, s: seq<byte>)
    requires v <= MaxValue(c) && |s| == EncodedLen(c, v)
    requires FromBigEndian(s) == Base(c, |s|) + v
    ensures s == Encoding(c, v)
  {
    hide BigEndian, FromBigEndian, LeastLen, Base;
    BigEndianUnique(s);
  }

  // ------------------------------------------------------------------- prefix code

  /** Bytes appended to a finished read change nothing but what is left over. */
  lemma DecodingStable(c: Codec, s: seq<byte>, t: seq<byte>)
    requires Decoding(c, s).result != Err(UnexpectedEnd)
    ensures Decoding(c, s + t).result == Decoding(c, s).result
    ensures Decoding(c, s + t).rest == Decoding(c, s).rest + t
  {
    var len := LenOf(c, s[0]);
    if len <= |s| {
      assert (s + t)[..len] == s[..len] && (s + t)[len..] == s[len..] + t;
    }
  }

  /** The zero bytes that finish a truncated integer. */
  function Padding(c: Codec, s: seq<byte>): seq<byte> {
    if s == [] then Zeros(1)
    else if LenOf(c, s[0]) > |s| then Zeros(LenOf(c, s[0]) - |s|)
    else []
  }

  lemma PaddingCompletes(c: Codec, s: seq<byte>)
    requires Decoding(c, s).result == Err(UnexpectedEnd)
    ensures Padding(c, s) != []
    ensures var d := Decoding(c, s + Padding(c, s)); d.result.Ok? && d.rest == []
  {
    hide FromBigEndian, Capacity, Base, Head;
    var full := s + Padding(c, s);
    assert LenOf(c, full[0]) == |full| && Defined(c, |full|);
    assert full[..|full|] == full;
  }

  /** The bytes that are missing are the low ones. */
  lemma PaddingIsRound(c: Codec, s: seq<byte>)
    requires Decoding(c, s).result == Err(UnexpectedEnd)
    ensures Decoding(c, s + Padding(c, s)).result.Ok?
    ensures Decoding(c, s + Padding(c, s)).result.value % 0x100 == 0
  {
    hide FromBigEndian, Base, Decoding, LenOf, Defined;
    var full := s + Padding(c, s);
    PaddingCompletes(c, s);
    WholeNumber(c, full);
    LastIsZero(c, s);
    TailZeroRound(full);
    BaseRound(c, |full|);
  }

  lemma LastIsZero(c: Codec, s: seq<byte>)
    requires Padding(c, s) != []
    ensures var full := s + Padding(c, s); full[|full| - 1] == 0
  {
    hide LenOf;
  }

  /** A read that takes all of its bytes spells its value above its length bits. */
  lemma WholeNumber(c: Codec, s: seq<byte>)
    requires Decoding(c, s).result.Ok? && Decoding(c, s).rest == []
    ensures s != [] && Defined(c, |s|) && FromBigEndian(s) == Base(c, |s|) + Decoding(c, s).result.value
  {
    hide FromBigEndian, Base, Capacity, Head;
    assert s[..|s|] == s;
  }

  lemma BaseRound(c: Codec, len: nat)
    requires Defined(c, len)
    ensures Base(c, len) % 0x100 == 0
  {
    assert len > 1 ==> Base(c, len) == 0x100 * Scale(Head(c, len), len - 2);
  }

  lemma TailZeroRound(s: seq<byte>)
    requires s != [] && s[|s| - 1] == 0
    ensures FromBigEndian(s) % 0x100 == 0
  {
  }

  /**
   An integer decode that has not succeeded reports the end of the buffer exactly when more bytes
   could complete it; an undefined code point is final; and an error consumes nothing.
   */
  lemma PrefixCode(c: Codec, s: seq<byte>)
    requires Decoding(c, s).result.Err?
    ensures Decoding(c, s).rest == s
    ensures Decoding(c, s).result == Err(UnexpectedEnd) <==> exists t :: Decoding(c, s + t).result.Ok?
    ensures Decoding(c, s).result != Err(UnexpectedEnd) ==>
              c == Moqt17 && forall t :: Decoding(c, s + t).result == Err(InvalidCodePoint)
  {
    if Decoding(c, s).result == Err(UnexpectedEnd) {
      PaddingCompletes(c, s);
    } else {
      forall t ensures Decoding(c, s + t).result == Err(InvalidCodePoint) {
        DecodingStable(c, s, t);
      }
    }
  }

  /** Zero padding is the least any completion of a truncated integer can be worth. */
  lemma PaddingIsLeast(c: Codec, s: seq<byte>, t: seq<byte>)
    requires s != [] && Decoding(c, s).result == Err(UnexpectedEnd)
    requires Decoding(c, s + t).result.Ok?
    ensures Decoding(c, s + Padding(c, s)).result.value <= Decoding(c, s + t).result.value
  {
    var pad, more := Padding(c, s), t[..LenOf(c, s[0]) - |s|];
    assert (s + t)[..LenOf(c, s[0])] == s + more && (s + pad)[..LenOf(c, s[0])] == s + pad;
    FromBigEndianSplit(s, pad);
    FromBigEndianSplit(s, more);
    FromBigEndianZeros(|pad|);
  }

  // -------------------------------------------------------------- across encodings

  /** On any bytes at all, draft-17's reader is draft-18's with the seven-byte length refused. */
  lemma Moqt17RefinesMoqt18(s: seq<byte>)
    ensures Decoding(Moqt17, s) ==
            if s != [] && 0xFC <= s[0] < 0xFE then Parsed(Err(InvalidCodePoint), s) else Decoding(Moqt18, s)
  {
  }

  /** Draft-17's bytes mean the same to a draft-18 reader. */
  lemma Moqt17ReadsUnderMoqt18(v: u64, tail: seq<byte>)
    ensures Decoding(Moqt18, Encoding(Moqt17, v) + tail) == Parsed(Ok(v), tail)
  {
    EncodingShape(Moqt17, v);
    RoundTrip(Moqt17, v, tail);
    Moqt17RefinesMoqt18(Encoding(Moqt17, v) + tail);
  }

  /** Draft-18's bytes mean the same to a draft-17 reader except where they take seven bytes. */
  lemma Moqt18ReadsUnderMoqt17(v: u64, tail: seq<byte>)
    ensures var s := Encoding(Moqt18, v) + tail;
            Decoding(Moqt17, s) ==
            if 0x400_0000_0000 <= v < 0x2_0000_0000_0000 then Parsed(Err(InvalidCodePoint), s) else Parsed(Ok(v), tail)
  {
    EncodingShape(Moqt18, v);
    RoundTrip(Moqt18, v, tail);
    Moqt17RefinesMoqt18(Encoding(Moqt18, v) + tail);
    SevenByteRange(v);
  }

  lemma SevenByteRange(v: u64)
    ensures EncodedLen(Moqt18, v) == 7 <==> 0x400_0000_0000 <= v < 0x2_0000_0000_0000
  {
    hide Head;
    assert forall l :: 1 <= l < EncodedLen(Moqt18, v) && Defined(Moqt18, l) ==> v >= Capacity(Moqt18, l);
    assert Defined(Moqt18, 6) && Defined(Moqt18, 7);
  }

  // ------------------------------------------------------------------- on the wire

  lemma LengthIs(c: Codec, v: u64, len: nat)
    requires v <= MaxValue(c) && Defined(c, len) && v < Capacity(c, len)
    requires forall l :: 1 <= l < len && Defined(c, l) ==> v >= Capacity(c, l)
    ensures |Encoding(c, v)| == EncodedLen(c, v) == len
    ensures FromBigEndian(Encoding(c, v)) == Base(c, len) + v
  {
    hide FromBigEndian, Base, Capacity, Encoding;
    EncodingShape(c, v);
    assert forall l :: 1 <= l < EncodedLen(c, v) && Defined(c, l) ==> v >= Capacity(c, l);
    LeastLength(c, v, len);
  }

  /** The QUIC forms: one, two, four or eight bytes, the length's logarithm in the top two bits. */
  lemma QuicWire(v: u64)
    requires v < 0x4000_0000_0000_0000
    ensures var e := Encoding(Quic, v); var x := FromBigEndian(e);
            if v < 0x40 then |e| == 1 && x == v
            else if v < 0x4000 then |e| == 2 && x == 0x4000 + v
            else if v < 0x4000_0000 then |e| == 4 && x == 0x8000_0000 + v
            else |e| == 8 && x == 0xC000_0000_0000_0000 + v
  {
    hide FromBigEndian, Encoding, Scale;
    var len := if v < 0x40 then 1 else if v < 0x4000 then 2 else if v < 0x4000_0000 then 4 else 8;
    LengthIs(Quic, v, len);
    ScaleTable(Head(Quic, len));
  }

  /** MoQT's own forms: as many leading ones as bytes follow the first, and draft-17 without the seven-byte one. */
  lemma MoqtWire(c: Codec, v: u64)
    requires c == Moqt17 || c == Moqt18
    ensures var e := Encoding(c, v); var x := FromBigEndian(e);
            if v < 0x80 then |e| == 1 && x == v
            else if v < 0x4000 then |e| == 2 && x == 0x8000 + v
            else if v < 0x20_0000 then |e| == 3 && x == 0xC0_0000 + v
            else if v < 0x1000_0000 then |e| == 4 && x == 0xE000_0000 + v
            else if v < 0x8_0000_0000 then |e| == 5 && x == 0xF0_0000_0000 + v
            else if v < 0x400_0000_0000 then |e| == 6 && x == 0xF800_0000_0000 + v
            else if v < 0x2_0000_0000_0000 && c == Moqt18 then |e| == 7 && x == 0xFC_0000_0000_0000 + v
            else if v < 0x100_0000_0000_0000 then |e| == 8 && x == 0xFE00_0000_0000_0000 + v
            else |e| == 9 && x == 0xFF_0000_0000_0000_0000 + v
  {
    hide FromBigEndian, Encoding, Scale;
    var len :=
      if v < 0x80 then 1 else if v < 0x4000 then 2 else if v < 0x20_0000 then 3 else if v < 0x1000_0000 then 4
      else if v < 0x8_0000_0000 then 5 else if v < 0x400_0000_0000 then 6
      else if v < 0x2_0000_0000_0000 && c == Moqt18 then 7 else if v < 0x100_0000_0000_0000 then 8 else 9;
    LengthIs(c, v, len);
    ScaleTable(Head(c, len));
  }
}
