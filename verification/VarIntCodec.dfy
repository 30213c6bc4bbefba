/** The integer encoders and decoders as the program runs them: shifts, masks and loops over a buffer. */
module VarIntCodec {
  import opened Bits
  import opened Bytes
  import opened VarInt
  import opened VarIntLaws

  /** The checked constructor accepts exactly the values the QUIC encoding can carry there and back. */
  function FromU64(v: u64): (r: Result<u64, VarIntError>)
    ensures r.Ok? <==> Decoding(Quic, Encoding(Quic, v)) == Parsed(Ok(v), [])
    ensures r == Ok(v) || r == Err(Overflow(v))
  {
    RoundTrip(Quic, v, []);
    assert Encoding(Quic, v) + [] == Encoding(Quic, v);
    if v > MAX_VARINT then Err(Overflow(v)) else Ok(v)
  }

  // ------------------------------------------------------------------------- QUIC

  function QuicEncodedLen(v: u64): (len: nat)
    ensures len == EncodedLen(Quic, v)
  {
    assert Defined(Quic, 1) && Defined(Quic, 2) && Defined(Quic, 4) && Defined(Quic, 8);
    if v <= 63 then 1 else if v <= 16383 then 2 else if v <= 1073741823 then 4 else 8
  }

  method EncodeQuic(v: u64, buf: BufMut)
    modifies buf
    ensures buf.data == old(buf.data) + Encoding(Quic, v)
  {
    var len := QuicEncodedLen(v);
    QuicBytes(v);
    match len
    case 1 => buf.PutU8(v % 0x100);
    case 2 => buf.PutBigEndian(2, Or(v % 0x1_0000, 0x4000));
    case 4 => buf.PutBigEndian(4, Or(v % 0x1_0000_0000, 0x8000_0000));
    case 8 => buf.PutBigEndian(8, Or(v, 0xC000_0000_0000_0000));
  }

  /** The bytes of each length are the length bits ORed over the value. */
  lemma QuicBytes(v: u64)
    ensures EncodedLen(Quic, v) == 1 ==> IsWord(v, 1, v % 0x100)
    ensures EncodedLen(Quic, v) == 2 ==> IsWord(v, 2, Or(v % 0x1_0000, 0x4000))
    ensures EncodedLen(Quic, v) == 4 ==> IsWord(v, 4, Or(v % 0x1_0000_0000, 0x8000_0000))
    ensures EncodedLen(Quic, v) == 8 ==> IsWord(v, 8, Or(v, 0xC000_0000_0000_0000))
  {
    hide Or, LeastLen, BigEndian;
    ScaleTable(1);
    ScaleTable(Head(Quic, EncodedLen(Quic, v)));
    assert v % 0x4000_0000_0000_0000 == Kept(Quic, v);
    KeptFits(Quic, v);
    match EncodedLen(Quic, v)
    case 2 => TwoByteWord(v);
    case 4 => FourByteWord(v);
    case 8 => EightByteWord(v);
    case _ =>
  }

  ghost predicate IsWord(v: u64, len: nat, word: nat) {
    word < Pow256(len) && Encoding(Quic, v) == BigEndian(len, word)
  }

  lemma TwoByteWord(v: nat)
    requires v < 0x4000
    ensures Or(v % 0x1_0000, 0x4000) == 0x4000 + v
  {
    hide Or, Low, Shl, Shr;
    var w := v % 0x1_0000;
    HighAndLow(w, 14);
    ShlTable(1);
    ShlTable(Shr(w, 14));
    OrSmall();
    OrMask(w, 1, 14);
    Low14(w);
  }

  lemma FourByteWord(v: nat)
    requires v < 0x4000_0000
    ensures Or(v % 0x1_0000_0000, 0x8000_0000) == 0x8000_0000 + v
  {
    hide Or, Low, Shl, Shr;
    var w := v % 0x1_0000_0000;
    HighAndLow(w, 30);
    ShlTable(2);
    ShlTable(Shr(w, 30));
    OrSmall();
    OrMask(w, 2, 30);
    Low30(w);
  }

  lemma EightByteWord(v: u64)
    ensures Or(v, 0xC000_0000_0000_0000) == 0xC000_0000_0000_0000 + v % 0x4000_0000_0000_0000
  {
    hide Or, Low, Shl, Shr;
    HighAndLow(v, 62);
    ShlTable(3);
    ShlTable(Shr(v, 62));
    OrSmall();
    OrMask(v, 3, 62);
    Low62(v);
  }

  lemma OrSmall()
    ensures Or(0, 1) == 1 && Or(0, 2) == 2
    ensures Or(0, 3) == 3 && Or(1, 3) == 3 && Or(2, 3) == 3 && Or(3, 3) == 3
  {
  }

  method DecodeQuic(buf: Buf) returns (r: Result<u64, VarIntError>)
    modifies buf
    ensures Parsed(r, buf.rest) == Decoding(Quic, old(buf.rest))
  {
    if |buf.rest| < 1 {
      return Err(UnexpectedEnd);
    }
    var first := buf.rest[0];
    var prefix := Shr(first, 6);
    var len := Shl(1, prefix);
    QuicLength(first);
    if |buf.rest| < len {
      return Err(UnexpectedEnd);
    }
    QuicValue(buf.rest[..len]);
    match len
    case 1 =>
      buf.Advance(1);
      return Ok(And(first, 0x3F));
    case 2 =>
      var v := buf.GetBigEndian(2);
      return Ok(And(v, 0x3FFF));
    case 4 =>
      var v := buf.GetBigEndian(4);
      return Ok(And(v, 0x3FFF_FFFF));
    case 8 =>
      var v := buf.GetBigEndian(8);
      return Ok(And(v, 0x3FFF_FFFF_FFFF_FFFF));
  }

  lemma QuicLength(first: byte)
    ensures Shl(1, Shr(first, 6)) == LenOf(Quic, first)
  {
    hide Shl, Shr, Low;
    HighAndLow(first, 6);
    SmallShl(1);
    SmallShl(Shr(first, 6));
  }

  /** Masking the length bits off is subtracting them. */
  lemma QuicValue(s: seq<byte>)
    requires s != [] && LenOf(Quic, s[0]) == |s|
    ensures |s| == 1 ==> ValueOf(Quic, s) == And(s[0], 0x3F)
    ensures |s| == 2 ==> ValueOf(Quic, s) == And(FromBigEndian(s), 0x3FFF)
    ensures |s| == 4 ==> ValueOf(Quic, s) == And(FromBigEndian(s), 0x3FFF_FFFF)
    ensures |s| == 8 ==> ValueOf(Quic, s) == And(FromBigEndian(s), 0x3FFF_FFFF_FFFF_FFFF)
  {
    hide And, FromBigEndian, Shl, Low, Pow2;
    var x, v := FromBigEndian(s), ValueOf(Quic, s);
    assert x == Base(Quic, |s|) + v && v < Capacity(Quic, |s|);
    ScaleTable(Head(Quic, |s|));
    if |s| == 1 {
      assert s == [s[0]];
      OneByte(s[0]);
    }
    QuicMasks(x);
  }

  lemma QuicMasks(x: nat)
    ensures And(x, 0x3F) == x % 0x40 && And(x, 0x3FFF) == x % 0x4000
    ensures And(x, 0x3FFF_FFFF) == x % 0x4000_0000
    ensures And(x, 0x3FFF_FFFF_FFFF_FFFF) == x % 0x4000_0000_0000_0000
  {
    hide And, Shl, Low;
    ShlTable(1);
    AndLow(x, 6);
    Low6(x);
    AndLow(x, 14);
    Low14(x);
    AndLow(x, 30);
    Low30(x);
    AndLow(x, 62);
    Low62(x);
  }

  // ------------------------------------------------------------------------- MoQT

  /** The codec a profile's one constant selects. */
  function MoqtCodec(sevenByte: bool): (c: Codec)
    ensures !c.Quic? && SevenByte(c) == sevenByte
  {
    if sevenByte then Moqt18 else Moqt17
  }

  method EncodedLenMoqt(v: u64, sevenByte: bool) returns (n: nat)
    ensures n == EncodedLen(MoqtCodec(sevenByte), v)
  {
    ghost var c := MoqtCodec(sevenByte);
    for len := 1 to 9
      invariant EncodedLen(c, v) == LeastLen(c, v, len)
    {
      MoqtCapacity(len);
      if (len != 7 || sevenByte) && v < Shl(1, 7 * len) {
        return len;
      }
    }
    return 9;
  }

  lemma MoqtCapacity(len: nat)
    requires 1 <= len <= 8
    ensures Shl(1, 7 * len) == Capacity(Moqt17, len) == Capacity(Moqt18, len)
  {
    hide Shl;
    ShlTable(1);
  }

  method EncodeMoqt(v: u64, buf: BufMut, sevenByte: bool)
    modifies buf
    ensures buf.data == old(buf.data) + Encoding(MoqtCodec(sevenByte), v)
  {
    hide Or, Shl, Shr, BigEndian, Encoding, LeastLen;
    var len := EncodedLenMoqt(v, sevenByte);
    ghost var start := buf.data;
    MoqtBytes(MoqtCodec(sevenByte), v);
    if len == 9 {
      buf.PutU8(0xFF);
      buf.PutBigEndian(8, v);
      assert buf.data == start + (BigEndian(1, 0xFF) + BigEndian(8, v));
      return;
    }
    var prefix := MoqtPrefix(len);
    var combined := Or(Shl(prefix, 8 * (len - 1)), v);
    ShiftBytes(combined, len);
    assert buf.data == start + BigEndian(0, Shr(combined, 8 * len));
    var i := len;
    while i > 0
      invariant 0 <= i <= len
      invariant buf.data == start + BigEndian(len - i, Shr(combined, 8 * i))
    {
      i := i - 1;
      ShiftBytes(combined, i);
      buf.PutU8(Shr(combined, 8 * i) % 0x100);
      OneMoreByte(len - i, Shr(combined, 8 * i));
    }
    assert Shr(combined, 0) == combined by { ShiftBytes(combined, 0); }
  }

  /** (len - 1) ones, then a zero, in the top `len` bits of a byte. */
  function MoqtPrefix(len: nat): (prefix: byte)
    requires 1 <= len <= 8
    ensures forall c: Codec :: !c.Quic? ==> prefix == Head(c, len)
  {
    PrefixIsHead(Moqt18, len);
    Shl(Shl(1, len - 1) - 1, 9 - len) % 0x100
  }

  lemma OneMoreByte(n: nat, x: nat)
    requires n > 0
    ensures BigEndian(n - 1, x / 0x100) + BigEndian(1, x % 0x100) == BigEndian(n, x)
  {
    OneByte(x % 0x100);
  }

  /** Shifting out one more byte is dividing by 256. */
  lemma ShiftBytes(x: nat, i: nat)
    ensures Shr(x, 8 * (i + 1)) == Shr(x, 8 * i) / 0x100
    ensures Shr(x, 0) == x && BigEndian(0, Shr(x, 8 * i)) == []
  {
    hide Shr;
    ShrShr(x, 8 * i, 8);
    Shr8(Shr(x, 8 * i));
    NoShift(x);
  }

  lemma NoShift(x: nat)
    ensures Shr(x, 0) == x
  {
  }

  /** The bytes of each length: the marker byte and the whole value, or the value under the prefix. */
  lemma MoqtBytes(c: Codec, v: u64)
    requires !c.Quic?
    ensures var len := EncodedLen(c, v);
            if len == 9 then v < Pow256(8) && Encoding(c, v) == BigEndian(1, 0xFF) + BigEndian(8, v)
            else Encoding(c, v) == BigEndian(len, Or(Shl(MoqtPrefix(len), 8 * (len - 1)), v))
  {
    hide Or, Shl, BigEndian, MoqtPrefix, Capacity, Scale;
    var len := EncodedLen(c, v);
    KeptFits(c, v);
    if len == 9 {
      NineBytes(v);
    } else {
      PrefixIsHead(c, len);
      UnderPrefix(c, len, v);
    }
  }

  lemma NineBytes(v: u64)
    ensures v < Pow256(8)
    ensures BigEndian(1, 0xFF) + BigEndian(8, v) == BigEndian(9, Scale(0xFF, 8) + v)
  {
    hide BigEndian, FromBigEndian;
    ScaleTable(1);
    ScaleTable(0xFF);
    OneByte(0xFF);
    FromBigEndianSplit([0xFF], BigEndian(8, v));
    BigEndianValue(8, v);
    BigEndianUnique([0xFF] + BigEndian(8, v));
  }

  lemma PrefixIsHead(c: Codec, len: nat)
    requires !c.Quic? && 1 <= len <= 8
    ensures Shl(1, len - 1) >= 1
    ensures Shl(Shl(1, len - 1) - 1, 9 - len) == Head(c, len)
  {
    hide Shl;
    SmallShl(1);
    SmallShl(Shl(1, len - 1) - 1);
  }

  lemma {:induction false} ScaleIsShl(x: nat, n: nat)
    ensures Scale(x, n) == Shl(x, 8 * n)
    decreases n
  {
    hide Shl;
    if n == 0 {
      SmallShl(x);
    } else {
      ScaleIsShl(x, n - 1);
      ShlShl(x, 8 * (n - 1), 8);
      SmallShl(Shl(x, 8 * (n - 1)));
    }
  }

  /** ORing the value under its length bits is adding it. */
  lemma UnderPrefix(c: Codec, len: nat, v: u64)
    requires !c.Quic? && 1 <= len <= 8 && v < Capacity(c, len)
    ensures Or(Shl(Head(c, len), 8 * (len - 1)), v) == Base(c, len) + v
  {
    hide Or, Shl, Scale;
    ScaleIsShl(Head(c, len), len - 1);
    MoqtCapacity(len);
    PrefixIsHead(c, len);
    var ones := Shl(1, len - 1) - 1;
    ShlShl(ones, 9 - len, 8 * (len - 1));
    assert (9 - len) + 8 * (len - 1) == 1 + 7 * len;
    ShlShl(ones, 1, 7 * len);
    OrShifted(Shl(ones, 1), v, 7 * len);
  }

  method DecodeMoqt(buf: Buf, sevenByte: bool) returns (r: Result<u64, VarIntError>)
    modifies buf
    ensures Parsed(r, buf.rest) == Decoding(MoqtCodec(sevenByte), old(buf.rest))
  {
    hide Or, And, Shl, FromBigEndian, LeadingOnes, Scale, Capacity, Head;
    ghost var c, all := MoqtCodec(sevenByte), buf.rest;
    if |buf.rest| < 1 {
      return Err(UnexpectedEnd);
    }
    var first := buf.rest[0];
    if first == 0xFF {
      if |buf.rest| < 9 {
        return Err(UnexpectedEnd);
      }
      buf.Advance(1);
      var v := buf.GetBigEndian(8);
      NineByteValue(c, all[..9]);
      assert all[1..][..8] == all[..9][1..] && all[1..][8..] == all[9..];
      return Ok(v);
    }
    var len := LeadingOnes(first, 8) + 1;
    MoqtLength(c, first);
    if len == 7 && !sevenByte {
      return Err(InvalidCodePoint);
    }
    if |buf.rest| < len {
      return Err(UnexpectedEnd);
    }
    MoqtMask(c, first);
    var val := And(first, Shl(1, 8 - len) - 1);
    buf.Advance(1);
    ghost var low: seq<byte> := [val];
    OneByte(val);
    assert low + all[1..1] == low;
    for i := 1 to len
      invariant buf.rest == all[i..]
      invariant val == FromBigEndian(low + all[1..i])
    {
      var b := buf.GetU8();
      ByteIn(low + all[1..i], b);
      val := Or(Shl(val, 8) % U64_LIMIT, b);
      assert low + all[1..i + 1] == low + all[1..i] + [b];
    }
    assert all[..len][1..] == all[1..len];
    MaskedValue(c, all[..len], low[0]);
    return Ok(val);
  }

  /** One turn of the reading loop: nothing is lost off the top, and the new byte goes below. */
  lemma ByteIn(s: seq<byte>, b: byte)
    requires |s| <= 7
    ensures Or(Shl(FromBigEndian(s), 8) % U64_LIMIT, b) == FromBigEndian(s + [b])
  {
    hide Or, Shl, FromBigEndian, Scale;
    var val := FromBigEndian(s);
    SevenBytesFit(|s|);
    SmallShl(val);
    SmallShl(1);
    OrShifted(val, b, 8);
    Appended(s, b);
  }

  lemma Appended(s: seq<byte>, b: byte)
    ensures FromBigEndian(s + [b]) == FromBigEndian(s) * 0x100 + b
  {
    assert (s + [b])[..|s|] == s;
  }

  lemma SevenBytesFit(n: nat)
    requires n <= 7
    ensures Scale(1, n) <= 0x100_0000_0000_0000
  {
    ScaleTable(1);
  }

  lemma MoqtLength(c: Codec, first: byte)
    requires !c.Quic? && first != 0xFF
    ensures LeadingOnes(first, 8) + 1 == LenOf(c, first) <= 8
  {
    hide LeadingOnes;
    SmallShl(1);
    LeadingOnesAt(first, 8, LenOf(c, first) - 1);
  }

  lemma {:induction false} LeadingOnesAt(b: byte, width: nat, k: nat)
    requires k <= width && k <= 7
    requires 0x100 - Pow2(8 - k) <= b < 0x100 - Pow2(7 - k)
    ensures LeadingOnes(b, width) == k
    decreases k
  {
    SmallShl(1);
    if k > 0 {
      assert Pow2(8 - k) == 2 * Pow2(7 - k) && Pow2(9 - k) == 2 * Pow2(8 - k) && Pow2(8 - k) <= 128;
      LeadingOnesAt(b * 2 % 0x100, width - 1, k - 1);
    }
  }

  lemma MoqtMask(c: Codec, first: byte)
    requires !c.Quic? && first != 0xFF
    ensures var len := LenOf(c, first);
            Shl(1, 8 - len) >= 1 && And(first, Shl(1, 8 - len) - 1) == first - Head(c, len)
  {
    hide And, Low;
    var len := LenOf(c, first);
    AndLow(first, 8 - len);
    PrefixIsHead(c, len);
    var ones := Shl(1, len - 1) - 1;
    ShlShl(ones, 1, 8 - len);
    SmallShl(1);
    LowOfSum(Shl(ones, 1), first - Head(c, len), 8 - len);
  }

  /** Reading the masked first byte and the rest is reading the whole less the length bits. */
  lemma MaskedValue(c: Codec, s: seq<byte>, low: byte)
    requires s != [] && LenOf(c, s[0]) == |s| && Defined(c, |s|)
    requires low == s[0] - Head(c, |s|)
    ensures ValueOf(c, s) == FromBigEndian([low] + s[1..])
  {
    hide FromBigEndian, Scale, Capacity;
    FirstByte(s);
    FirstByte([low] + s[1..]);
    ScaleSum(Head(c, |s|), low, |s| - 1);
  }

  lemma NineByteValue(c: Codec, s: seq<byte>)
    requires |s| == 9 && s[0] == 0xFF && !c.Quic?
    ensures ValueOf(c, s) == FromBigEndian(s[1..])
  {
    FirstByte(s);
  }

  // ------------------------------------------------------------------- either encoding

  /** One integer in whichever encoding the caller is parametric in. */
  method ReadWith(c: Codec, buf: Buf) returns (r: Result<u64, VarIntError>)
    modifies buf
    ensures Parsed(r, buf.rest) == Decoding(c, old(buf.rest))
  {
    if c.Quic? {
      r := DecodeQuic(buf);
    } else {
      r := DecodeMoqt(buf, SevenByte(c));
    }
  }
}
