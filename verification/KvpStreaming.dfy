/**
 What a Key-Value-Pair list decoder's answer says about the bytes still to come.

 The answer `is_incomplete` promises that more bytes might complete the decode. It nearly does: the one
 exception, in the format that caps values, is a length cut short whose bytes so far already spell more
 than 65535. `Doomed` is that case, and the theorem below holds with it set apart.
 */
module KvpStreaming {
  import opened Bytes
  import opened VarInt
  import opened VarIntLaws
  import opened Errors
  import opened Kvp
  import opened KvpLaws

  predicate Incomplete(e: KvpError) {
    CodecError.Kvp(e).IsIncomplete()
  }

  // ----------------------------------------------------------------------- stability

  lemma ReadIntStable(s: seq<byte>, t: seq<byte>)
    requires ReadInt(s).result.Ok?
    ensures ReadInt(s + t) == Parsed(ReadInt(s).result, ReadInt(s).rest + t)
  {
    DecodingStable(Quic, s, t);
  }

  lemma ReadBytesStable(s: seq<byte>, key: u64, capped: bool, t: seq<byte>)
    requires var r := ReadBytesValue(s, key, capped).result; r.Ok? || !Incomplete(r.error)
    ensures ReadBytesValue(s + t, key, capped) ==
            Parsed(ReadBytesValue(s, key, capped).result, ReadBytesValue(s, key, capped).rest + t)
  {
    hide ReadInt;
    ReadIntRange(s);
    ReadIntStable(s, t);
    var l := ReadInt(s);
    if l.result.value <= |l.rest| {
      assert (l.rest + t)[..l.result.value] == l.rest[..l.result.value];
      assert (l.rest + t)[l.result.value..] == l.rest[l.result.value..] + t;
    }
  }

  /** A pair decoded, or refused for good, is so whatever follows. */
  lemma PairStable(f: Format, s: seq<byte>, t: seq<byte>)
    requires DecodeOne(f, s).result.Ok? || !Incomplete(DecodeOne(f, s).result.error)
    ensures DecodeOne(f, s + t) == Parsed(DecodeOne(f, s).result, DecodeOne(f, s).rest + t)
  {
    hide ReadInt, ReadBytesValue;
    ReadIntRange(s);
    ReadIntStable(s, t);
    var k := ReadInt(s);
    if f.Current? && k.result.value % 2 == 0 {
      ReadIntRange(k.rest);
      ReadIntStable(k.rest, t);
    } else {
      ReadBytesStable(k.rest, k.result.value, f.Current?, t);
    }
  }

  lemma {:induction false} PairsStable(f: Format, n: nat, s: seq<byte>, t: seq<byte>)
    requires DecodePairs(f, n, s).result.Ok? || !Incomplete(DecodePairs(f, n, s).result.error)
    ensures DecodePairs(f, n, s + t) == Parsed(DecodePairs(f, n, s).result, DecodePairs(f, n, s).rest + t)
    decreases n
  {
    hide DecodeOne, Incomplete;
    if n > 0 {
      PairStable(f, s, t);
      if DecodeOne(f, s).result.Ok? {
        PairsStable(f, n - 1, DecodeOne(f, s).rest, t);
      }
    }
  }

  /** A pair fails by running out, or, where there is a cap, by a value past it. */
  lemma PairErrors(f: Format, s: seq<byte>)
    requires DecodeOne(f, s).result.Err?
    ensures var e := DecodeOne(f, s).result.error; Incomplete(e) || (f.Current? && e.ValueTooLong?)
  {
    hide ReadInt;
    ReadIntRange(s);
    ReadIntRange(ReadInt(s).rest);
  }

  lemma {:induction false} PairsErrors(f: Format, n: nat, s: seq<byte>)
    requires DecodePairs(f, n, s).result.Err?
    ensures var e := DecodePairs(f, n, s).result.error; Incomplete(e) || (f.Current? && e.ValueTooLong?)
    decreases n
  {
    hide DecodeOne, Incomplete;
    if DecodeOne(f, s).result.Ok? {
      PairsErrors(f, n - 1, DecodeOne(f, s).rest);
    } else {
      PairErrors(f, s);
    }
  }

  // --------------------------------------------------------------------- completions

  /** A length field cut short whose bytes so far, padded with zeros, are past the maximum. */
  predicate LengthTooLong(s: seq<byte>) {
    && s != []
    && var padded := Decoding(Quic, s + Padding(Quic, s));
       padded.result.Ok? && padded.result.value > MAX_KVP_VALUE_LEN
  }

  /** The pair being read stops inside such a length field, in the format that caps it. */
  predicate DoomedPair(f: Format, s: seq<byte>) {
    var k := ReadInt(s);
    f.Current? && k.result.Ok? && k.result.value % 2 == 1 && ReadInt(k.rest).result.Err? && LengthTooLong(k.rest)
  }

  predicate DoomedPairs(f: Format, n: nat, s: seq<byte>)
    decreases n
  {
    n > 0 && if DecodeOne(f, s).result.Ok? then DoomedPairs(f, n - 1, DecodeOne(f, s).rest) else DoomedPair(f, s)
  }

  predicate Doomed(f: Format, s: seq<byte>) {
    ReadInt(s).result.Ok? && DoomedPairs(f, ReadInt(s).result.value, ReadInt(s).rest)
  }

  lemma ReadIntPadded(s: seq<byte>)
    requires ReadInt(s).result.Err?
    ensures var p := ReadInt(s + Padding(Quic, s)); p.result.Ok? && p.rest == [] && p.result.value % 2 == 0
    ensures Decoding(Quic, s + Padding(Quic, s)).result.Ok?
    ensures ReadInt(s + Padding(Quic, s)).result == Ok(Decoding(Quic, s + Padding(Quic, s)).result.value)
  {
    hide Decoding, Padding;
    ReadIntRange(s);
    PaddingCompletes(Quic, s);
    PaddingIsRound(Quic, s);
    RoundIsEven(Decoding(Quic, s + Padding(Quic, s)).result.value);
  }

  lemma RoundIsEven(x: nat)
    requires x % 0x100 == 0
    ensures x % 2 == 0
  {
    assert x == 2 * (0x80 * (x / 0x100));
  }

  /** The bytes that finish an odd pair's value from wherever it stopped. */
  function BytesCompletion(s: seq<byte>): seq<byte> {
    var l := ReadInt(s);
    match l.result
    case Ok(len) => Zeros(if len > |l.rest| then len - |l.rest| else 0)
    case Err(_) => var pad := Padding(Quic, s); pad + match ReadInt(s + pad).result
                                                     case Ok(len) => Zeros(len)
                                                     case Err(_) => []
  }

  function PairCompletion(f: Format, s: seq<byte>): seq<byte> {
    var k := ReadInt(s);
    match k.result
    case Ok(key) => if f.Current? && key % 2 == 0 then Padding(Quic, k.rest) else BytesCompletion(k.rest)
    case Err(_) => Padding(Quic, s) + Zeros(1)
  }

  lemma BytesComplete(s: seq<byte>, key: u64, capped: bool)
    requires var r := ReadBytesValue(s, key, capped).result; r.Err? && Incomplete(r.error)
    requires capped && ReadInt(s).result.Err? ==> !LengthTooLong(s)
    ensures var r := ReadBytesValue(s + BytesCompletion(s), key, capped); r.result.Ok? && r.rest == []
  {
    hide ReadInt, Decoding, Padding;
    var l := ReadInt(s);
    if l.result.Ok? {
      ReadIntStable(s, BytesCompletion(s));
    } else {
      var pad := Padding(Quic, s);
      ReadIntPadded(s);
      var len := ReadInt(s + pad).result.value;
      ReadIntStable(s + pad, Zeros(len));
      assert s + (pad + Zeros(len)) == s + pad + Zeros(len);
      assert [] + Zeros(len) == Zeros(len);
      if s == [] {
        EmptyLength();
      }
    }
  }

  lemma EmptyLength()
    ensures ReadInt([] + Padding(Quic, [])) == Parsed(Ok(0), [])
  {
    OneByte(0);
    assert [] + Padding(Quic, []) == [0] && [0][..1] == [0];
  }

  lemma PairCompletes(f: Format, s: seq<byte>)
    requires DecodeOne(f, s).result.Err? && Incomplete(DecodeOne(f, s).result.error) && !DoomedPair(f, s)
    ensures var r := DecodeOne(f, s + PairCompletion(f, s)); r.result.Ok? && r.rest == []
  {
    hide ReadInt, ReadBytesValue, Padding, BytesCompletion;
    var k := ReadInt(s);
    if k.result.Err? {
      var pad := Padding(Quic, s);
      ReadIntPadded(s);
      ReadIntStable(s + pad, Zeros(1));
      assert s + (pad + Zeros(1)) == s + pad + Zeros(1) && [] + Zeros(1) == Zeros(1);
      ZeroByte([]);
      assert Zeros(1) + [] == Zeros(1);
      ZeroLength([], ReadInt(s + pad).result.value);
    } else {
      ReadIntStable(s, PairCompletion(f, s));
      if f.Current? && k.result.value % 2 == 0 {
        ReadIntPadded(k.rest);
      } else {
        ValueErrorsFollow(f, s);
        BytesComplete(k.rest, k.result.value, f.Current?);
      }
    }
  }

  lemma ValueErrorsFollow(f: Format, s: seq<byte>)
    requires ReadInt(s).result.Ok? && (f.Current? ==> ReadInt(s).result.value % 2 == 1)
    ensures DecodeOne(f, s) == ReadBytesValue(ReadInt(s).rest, ReadInt(s).result.value, f.Current?)
  {
  }

  lemma ZeroLength(t: seq<byte>, key: u64)
    ensures ReadBytesValue(Zeros(1) + t, key, false) == Parsed(Ok(Pair(key, Bytes([]))), t)
  {
    hide ReadInt;
    ZeroByte(t);
    assert t[..0] == [] && t[0..] == t;
  }

  lemma ZeroByte(t: seq<byte>)
    ensures ReadInt(Zeros(1) + t) == Parsed(Ok(0), t)
  {
    OneByte(0);
    assert (Zeros(1) + t)[..1] == [0] && (Zeros(1) + t)[1..] == t;
  }

  lemma {:induction false} ZeroPairs(f: Format, n: nat)
    ensures var r := DecodePairs(f, n, Zeros(2 * n)); r.result.Ok? && r.rest == []
  {
    hide ReadInt, ReadBytesValue;
    if n > 0 {
      var more := Zeros(2 * (n - 1));
      assert Zeros(2 * n) == Zeros(1) + (Zeros(1) + more);
      ZeroByte(Zeros(1) + more);
      ZeroByte(more);
      ZeroLength(more, 0);
      ZeroPairs(f, n - 1);
    }
  }

  /** Bytes that complete `n` pairs from wherever they stopped: finish the broken one, then empty pairs. */
  function PairsCompletion(f: Format, n: nat, s: seq<byte>): seq<byte>
    decreases n
  {
    if n == 0 then []
    else if DecodeOne(f, s).result.Ok? then PairsCompletion(f, n - 1, DecodeOne(f, s).rest)
    else PairCompletion(f, s) + Zeros(2 * (n - 1))
  }

  lemma {:induction false} PairsComplete(f: Format, n: nat, s: seq<byte>)
    requires DecodePairs(f, n, s).result.Err? && Incomplete(DecodePairs(f, n, s).result.error)
    requires !DoomedPairs(f, n, s)
    ensures DecodePairs(f, n, s + PairsCompletion(f, n, s)).result.Ok?
    decreases n
  {
    hide DecodeOne, DoomedPair, PairCompletion, Incomplete;
    if DecodeOne(f, s).result.Ok? {
      PairsComplete(f, n - 1, DecodeOne(f, s).rest);
      PairStable(f, s, PairsCompletion(f, n, s));
    } else {
      var c, zs := PairCompletion(f, s), Zeros(2 * (n - 1));
      PairCompletes(f, s);
      PairStable(f, s + c, zs);
      assert s + (c + zs) == s + c + zs && [] + zs == zs;
      ZeroPairs(f, n - 1);
    }
  }

  // ------------------------------------------------------------------- nothing helps

  lemma DoomedLength(s: seq<byte>, key: u64, t: seq<byte>)
    requires ReadInt(s).result.Err? && LengthTooLong(s)
    ensures ReadBytesValue(s + t, key, true).result.Err?
  {
    ReadIntRange(s);
    if Decoding(Quic, s + t).result.Ok? {
      PaddingIsLeast(Quic, s, t);
    }
  }

  lemma {:induction false} DoomedPairsFail(n: nat, s: seq<byte>, t: seq<byte>)
    requires DoomedPairs(Current, n, s)
    ensures DecodePairs(Current, n, s + t).result.Err?
    decreases n
  {
    hide ReadInt, ReadBytesValue, LengthTooLong;
    if DecodePair(s).result.Ok? {
      PairStable(Current, s, t);
      DoomedPairsFail(n - 1, DecodePair(s).rest, t);
    } else {
      var k := ReadInt(s);
      ReadIntStable(s, t);
      DoomedLength(k.rest, k.result.value, t);
    }
  }

  /** Without a cap no length dooms a list. */
  lemma {:induction false} NoCapNoDoom(n: nat, s: seq<byte>)
    ensures !DoomedPairs(D07, n, s)
    decreases n
  {
    hide DecodeOne;
    if n > 0 {
      NoCapNoDoom(n - 1, DecodeOne(D07, s).rest);
    }
  }

  // ---------------------------------------------------------------------- the contract

  /** A list decoded is decoded for good: more bytes leave it, and what it consumed, alone. */
  lemma ListStable(f: Format, s: seq<byte>, t: seq<byte>)
    requires DecodeList(f, s).result.Ok? || !Incomplete(DecodeList(f, s).result.error)
    ensures DecodeList(f, s + t) == Parsed(DecodeList(f, s).result, DecodeList(f, s).rest + t)
  {
    hide ReadInt, DecodePairs;
    ReadIntRange(s);
    ReadIntStable(s, t);
    PairsStable(f, ReadInt(s).result.value, ReadInt(s).rest, t);
  }

  /** Bytes that complete a list from wherever it stopped. */
  function ListCompletion(f: Format, s: seq<byte>): seq<byte> {
    match ReadInt(s).result
    case Ok(count) => PairsCompletion(f, count, ReadInt(s).rest)
    case Err(_) =>
      var pad := Padding(Quic, s);
      pad + match ReadInt(s + pad).result
            case Ok(count) => Zeros(2 * count)
            case Err(_) => []
  }

  lemma ListCompletes(f: Format, s: seq<byte>)
    requires DecodeList(f, s).result.Err? && Incomplete(DecodeList(f, s).result.error) && !Doomed(f, s)
    ensures DecodeList(f, s + ListCompletion(f, s)).result.Ok?
  {
    hide ReadInt, Padding, DecodePairs, PairsCompletion, DoomedPairs;
    if ReadInt(s).result.Ok? {
      ReadIntStable(s, ListCompletion(f, s));
      PairsComplete(f, ReadInt(s).result.value, ReadInt(s).rest);
    } else {
      var pad := Padding(Quic, s);
      ReadIntPadded(s);
      var count := ReadInt(s + pad).result.value;
      ReadIntStable(s + pad, Zeros(2 * count));
      assert s + (pad + Zeros(2 * count)) == s + pad + Zeros(2 * count);
      assert [] + Zeros(2 * count) == Zeros(2 * count);
      ZeroPairs(f, count);
    }
  }

  lemma DoomedFails(f: Format, s: seq<byte>, t: seq<byte>)
    requires Doomed(f, s)
    ensures f.Current? && DecodeList(f, s + t).result.Err?
  {
    hide ReadInt, DecodePairs, DoomedPairs;
    ReadIntStable(s, t);
    if f.D07? {
      NoCapNoDoom(ReadInt(s).result.value, ReadInt(s).rest);
    } else {
      DoomedPairsFail(ReadInt(s).result.value, ReadInt(s).rest, t);
    }
  }

  lemma ListErrors(f: Format, s: seq<byte>)
    requires DecodeList(f, s).result.Err?
    ensures var e := DecodeList(f, s).result.error; Incomplete(e) || (f.Current? && e.ValueTooLong?)
  {
    hide ReadInt, DecodePairs;
    ReadIntRange(s);
    if ReadInt(s).result.Ok? {
      PairsErrors(f, ReadInt(s).result.value, ReadInt(s).rest);
    }
  }

  /**
   The streaming contract, exactly. A decode that failed can still be completed if and only if it
   reported `is_incomplete` and is not doomed; the only other error is a value too long, and it is final.
   */
  lemma StreamingExact(f: Format, s: seq<byte>)
    requires DecodeList(f, s).result.Err?
    ensures var e := DecodeList(f, s).result.error;
            && (Incomplete(e) && !Doomed(f, s) <==> exists t :: DecodeList(f, s + t).result.Ok?)
            && (!Incomplete(e) ==> e.ValueTooLong? && forall t :: DecodeList(f, s + t).result == Err(e))
  {
    hide DecodeList, Doomed, Incomplete;
    var e := DecodeList(f, s).result.error;
    ListErrors(f, s);
    forall t ensures !Incomplete(e) ==> DecodeList(f, s + t).result == Err(e) {
      if !Incomplete(e) {
        ListStable(f, s, t);
      }
    }
    forall t ensures Doomed(f, s) ==> DecodeList(f, s + t).result.Err? {
      if Doomed(f, s) {
        DoomedFails(f, s, t);
      }
    }
    if Incomplete(e) && !Doomed(f, s) {
      ListCompletes(f, s);
    }
  }

  /** Drafts 07 to 10 cap no length, so there the plain contract holds: every failure is incomplete and completable. */
  lemma UncappedStreaming(s: seq<byte>)
    requires DecodeList(D07, s).result.Err?
    ensures Incomplete(DecodeList(D07, s).result.error)
    ensures exists t :: DecodeList(D07, s + t).result.Ok?
  {
    hide DecodeList, Incomplete;
    ListErrors(D07, s);
    if Doomed(D07, s) {
      DoomedFails(D07, s, []);
    }
    ListCompletes(D07, s);
  }

  /**
   The exception is real: one pair, key 1, and the first byte of a four-byte length of at least 2^24.
   The decoder reports `is_incomplete`, and no bytes whatever complete the list.
   */
  lemma IncompleteYetHopeless()
    ensures var s: seq<byte> := [0x01, 0x01, 0x81];
            && DecodeList(Current, s).result.Err? && Incomplete(DecodeList(Current, s).result.error)
            && forall t :: DecodeList(Current, s + t).result.Err?
  {
    var s: seq<byte> := [0x01, 0x01, 0x81];
    OneByteInt(1, [0x01, 0x81]);
    OneByteInt(1, [0x81]);
    assert s == [1] + [0x01, 0x81] && [0x01, 0x81] == [1] + [0x81];
    assert ReadInt([0x81]).result == Err(KvpError.VarInt(VarIntError.UnexpectedEnd));
    HopelessLength();
    assert DoomedPair(Current, [0x01, 0x81]);
    assert DecodePairs(Current, 1, [0x01, 0x81]).result == Err(KvpError.VarInt(VarIntError.UnexpectedEnd));
    forall t ensures DecodeList(Current, s + t).result.Err? {
      DoomedFails(Current, s, t);
    }
  }

  lemma HopelessLength()
    ensures LengthTooLong([0x81])
  {
    var s: seq<byte> := [0x81];
    var full := s + Padding(Quic, s);
    PaddingCompletes(Quic, s);
    assert full[..4] == full;
    FromBigEndianSplit(s, Zeros(3));
    FromBigEndianZeros(3);
    OneByte(0x81);
    ScaleTable(0x81);
    ScaleTable(0x80);
  }

  lemma OneByteInt(v: byte, t: seq<byte>)
    requires v < 0x40
    ensures ReadInt([v] + t) == Parsed(Ok(v), t)
  {
    OneByte(v);
    assert ([v] + t)[..1] == [v] && ([v] + t)[1..] == t;
  }
}
