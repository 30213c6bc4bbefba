/** Round trips of Key-Value-Pair lists, on exactly the lists that survive them. */
module KvpLaws {
  import opened Bytes
  import opened VarInt
  import opened VarIntLaws
  import opened Errors
  import opened FieldLists
  import opened Kvp

  /** The pairs a decoder can answer. */
  predicate PairInDomain(p: Pair) {
    && p.key <= MAX_VARINT
    && match p.value
       case Varint(v) => p.key % 2 == 0 && v <= MAX_VARINT
       case Bytes(b) => p.key % 2 == 1 && |b| <= 65535
  }

  predicate InDomain(ps: seq<Pair>) {
    |ps| <= MAX_VARINT && forall i :: 0 <= i < |ps| ==> PairInDomain(ps[i])
  }

  /** A pair whose value has the shape its key asks for and whose integers QUIC can write. */
  predicate PairShaped(p: Pair) {
    && p.key <= MAX_VARINT
    && match p.value
       case Varint(v) => p.key % 2 == 0 && v <= MAX_VARINT
       case Bytes(b) => p.key % 2 == 1 && |b| <= MAX_VARINT
  }

  predicate Shaped(ps: seq<Pair>) {
    |ps| <= MAX_VARINT && forall i :: 0 <= i < |ps| ==> PairShaped(ps[i])
  }

  // -------------------------------------------------------------------- reading one field

  lemma ReadIntOfEncoding(v: u64, t: seq<byte>)
    requires v <= MAX_VARINT
    ensures ReadInt(Encoding(Quic, v) + t) == Parsed(Ok(v), t)
  {
    RoundTrip(Quic, v, t);
  }

  lemma ReadIntRange(s: seq<byte>)
    ensures ReadInt(s).result.Ok? ==> ReadInt(s).result.value <= MAX_VARINT
    ensures ReadInt(s).result.Err? ==> ReadInt(s) == Parsed(Err(KvpError.VarInt(VarIntError.UnexpectedEnd)), s)
    ensures |ReadInt(s).rest| <= |s|
  {
    if Decoding(Quic, s).result.Ok? {
      DecodedRange(Quic, s);
    }
  }

  /** A byte value comes back whole, or is refused for its length before any of it is read. */
  lemma ReadBytesOfEncoding(key: u64, b: Vec, t: seq<byte>, capped: bool)
    requires |b| <= MAX_VARINT
    ensures ReadBytesValue(Encoding(Quic, |b|) + b + t, key, capped) ==
            if capped && |b| > MAX_KVP_VALUE_LEN then Parsed(Err(ValueTooLong(|b|)), b + t)
            else Parsed(Ok(Pair(key, Bytes(b))), t)
  {
    hide Encoding, ReadInt;
    assert Encoding(Quic, |b|) + b + t == Encoding(Quic, |b|) + (b + t);
    ReadIntOfEncoding(|b|, b + t);
    assert (b + t)[..|b|] == b && (b + t)[|b|..] == t;
  }

  lemma PairReads(p: Pair, t: seq<byte>)
    requires PairShaped(p)
    ensures DecodePair(EncodePair(p) + t) ==
            if p.value.Bytes? && |p.value.bytes| > MAX_KVP_VALUE_LEN
            then Parsed(Err(ValueTooLong(|p.value.bytes|)), p.value.bytes + t)
            else Parsed(Ok(p), t)
  {
    hide Encoding, ReadInt, ReadBytesValue;
    match p.value
    case Varint(v) =>
      assert EncodePair(p) + t == Encoding(Quic, p.key) + (Encoding(Quic, v) + t);
      ReadIntOfEncoding(p.key, Encoding(Quic, v) + t);
      ReadIntOfEncoding(v, t);
    case Bytes(b) =>
      assert EncodePair(p) + t == Encoding(Quic, p.key) + (Encoding(Quic, |b|) + b + t);
      ReadIntOfEncoding(p.key, Encoding(Quic, |b|) + b + t);
      ReadBytesOfEncoding(p.key, b, t, true);
  }

  lemma PairReadsD07(p: Pair, t: seq<byte>)
    requires PairWritableD07(p)
    ensures DecodePairD07(EncodePairD07(p) + t) == Parsed(Ok(Normal(p)), t)
  {
    hide Encoding, ReadInt, ReadBytesValue;
    var b := Normal(p).value.bytes;
    assert EncodePairD07(p) + t == Encoding(Quic, p.key) + (Encoding(Quic, |b|) + b + t) by {
      EncodedLength(p);
    }
    ReadIntOfEncoding(p.key, Encoding(Quic, |b|) + b + t);
    ReadBytesOfEncoding(p.key, b, t, false);
  }

  lemma EncodedLength(p: Pair)
    ensures var b := Normal(p).value.bytes;
            EncodePairD07(p) == Encoding(Quic, p.key) + (Encoding(Quic, |b|) + b)
  {
  }

  // -------------------------------------------------------------------------- whole lists

  lemma {:induction false} EncodePairsCons(f: Format, ps: seq<Pair>)
    requires ps != []
    ensures EncodePairs(f, ps) == EncodeOne(f, ps[0]) + EncodePairs(f, ps[1..])
  {
    hide EncodeOne;
    var init := ps[..|ps| - 1];
    if init != [] {
      EncodePairsCons(f, init);
      assert ps[1..][..|ps[1..]| - 1] == init[1..];
    } else {
      assert EncodePairs(f, ps[1..]) == [];
    }
  }

  lemma {:induction false} PairsRead(ps: seq<Pair>, t: seq<byte>)
    requires forall i :: 0 <= i < |ps| ==> PairShaped(ps[i])
    ensures var r := DecodePairs(Current, |ps|, EncodePairs(Current, ps) + t);
            match FirstTooLong(ps)
            case None => r == Parsed(Ok(ps), t)
            case Some(len) => r.result == Err(ValueTooLong(len))
  {
    hide EncodePair, DecodePair, PairShaped;
    if ps != [] {
      EncodePairsCons(Current, ps);
      assert EncodePairs(Current, ps) + t == EncodePair(ps[0]) + (EncodePairs(Current, ps[1..]) + t);
      PairReads(ps[0], EncodePairs(Current, ps[1..]) + t);
      PairsRead(ps[1..], t);
      assert ps == [ps[0]] + ps[1..];
    } else {
      assert EncodePairs(Current, ps) + t == t;
    }
  }

  /**
   On any list whose shapes match its keys and whose integers are in range, the reader and
   `encode_list_checked` agree: both accept it, or both refuse it over the same value.
   */
  lemma CheckedMeansAccepted(ps: seq<Pair>, t: seq<byte>)
    requires Shaped(ps)
    ensures var r := DecodeList(Current, EncodeList(Current, ps) + t);
            match FirstTooLong(ps)
            case None => r == Parsed(Ok(ps), t)
            case Some(len) => r.result == Err(ValueTooLong(len))
  {
    hide Encoding, ReadInt, DecodePairs, FirstTooLong;
    assert EncodeList(Current, ps) + t == Encoding(Quic, |ps|) + (EncodePairs(Current, ps) + t);
    ReadIntOfEncoding(|ps|, EncodePairs(Current, ps) + t);
    PairsRead(ps, t);
  }

  lemma {:induction false} NothingTooLong(ps: seq<Pair>)
    requires forall i :: 0 <= i < |ps| ==> PairInDomain(ps[i])
    ensures FirstTooLong(ps) == None
  {
    if ps != [] {
      assert PairInDomain(ps[0]);
      NothingTooLong(ps[1..]);
    }
  }

  lemma DecodedPairInDomain(s: seq<byte>)
    requires DecodePair(s).result.Ok?
    ensures PairInDomain(DecodePair(s).result.value)
  {
    hide ReadInt;
    ReadIntRange(s);
    ReadIntRange(ReadInt(s).rest);
  }

  lemma {:induction false} DecodedPairsInDomain(n: nat, s: seq<byte>)
    requires DecodePairs(Current, n, s).result.Ok?
    ensures forall p :: p in DecodePairs(Current, n, s).result.value ==> PairInDomain(p)
    decreases n
  {
    hide DecodePair, PairInDomain;
    if n > 0 {
      DecodedPairInDomain(s);
      DecodedPairsInDomain(n - 1, DecodePair(s).rest);
    }
  }

  /** Everything the list reader accepts lies in the domain, whatever the bytes were. */
  lemma DecodedListInDomain(s: seq<byte>)
    requires DecodeList(Current, s).result.Ok?
    ensures InDomain(DecodeList(Current, s).result.value)
  {
    hide ReadInt, DecodePairs, PairInDomain;
    ReadIntRange(s);
    DecodedPairsInDomain(ReadInt(s).result.value, ReadInt(s).rest);
  }

  /** A list comes back the same from its own bytes exactly when it lies in the domain. */
  lemma ListRoundTrip(ps: Pairs, t: seq<byte>)
    ensures DecodeList(Current, EncodeList(Current, ps) + t) == Parsed(Ok(ps), t) <==> InDomain(ps)
  {
    hide DecodeList, EncodeList, FirstTooLong;
    if InDomain(ps) {
      NothingTooLong(ps);
      CheckedMeansAccepted(ps, t);
    } else if DecodeList(Current, EncodeList(Current, ps) + t) == Parsed(Ok(ps), t) {
      DecodedListInDomain(EncodeList(Current, ps) + t);
    }
  }

  // ------------------------------------------------------------- drafts 07 through 10

  /** What a pair becomes through the drafts 07 through 10 format: integers as their own bytes. */
  function Normal(p: Pair): (q: Pair)
    ensures q.value.Bytes?
  {
    if p.value.Varint? then Pair(p.key, Bytes(Encoding(Quic, p.value.v))) else p
  }

  function NormalList(ps: seq<Pair>): (qs: seq<Pair>)
    ensures |qs| == |ps|
  {
    seq(|ps|, i requires 0 <= i < |ps| => Normal(ps[i]))
  }

  /** Only the key and a byte value's own length are written as integers, with no cap on the length. */
  predicate PairWritableD07(p: Pair) {
    p.key <= MAX_VARINT && (p.value.Bytes? ==> |p.value.bytes| <= MAX_VARINT)
  }

  predicate WritableD07(ps: seq<Pair>) {
    |ps| <= MAX_VARINT && forall i :: 0 <= i < |ps| ==> PairWritableD07(ps[i])
  }

  lemma {:induction false} PairsReadD07(ps: seq<Pair>, t: seq<byte>)
    requires forall i :: 0 <= i < |ps| ==> PairWritableD07(ps[i])
    ensures DecodePairs(D07, |ps|, EncodePairs(D07, ps) + t) == Parsed(Ok(NormalList(ps)), t)
  {
    hide EncodePairD07, DecodePairD07, PairWritableD07, Normal;
    if ps != [] {
      EncodePairsCons(D07, ps);
      assert EncodePairs(D07, ps) + t == EncodePairD07(ps[0]) + (EncodePairs(D07, ps[1..]) + t);
      PairReadsD07(ps[0], EncodePairs(D07, ps[1..]) + t);
      PairsReadD07(ps[1..], t);
      assert NormalList(ps) == [Normal(ps[0])] + NormalList(ps[1..]);
    } else {
      assert EncodePairs(D07, ps) + t == t;
    }
  }

  lemma {:induction false} DecodedPairsWritableD07(n: nat, s: seq<byte>)
    requires DecodePairs(D07, n, s).result.Ok?
    ensures forall p :: p in DecodePairs(D07, n, s).result.value ==> PairWritableD07(p) && p.value.Bytes?
    decreases n
  {
    hide ReadInt;
    if n > 0 {
      ReadIntRange(s);
      ReadIntRange(ReadInt(s).rest);
      DecodedPairsWritableD07(n - 1, DecodePairD07(s).rest);
    }
  }

  lemma DecodedListWritableD07(s: seq<byte>)
    requires DecodeList(D07, s).result.Ok?
    ensures WritableD07(DecodeList(D07, s).result.value)
  {
    hide ReadInt, DecodePairs, PairWritableD07;
    ReadIntRange(s);
    DecodedPairsWritableD07(ReadInt(s).result.value, ReadInt(s).rest);
  }

  /** Reading back a drafts 07 through 10 list gives its normal form, exactly when its integers fit. */
  lemma NormalForm(ps: Pairs, t: seq<byte>)
    ensures DecodeList(D07, EncodeList(D07, ps) + t) == Parsed(Ok(NormalList(ps)), t) <==> WritableD07(ps)
  {
    hide Encoding, ReadInt, DecodePairs, EncodePairs;
    assert EncodeList(D07, ps) + t == Encoding(Quic, |ps|) + (EncodePairs(D07, ps) + t);
    if WritableD07(ps) {
      ReadIntOfEncoding(|ps|, EncodePairs(D07, ps) + t);
      PairsReadD07(ps, t);
    } else if DecodeList(D07, EncodeList(D07, ps) + t) == Parsed(Ok(NormalList(ps)), t) {
      DecodedListWritableD07(EncodeList(D07, ps) + t);
      NormalWritable(ps);
    }
  }

  lemma NormalWritable(ps: seq<Pair>)
    requires WritableD07(NormalList(ps))
    ensures WritableD07(ps)
  {
    forall i | 0 <= i < |ps| ensures PairWritableD07(ps[i]) {
      assert NormalList(ps)[i] == Normal(ps[i]);
    }
  }

  /** The normal form writes the same bytes, and is its own normal form. */
  lemma {:induction false} NormalIsFixed(ps: Pairs)
    ensures EncodeList(D07, NormalList(ps)) == EncodeList(D07, ps)
    ensures NormalList(NormalList(ps)) == NormalList(ps)
  {
    NormalPairsSameBytes(ps);
  }

  lemma SameBytes(p: Pair)
    ensures EncodePairD07(Normal(p)) == EncodePairD07(p)
  {
    hide Encoding;
  }

  lemma {:induction false} NormalPairsSameBytes(ps: seq<Pair>)
    ensures EncodePairs(D07, NormalList(ps)) == EncodePairs(D07, ps)
  {
    hide Normal, EncodePairD07;
    if ps != [] {
      var init, last := ps[..|ps| - 1], ps[|ps| - 1];
      NormalPairsSameBytes(init);
      assert NormalList(ps)[..|ps| - 1] == NormalList(init);
      SameBytes(last);
    } else {
      assert NormalList(ps) == ps;
    }
  }

  // ------------------------------------------------------------------------ the bytes, exactly

  /** A list is its count and then its pairs in order: each a key, and an integer or a length and so many bytes. */
  lemma ListBytes(f: Format, ps: Pairs, p: Pair)
    ensures EncodeList(f, ps) == Encoding(Quic, |ps|) + EncodePairs(f, ps)
    ensures EncodePairs(f, []) == []
    ensures EncodePairs(f, ps + [p]) ==
            EncodePairs(f, ps)
            + (Encoding(Quic, p.key)
               + match p.value
                 case Varint(v) =>
                   (match f case Current => [] case D07 => Encoding(Quic, |Encoding(Quic, v)|)) + Encoding(Quic, v)
                 case Bytes(b) => Encoding(Quic, |b|) + b)
  {
    hide Encoding, EncodedLen, EncodeOne;
    assert (ps + [p])[..|ps|] == ps;
    PairBytes(f, p);
    assert EncodePairs(f, ps + [p]) == EncodePairs(f, ps) + EncodeOne(f, p);
  }

  lemma PairBytes(f: Format, p: Pair)
    ensures EncodeOne(f, p) ==
            Encoding(Quic, p.key)
            + match p.value
              case Varint(v) =>
                (match f case Current => [] case D07 => Encoding(Quic, |Encoding(Quic, v)|)) + Encoding(Quic, v)
              case Bytes(b) => Encoding(Quic, |b|) + b
  {
    hide Encoding, LeastLen;
  }

  /** A pair in any spelling a reader takes: only the shortest is written. */
  predicate PairSpelled(f: Format, s: seq<byte>, p: Pair, rest: seq<byte>) {
    match p.value
    case Varint(v) => f.Current? && p.key % 2 == 0 && Spells(Quic, s, [p.key, v], rest)
    case Bytes(b) => (f.Current? ==> p.key % 2 == 1 && |b| <= 65535) && Spells(Quic, s, [p.key, |b|], b + rest)
  }

  ghost predicate PairsSpelled(f: Format, s: seq<byte>, ps: seq<Pair>, rest: seq<byte>)
    decreases |ps|
  {
    if ps == [] then s == rest
    else exists more :: PairSpelled(f, s, ps[0], more) && PairsSpelled(f, more, ps[1..], rest)
  }

  lemma SpellsKeyed(s: seq<byte>, key: u64, v: u64, rest: seq<byte>)
    ensures Spells(Quic, s, [key, v], rest) <==>
            ReadInt(s).result == Ok(key) && ReadInt(ReadInt(s).rest) == Parsed(Ok(v), rest)
  {
    hide Decoding, Spells;
    assert [key, v] == [key] + [v];
    SpellsMore(Quic, s, key, [v], rest);
    SpellsOne(Quic, Decoding(Quic, s).rest, v, rest);
  }

  /** A pair is read exactly when the bytes spell it: by its key's parity, or always as bytes on drafts 07 to 10. */
  lemma PairReadsExactly(f: Format, s: seq<byte>, p: Pair, rest: seq<byte>)
    ensures DecodeOne(f, s) == Parsed(Ok(p), rest) <==> PairSpelled(f, s, p, rest)
  {
    hide ReadInt, Spells;
    match p.value {
      case Varint(v) =>
        SpellsKeyed(s, p.key, v, rest);
      case Bytes(b) =>
        SpellsKeyed(s, p.key, |b|, b + rest);
        assert (b + rest)[..|b|] == b && (b + rest)[|b|..] == rest;
        var after := ReadInt(ReadInt(s).rest).rest;
        assert |b| <= |after| ==> after == after[..|b|] + after[|b|..];
    }
  }

  lemma {:induction false} PairsReadExactly(f: Format, s: seq<byte>, ps: seq<Pair>, rest: seq<byte>)
    ensures DecodePairs(f, |ps|, s) == Parsed(Ok(ps), rest) <==> PairsSpelled(f, s, ps, rest)
    decreases |ps|
  {
    hide DecodeOne, PairSpelled;
    if ps != [] {
      var one := DecodeOne(f, s);
      PairReadsExactly(f, s, ps[0], one.rest);
      forall more
        ensures PairSpelled(f, s, ps[0], more) <==> one == Parsed(Ok(ps[0]), more)
      {
        PairReadsExactly(f, s, ps[0], more);
      }
      PairsReadExactly(f, one.rest, ps[1..], rest);
      var more := DecodePairs(f, |ps| - 1, one.rest);
      if one.result.Ok? && more.result.Ok? {
        var all := [one.result.value] + more.result.value;
        assert all[0] == one.result.value && all[1..] == more.result.value && ps == [ps[0]] + ps[1..];
      }
    }
  }

  /** A list is read exactly when the bytes spell its count and then its pairs, leaving the rest. */
  lemma ListReadsExactly(f: Format, s: seq<byte>, ps: Pairs, rest: seq<byte>)
    ensures DecodeList(f, s) == Parsed(Ok(ps), rest) <==>
            exists body :: Spells(Quic, s, [|ps|], body) && PairsSpelled(f, body, ps, rest)
  {
    hide Decoding, Spells, DecodePairs, PairsSpelled;
    var count := Decoding(Quic, s);
    forall body
      ensures Spells(Quic, s, [|ps|], body) <==> count == Parsed(Ok(|ps|), body)
    {
      SpellsOne(Quic, s, |ps|, body);
    }
    PairsReadExactly(f, count.rest, ps, rest);
  }
}
