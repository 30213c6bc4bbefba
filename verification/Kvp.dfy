/**
 Key-Value Pairs over QUIC integers: even keys carry an integer, odd keys carry length-prefixed bytes,
 and a list is prefixed by its count. The `D07` forms of drafts 07 through 10 length-prefix every value.
 */
module Kvp {
  import opened Bytes
  import opened VarInt
  import opened VarIntCodec
  import opened Errors

  const MAX_KVP_VALUE_LEN := 65535

  datatype KvpValue = Varint(v: u64) | Bytes(bytes: Vec)

  datatype Pair = Pair(key: u64, value: KvpValue)

  type Pairs = s: seq<Pair> | |s| < U64_LIMIT

  // ---------------------------------------------------------------------- specification

  function EncodePair(p: Pair): seq<byte> {
    Encoding(Quic, p.key) +
    match p.value
    case Varint(v) => Encoding(Quic, v)
    case Bytes(b) => Encoding(Quic, |b|) + b
  }

  function EncodePairD07(p: Pair): seq<byte> {
    Encoding(Quic, p.key) +
    match p.value
    case Varint(v) => Encoding(Quic, EncodedLen(Quic, v)) + Encoding(Quic, v)
    case Bytes(b) => Encoding(Quic, |b|) + b
  }

  /** Which of the two pair formats a list uses: drafts 11 and later, or drafts 07 through 10. */
  datatype Format = Current | D07

  function EncodeOne(f: Format, p: Pair): seq<byte> {
    if f.D07? then EncodePairD07(p) else EncodePair(p)
  }

  function EncodePairs(f: Format, ps: seq<Pair>): seq<byte> {
    if ps == [] then [] else EncodePairs(f, ps[..|ps| - 1]) + EncodeOne(f, ps[|ps| - 1])
  }

  function EncodeList(f: Format, ps: Pairs): seq<byte> {
    Encoding(Quic, |ps|) + EncodePairs(f, ps)
  }

  /** An integer read inside a pair, its error wrapped. */
  function ReadInt(s: seq<byte>): Parsed<u64, KvpError> {
    var p := Decoding(Quic, s);
    match p.result
    case Ok(v) => Parsed(Ok(v), p.rest)
    case Err(e) => Parsed(Err(KvpError.VarInt(e)), p.rest)
  }

  /** `len` bytes, once `max` has been checked when there is one. */
  function ReadBytes(s: seq<byte>, key: u64, len: u64, capped: bool): Parsed<Pair, KvpError> {
    if capped && len > MAX_KVP_VALUE_LEN then Parsed(Err(ValueTooLong(len)), s)
    else if |s| < len then Parsed(Err(KvpError.UnexpectedEnd), s)
    else Parsed(Ok(Pair(key, Bytes(s[..len]))), s[len..])
  }

  function ReadVarintValue(s: seq<byte>, key: u64): Parsed<Pair, KvpError> {
    var v := ReadInt(s);
    match v.result
    case Ok(value) => Parsed(Ok(Pair(key, Varint(value))), v.rest)
    case Err(e) => Parsed(Err(e), v.rest)
  }

  function ReadBytesValue(s: seq<byte>, key: u64, capped: bool): Parsed<Pair, KvpError> {
    var l := ReadInt(s);
    match l.result
    case Ok(len) => ReadBytes(l.rest, key, len, capped)
    case Err(e) => Parsed(Err(e), l.rest)
  }

  function DecodePair(s: seq<byte>): Parsed<Pair, KvpError> {
    var k := ReadInt(s);
    match k.result
    case Ok(key) => if key % 2 == 0 then ReadVarintValue(k.rest, key) else ReadBytesValue(k.rest, key, true)
    case Err(e) => Parsed(Err(e), k.rest)
  }

  function DecodePairD07(s: seq<byte>): Parsed<Pair, KvpError> {
    var k := ReadInt(s);
    match k.result
    case Ok(key) => ReadBytesValue(k.rest, key, false)
    case Err(e) => Parsed(Err(e), k.rest)
  }

  function DecodeOne(f: Format, s: seq<byte>): Parsed<Pair, KvpError> {
    if f.D07? then DecodePairD07(s) else DecodePair(s)
  }

  function Prepend(ps: seq<Pair>, p: Parsed<seq<Pair>, KvpError>): Parsed<seq<Pair>, KvpError> {
    match p.result
    case Ok(more) => Parsed(Ok(ps + more), p.rest)
    case Err(e) => p
  }

  function DecodePairs(f: Format, n: nat, s: seq<byte>): (r: Parsed<seq<Pair>, KvpError>)
    ensures r.result.Ok? ==> |r.result.value| == n
    decreases n
  {
    if n == 0 then Parsed(Ok([]), s)
    else
      var p := DecodeOne(f, s);
      match p.result
      case Ok(pair) => Prepend([pair], DecodePairs(f, n - 1, p.rest))
      case Err(e) => Parsed(Err(e), p.rest)
  }

  function DecodeList(f: Format, s: seq<byte>): Parsed<seq<Pair>, KvpError> {
    var c := ReadInt(s);
    match c.result
    case Ok(count) => DecodePairs(f, count, c.rest)
    case Err(e) => Parsed(Err(e), c.rest)
  }

  /** The first value too long for a peer to accept, if there is one. */
  function FirstTooLong(ps: seq<Pair>): Option<nat> {
    if ps == [] then None
    else if ps[0].value.Bytes? && |ps[0].value.bytes| > MAX_KVP_VALUE_LEN then Some(|ps[0].value.bytes|)
    else FirstTooLong(ps[1..])
  }

  // ---------------------------------------------------------------- the methods, writing

  method WritePair(p: Pair, buf: BufMut)
    modifies buf
    ensures buf.data == old(buf.data) + EncodePair(p)
  {
    hide Encoding;
    EncodeQuic(p.key, buf);
    match p.value
    case Varint(v) =>
      EncodeQuic(v, buf);
    case Bytes(b) =>
      EncodeQuic(|b|, buf);
      buf.PutSlice(b);
  }

  method WritePairD07(p: Pair, buf: BufMut)
    modifies buf
    ensures buf.data == old(buf.data) + EncodePairD07(p)
  {
    hide Encoding, EncodedLen;
    EncodeQuic(p.key, buf);
    match p.value
    case Varint(v) =>
      EncodeQuic(QuicEncodedLen(v), buf);
      EncodeQuic(v, buf);
    case Bytes(b) =>
      EncodeQuic(|b|, buf);
      buf.PutSlice(b);
  }

  /** Both list writers, which differ only in the pair they write. */
  method WriteList(f: Format, ps: Pairs, buf: BufMut)
    modifies buf
    ensures buf.data == old(buf.data) + EncodeList(f, ps)
  {
    hide Encoding, EncodePair, EncodePairD07;
    ghost var start := buf.data;
    EncodeQuic(|ps|, buf);
    for i := 0 to |ps|
      invariant buf.data == start + Encoding(Quic, |ps|) + EncodePairs(f, ps[..i])
    {
      if f.D07? {
        WritePairD07(ps[i], buf);
      } else {
        WritePair(ps[i], buf);
      }
      assert ps[..i + 1][..i] == ps[..i];
    }
    assert ps[..|ps|] == ps;
  }

  method CheckValueLen(p: Pair) returns (r: Result<(), KvpError>)
    ensures r == if p.value.Bytes? && |p.value.bytes| > MAX_KVP_VALUE_LEN
                 then Err(ValueTooLong(|p.value.bytes|)) else Ok(())
  {
    if p.value.Bytes? {
      if |p.value.bytes| > MAX_KVP_VALUE_LEN {
        return Err(ValueTooLong(|p.value.bytes|));
      }
    }
    return Ok(());
  }

  /** Writes the whole list, or, when some value is too long, nothing. */
  method WriteListChecked(ps: Pairs, buf: BufMut) returns (r: Result<(), KvpError>)
    modifies buf
    ensures r.Ok? <==> FirstTooLong(ps) == None
    ensures r.Ok? ==> buf.data == old(buf.data) + EncodeList(Current, ps)
    ensures r.Err? ==> buf.data == old(buf.data) && r.error == ValueTooLong(FirstTooLong(ps).value)
  {
    for i := 0 to |ps|
      invariant FirstTooLong(ps) == FirstTooLong(ps[i..])
      invariant buf.data == old(buf.data)
    {
      var check := CheckValueLen(ps[i]);
      if check.Err? {
        return Err(check.error);
      }
    }
    WriteList(Current, ps, buf);
    return Ok(());
  }

  // ---------------------------------------------------------------- the methods, reading

  method ReadIntFrom(buf: Buf) returns (r: Result<u64, KvpError>)
    modifies buf
    ensures Parsed(r, buf.rest) == ReadInt(old(buf.rest))
  {
    var v := DecodeQuic(buf);
    match v
    case Ok(x) => return Ok(x);
    case Err(e) => return Err(KvpError.VarInt(e));
  }

  method ReadBytesFrom(buf: Buf, key: u64, len: u64) returns (r: Result<Pair, KvpError>)
    modifies buf
    ensures Parsed(r, buf.rest) == ReadBytes(old(buf.rest), key, len, false)
  {
    if |buf.rest| < len {
      return Err(KvpError.UnexpectedEnd);
    }
    var b := buf.rest[..len];
    buf.Advance(len);
    return Ok(Pair(key, Bytes(b)));
  }

  method ReadPair(buf: Buf) returns (r: Result<Pair, KvpError>)
    modifies buf
    ensures Parsed(r, buf.rest) == DecodePair(old(buf.rest))
  {
    var k := ReadIntFrom(buf);
    if k.Err? {
      return Err(k.error);
    }
    if k.value % 2 == 0 {
      var v := ReadIntFrom(buf);
      if v.Err? {
        return Err(v.error);
      }
      return Ok(Pair(k.value, Varint(v.value)));
    } else {
      var l := ReadIntFrom(buf);
      if l.Err? {
        return Err(l.error);
      }
      if l.value > MAX_KVP_VALUE_LEN {
        return Err(ValueTooLong(l.value));
      }
      r := ReadBytesFrom(buf, k.value, l.value);
    }
  }

  method ReadPairD07(buf: Buf) returns (r: Result<Pair, KvpError>)
    modifies buf
    ensures Parsed(r, buf.rest) == DecodePairD07(old(buf.rest))
  {
    var k := ReadIntFrom(buf);
    if k.Err? {
      return Err(k.error);
    }
    var l := ReadIntFrom(buf);
    if l.Err? {
      return Err(l.error);
    }
    r := ReadBytesFrom(buf, k.value, l.value);
  }

  /** Both list readers, which differ only in the pair they read. */
  method ReadList(f: Format, buf: Buf) returns (r: Result<seq<Pair>, KvpError>)
    modifies buf
    ensures Parsed(r, buf.rest) == DecodeList(f, old(buf.rest))
  {
    hide ReadInt, ReadVarintValue, ReadBytesValue, DecodePair, DecodePairD07, Decoding;
    ghost var whole := DecodeList(f, buf.rest);
    var count := ReadIntFrom(buf);
    if count.Err? {
      return Err(count.error);
    }
    var pairs: seq<Pair> := [];
    PrependNothing(DecodePairs(f, count.value, buf.rest));
    for i := 0 to count.value
      invariant whole == Prepend(pairs, DecodePairs(f, count.value - i, buf.rest))
    {
      var p: Result<Pair, KvpError>;
      if f.D07? {
        p := ReadPairD07(buf);
      } else {
        p := ReadPair(buf);
      }
      if p.Err? {
        return Err(p.error);
      }
      PrependPrepend(pairs, [p.value], DecodePairs(f, count.value - i - 1, buf.rest));
      pairs := pairs + [p.value];
    }
    assert pairs + [] == pairs;
    return Ok(pairs);
  }

  lemma PrependNothing(p: Parsed<seq<Pair>, KvpError>)
    ensures Prepend([], p) == p
  {
    if p.result.Ok? {
      assert [] + p.result.value == p.result.value;
    }
  }

  lemma PrependPrepend(a: seq<Pair>, b: seq<Pair>, p: Parsed<seq<Pair>, KvpError>)
    ensures Prepend(a, Prepend(b, p)) == Prepend(a + b, p)
  {
    if p.result.Ok? {
      assert a + (b + p.result.value) == a + b + p.result.value;
    }
  }
}
