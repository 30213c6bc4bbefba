/**
 The Token structure inside an AUTHORIZATION TOKEN parameter. Its Alias Type decides which fields are
 written; only the integer encoding differs between drafts, so reader and writer take it as a parameter.
 */
module AuthToken {
  import opened Bytes
  import opened VarInt
  import opened VarIntCodec
  import opened Errors

  datatype AliasType = Delete | Register | UseAlias | UseValue {
    function Id(): u64 {
      match this
      case Delete => 0
      case Register => 1
      case UseAlias => 2
      case UseValue => 3
    }

    predicate HasAlias() {
      !UseValue?
    }

    predicate HasTypeAndValue() {
      Register? || UseValue?
    }
  }

  function FromId(id: u64): (a: Option<AliasType>)
    ensures a.Some? <==> id <= 3
    ensures a.Some? ==> a.value.Id() == id
  {
    match id
    case 0 => Some(Delete)
    case 1 => Some(Register)
    case 2 => Some(UseAlias)
    case 3 => Some(UseValue)
    case _ => None
  }

  datatype Token = Token(aliasType: AliasType, alias: Option<u64>, tokenType: Option<u64>, value: Vec)

  const NO_ALIAS_TYPE := "it carries no Alias Type"
  const UNASSIGNED := "its Alias Type is not one this draft assigns"
  const NO_ALIAS := "its Alias Type promises a Token Alias and the value ends first"
  const NO_TYPE := "its Alias Type promises a Token Type and the value ends first"
  const TRAILING := "its Alias Type promises no Token Value and bytes follow the Token Alias"

  function Malformed(key: u64, detail: string): CodecError {
    KeyValueFormatting(key, detail)
  }

  // --------------------------------------------------------------------- specification

  function AliasField(c: Codec, t: Token): seq<byte> {
    if t.aliasType.HasAlias() then Encoding(c, t.alias.GetOr(0)) else []
  }

  function TypeAndValue(c: Codec, t: Token): seq<byte> {
    if t.aliasType.HasTypeAndValue() then Encoding(c, t.tokenType.GetOr(0)) + t.value else []
  }

  function TokenBytes(c: Codec, t: Token): seq<byte> {
    Encoding(c, t.aliasType.Id()) + AliasField(c, t) + TypeAndValue(c, t)
  }

  function DecodeFields(c: Codec, key: u64, a: AliasType, s: Vec): Result<Token, CodecError> {
    if !a.HasAlias() then DecodeTail(c, key, a, None, s)
    else
      var alias := Decoding(c, s);
      match alias.result
      case Ok(v) => DecodeTail(c, key, a, Some(v), alias.rest)
      case Err(_) => Err(Malformed(key, NO_ALIAS))
  }

  function DecodeTail(c: Codec, key: u64, a: AliasType, alias: Option<u64>, s: Vec): Result<Token, CodecError> {
    if a.HasTypeAndValue() then
      var ty := Decoding(c, s);
      match ty.result
      case Ok(v) => Ok(Token(a, alias, Some(v), ty.rest))
      case Err(_) => Err(Malformed(key, NO_TYPE))
    else if s != [] then Err(Malformed(key, TRAILING))
    else Ok(Token(a, alias, None, []))
  }

  function DecodeToken(c: Codec, key: u64, s: Vec): Result<Token, CodecError> {
    var id := Decoding(c, s);
    match id.result
    case Err(_) => Err(Malformed(key, NO_ALIAS_TYPE))
    case Ok(v) =>
      match FromId(v)
      case None => Err(Malformed(key, UNASSIGNED))
      case Some(a) => DecodeFields(c, key, a, id.rest)
  }

  /** The fields its Alias Type promises, missing ones as zero, and no others. */
  function Canonical(t: Token): Token {
    Token(t.aliasType,
          if t.aliasType.HasAlias() then Some(t.alias.GetOr(0)) else None,
          if t.aliasType.HasTypeAndValue() then Some(t.tokenType.GetOr(0)) else None,
          if t.aliasType.HasTypeAndValue() then t.value else [])
  }

  /** Every integer the Token writes is one the codec can carry. */
  predicate Representable(c: Codec, t: Token) {
    && (t.aliasType.HasAlias() ==> t.alias.GetOr(0) <= MaxValue(c))
    && (t.aliasType.HasTypeAndValue() ==> t.tokenType.GetOr(0) <= MaxValue(c))
  }

  /** The first promised field past the codec's range. */
  function FirstOverflow(t: Token): u64
    requires !Representable(Quic, t)
  {
    if t.aliasType.HasAlias() && t.alias.GetOr(0) > MAX_VARINT then t.alias.GetOr(0) else t.tokenType.GetOr(0)
  }

  // -------------------------------------------------------------------------- methods

  method DecodeWith(c: Codec, key: u64, bytes: Vec) returns (r: Result<Token, CodecError>)
    ensures r == DecodeToken(c, key, bytes)
  {
    hide Decoding;
    var buf := new Buf(bytes);
    var raw := ReadWith(c, buf);
    if raw.Err? {
      return Err(Malformed(key, NO_ALIAS_TYPE));
    }
    var a := FromId(raw.value);
    if a.None? {
      return Err(Malformed(key, UNASSIGNED));
    }
    var alias: Option<u64> := None;
    if a.value.HasAlias() {
      var v := ReadWith(c, buf);
      if v.Err? {
        return Err(Malformed(key, NO_ALIAS));
      }
      alias := Some(v.value);
    }
    if a.value.HasTypeAndValue() {
      var v := ReadWith(c, buf);
      if v.Err? {
        return Err(Malformed(key, NO_TYPE));
      }
      return Ok(Token(a.value, alias, Some(v.value), buf.rest));
    }
    if buf.rest != [] {
      return Err(Malformed(key, TRAILING));
    }
    return Ok(Token(a.value, alias, None, []));
  }

  /** The QUIC writer refuses what it cannot represent before it touches the caller's buffer. */
  method EncodeToken(t: Token, buf: BufMut) returns (r: Result<(), CodecError>)
    modifies buf
    ensures r.Ok? <==> Representable(Quic, t)
    ensures r.Ok? ==> buf.data == old(buf.data) + TokenBytes(Quic, t)
    ensures r.Err? ==> buf.data == old(buf.data) && r.error == CodecError.VarInt(Overflow(FirstOverflow(t)))
  {
    hide Encoding, EncodedLen, Decoding;
    var out := new BufMut();
    var id := FromU64(t.aliasType.Id());
    IdFits(t.aliasType);
    EncodeQuic(id.value, out);
    if t.aliasType.HasAlias() {
      var alias := FromU64(t.alias.GetOr(0));
      if alias.Err? {
        return Err(CodecError.VarInt(alias.error));
      }
      EncodeQuic(alias.value, out);
    }
    assert out.data == Encoding(Quic, t.aliasType.Id()) + AliasField(Quic, t);
    if t.aliasType.HasTypeAndValue() {
      var ty := FromU64(t.tokenType.GetOr(0));
      if ty.Err? {
        return Err(CodecError.VarInt(ty.error));
      }
      EncodeQuic(ty.value, out);
      out.PutSlice(t.value);
    }
    assert out.data == TokenBytes(Quic, t);
    buf.PutSlice(out.data);
    return Ok(());
  }

  lemma IdFits(a: AliasType)
    ensures FromU64(a.Id()) == Ok(a.Id())
  {
  }

  method EncodeTokenMoqt(t: Token, buf: BufMut, sevenByte: bool)
    modifies buf
    ensures buf.data == old(buf.data) + TokenBytes(MoqtCodec(sevenByte), t)
  {
    hide Encoding, EncodedLen, MoqtCodec;
    ghost var start, c := buf.data, MoqtCodec(sevenByte);
    EncodeMoqt(t.aliasType.Id(), buf, sevenByte);
    if t.aliasType.HasAlias() {
      EncodeMoqt(t.alias.GetOr(0), buf, sevenByte);
    }
    assert buf.data == start + (Encoding(c, t.aliasType.Id()) + AliasField(c, t));
    if t.aliasType.HasTypeAndValue() {
      EncodeMoqt(t.tokenType.GetOr(0), buf, sevenByte);
      buf.PutSlice(t.value);
    }
    assert buf.data == start + (Encoding(c, t.aliasType.Id()) + AliasField(c, t) + TypeAndValue(c, t));
  }
}
