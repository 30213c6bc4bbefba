/** What survives writing and reading a Token, alone and inside a Key-Value-Pair list. */
module AuthTokenLaws {
  import opened Bytes
  import opened VarInt
  import opened VarIntLaws
  import opened FieldLists
  import opened Kvp
  import opened KvpLaws
  import opened AuthToken

  /** Reading a written Token gives its canonical form, whichever lawful integer encoding wrote it. */
  lemma TokenRoundTrip(c: Codec, key: u64, t: Token)
    requires Representable(c, t) && |TokenBytes(c, t)| < U64_LIMIT
    ensures DecodeToken(c, key, TokenBytes(c, t)) == Ok(Canonical(t))
  {
    hide Encoding, Decoding, DecodeFields, AliasField, TypeAndValue;
    var fields := AliasField(c, t) + TypeAndValue(c, t);
    assert TokenBytes(c, t) == Encoding(c, t.aliasType.Id()) + fields;
    RoundTrip(c, t.aliasType.Id(), fields);
    FieldsRead(c, key, t);
  }

  lemma FieldsRead(c: Codec, key: u64, t: Token)
    requires Representable(c, t) && |AliasField(c, t) + TypeAndValue(c, t)| < U64_LIMIT
    ensures DecodeFields(c, key, t.aliasType, AliasField(c, t) + TypeAndValue(c, t)) == Ok(Canonical(t))
  {
    hide Encoding, Decoding, DecodeTail, TypeAndValue;
    var tail := TypeAndValue(c, t);
    if t.aliasType.HasAlias() {
      RoundTrip(c, t.alias.GetOr(0), tail);
    } else {
      assert AliasField(c, t) + tail == tail;
    }
    TailReads(c, key, t);
  }

  lemma TailReads(c: Codec, key: u64, t: Token)
    requires Representable(c, t) && |TypeAndValue(c, t)| < U64_LIMIT
    ensures DecodeTail(c, key, t.aliasType, Canonical(t).alias, TypeAndValue(c, t)) == Ok(Canonical(t))
  {
    hide Encoding, Decoding;
    RoundTrip(c, t.tokenType.GetOr(0), t.value);
  }

  /** Every token's canonical form is what its bytes mean: it writes them again, and is its own. */
  lemma CanonicalSameBytes(c: Codec, t: Token)
    ensures TokenBytes(c, Canonical(t)) == TokenBytes(c, t)
    ensures Canonical(Canonical(t)) == Canonical(t)
  {
    hide Encoding;
  }

  /**
   Decoding is total, and never asks for more bytes: any value at all is either refused under the
   caller's own key, or is a canonical Token that writes back no longer and reads back the same.
   */
  lemma TokenDecodeTotal(c: Codec, key: u64, s: Vec)
    ensures match DecodeToken(c, key, s)
            case Ok(t) =>
              && t == Canonical(t) && Representable(c, t)
              && |TokenBytes(c, t)| <= |s|
              && DecodeToken(c, key, TokenBytes(c, t)) == Ok(t)
            case Err(e) => e.KeyValueFormatting? && e.key == key && !e.IsIncomplete()
  {
    hide Encoding, Decoding;
    if DecodeToken(c, key, s).Ok? {
      var t := DecodeToken(c, key, s).value;
      DecodedTokenShort(c, key, s);
      TokenRoundTrip(c, key, t);
    }
  }

  lemma DecodedTokenShort(c: Codec, key: u64, s: Vec)
    requires DecodeToken(c, key, s).Ok?
    ensures var t := DecodeToken(c, key, s).value;
            t == Canonical(t) && Representable(c, t) && |TokenBytes(c, t)| <= |s|
  {
    hide Encoding, EncodedLen, Decoding, Malformed;
    var t := DecodeToken(c, key, s).value;
    Shrinks(c, s);
    var rest := Decoding(c, s).rest;
    if t.aliasType.HasAlias() {
      Shrinks(c, rest);
      if t.aliasType.HasTypeAndValue() {
        Shrinks(c, Decoding(c, rest).rest);
      }
    } else {
      Shrinks(c, rest);
    }
  }

  lemma Shrinks(c: Codec, s: seq<byte>)
    ensures var d := Decoding(c, s);
            d.result.Ok? ==> d.result.value <= MaxValue(c) && |Encoding(c, d.result.value)| + |d.rest| <= |s|
  {
    if Decoding(c, s).result.Ok? {
      DecodedRange(c, s);
      ShortestEncoding(c, s);
    }
  }

  // ------------------------------------------------------------------------ the four shapes

  /** The bytes each Alias Type is written as: its number, and the fields it promises in order. */
  lemma TokenShapes(c: Codec, t: Token)
    ensures var alias, ty := Encoding(c, t.alias.GetOr(0)), Encoding(c, t.tokenType.GetOr(0));
            TokenBytes(c, t) ==
            match t.aliasType
            case Delete => Encoding(c, 0) + alias
            case Register => Encoding(c, 1) + alias + ty + t.value
            case UseAlias => Encoding(c, 2) + alias
            case UseValue => Encoding(c, 3) + ty + t.value
  {
    hide Encoding, EncodedLen;
    var alias, ty := Encoding(c, t.alias.GetOr(0)), Encoding(c, t.tokenType.GetOr(0));
    assert Encoding(c, 1) + alias + ty + t.value == Encoding(c, 1) + alias + (ty + t.value);
    assert Encoding(c, 3) + ty + t.value == Encoding(c, 3) + [] + (ty + t.value);
  }

  /** What QUIC must be able to carry, and the first number it cannot. */
  lemma OverflowShapes(t: Token)
    ensures var alias, ty := t.alias.GetOr(0), t.tokenType.GetOr(0);
            Representable(Quic, t) <==>
            match t.aliasType
            case Delete => alias <= MAX_VARINT
            case Register => alias <= MAX_VARINT && ty <= MAX_VARINT
            case UseAlias => alias <= MAX_VARINT
            case UseValue => ty <= MAX_VARINT
    ensures !Representable(Quic, t) ==>
              FirstOverflow(t) ==
              if t.aliasType.UseValue? || t.alias.GetOr(0) <= MAX_VARINT then t.tokenType.GetOr(0) else t.alias.GetOr(0)
  {
  }

  /** The bytes of a Token in any spelling a reader takes: only the shortest is written. */
  predicate TokenSpelled(c: Codec, s: seq<byte>, t: Token) {
    match t
    case Token(Delete, Some(alias), None, value) => value == [] && Spells(c, s, [0, alias], [])
    case Token(Register, Some(alias), Some(ty), value) => Spells(c, s, [1, alias, ty], value)
    case Token(UseAlias, Some(alias), None, value) => value == [] && Spells(c, s, [2, alias], [])
    case Token(UseValue, None, Some(ty), value) => Spells(c, s, [3, ty], value)
    case _ => false
  }

  /** A value is read as a Token exactly when its bytes spell that Token's fields and nothing more. */
  lemma TokenReadsExactly(c: Codec, key: u64, s: Vec, t: Token)
    ensures DecodeToken(c, key, s) == Ok(t) <==> TokenSpelled(c, s, t)
  {
    hide Decoding, Spells;
    var one := Decoding(c, s);
    var two := Decoding(c, one.rest);
    var alias, ty := t.alias.GetOr(0), t.tokenType.GetOr(0);
    SpellsTwo(c, s, 0, alias, []);
    SpellsTwo(c, s, 2, alias, []);
    SpellsTwo(c, s, 3, ty, t.value);
    assert [1, alias, ty] == [1] + [alias, ty];
    SpellsMore(c, s, 1, [alias, ty], t.value);
    SpellsTwo(c, one.rest, alias, ty, t.value);
  }

  lemma SpellsTwo(c: Codec, s: seq<byte>, v: u64, u: u64, rest: seq<byte>)
    ensures Spells(c, s, [v, u], rest) <==>
            Decoding(c, s).result == Ok(v) && Decoding(c, Decoding(c, s).rest) == Parsed(Ok(u), rest)
  {
    hide Decoding, Spells;
    assert [v, u] == [v] + [u];
    SpellsMore(c, s, v, [u], rest);
    SpellsOne(c, Decoding(c, s).rest, u, rest);
  }

  // ------------------------------------------------------------------ inside a list

  /** Which pairs of a list carry a written Token. */
  predicate CarriesTokens(c: Codec, ps: seq<Pair>, tokens: map<nat, Token>) {
    forall i :: i in tokens ==>
      && i < |ps|
      && Representable(c, tokens[i])
      && |TokenBytes(c, tokens[i])| <= MAX_KVP_VALUE_LEN
      && ps[i].value == Bytes(TokenBytes(c, tokens[i]))
  }

  /**
   A list some of whose values are Tokens survives the checked writer and the list reader, and every
   Token in it is recovered under the key it arrived with.
   */
  lemma NestedRoundTrip(c: Codec, ps: Pairs, tokens: map<nat, Token>, tail: seq<byte>)
    requires InDomain(ps) && CarriesTokens(c, ps, tokens)
    ensures FirstTooLong(ps) == None
    ensures var r := DecodeList(Current, EncodeList(Current, ps) + tail);
            && r == Parsed(Ok(ps), tail)
            && forall i :: i in tokens ==>
                 && r.result.value[i].value.Bytes?
                 && DecodeToken(c, ps[i].key, r.result.value[i].value.bytes) == Ok(Canonical(tokens[i]))
  {
    hide DecodeToken, TokenBytes, DecodeList, EncodeList, FirstTooLong;
    NothingTooLong(ps);
    ListRoundTrip(ps, tail);
    forall i | i in tokens
      ensures DecodeToken(c, ps[i].key, ps[i].value.bytes) == Ok(Canonical(tokens[i]))
    {
      TokenRoundTrip(c, ps[i].key, tokens[i]);
    }
  }
}
