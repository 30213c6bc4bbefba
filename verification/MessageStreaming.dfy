/**
 The filter fields of a SUBSCRIBE message, as bytes: exactly which are read as what, and what a failed read
 says about the bytes still to come. An integer on its own, a run of them, and the message each wrap the end
 of the buffer in an error of their own, and `is_incomplete` is asked of every one.
 */
module MessageStreaming {
  import opened Bytes
  import opened VarInt
  import opened VarIntLaws
  import opened VarIntCodec
  import opened Errors
  import opened FieldLists
  import opened Drafts
  import opened SubscriptionFilters
  import opened SubscribeRanges

  // ------------------------------------------------------------------------- what is read

  /** A message that opens with a Filter Type, one byte on draft-07 and an integer after it, and then these integers. */
  ghost predicate Opens(d: Draft, s: seq<byte>, id: u64, fs: seq<u64>) {
    exists rest ::
      if d == 7 then s != [] && s[0] == id && Spells(Quic, s[1..], fs, rest) else Spells(Quic, s, [id] + fs, rest)
  }

  lemma OpensIs(d: Draft, s: seq<byte>, id: u64, fs: seq<u64>)
    requires d <= 14
    ensures Opens(d, s, id, fs) <==>
            ReadType(d, s).result == Ok(id) && ReadN(Quic, |fs|, ReadType(d, s).rest).result == Ok(fs)
  {
    hide Decoding, Spells, ReadN;
    var body := ReadType(d, s).rest;
    var after := ReadN(Quic, |fs|, body).rest;
    forall rest
      ensures Spells(Quic, body, fs, rest) <==> ReadN(Quic, |fs|, body) == Parsed(Ok(fs), rest)
      ensures Spells(Quic, s, [id] + fs, rest) <==>
              Decoding(Quic, s).result == Ok(id) && Spells(Quic, Decoding(Quic, s).rest, fs, rest)
    {
      SpellsIsRead(Quic, body, fs, rest);
      SpellsMore(Quic, s, id, fs, rest);
    }
    if ReadN(Quic, |fs|, body).result == Ok(fs) && ReadType(d, s).result == Ok(id) {
      assert Spells(Quic, body, fs, after);
      assert d != 7 ==> Spells(Quic, s, [id] + fs, after);
    }
  }

  /** The bytes a draft reads as these fields; none for the two Filter Types that carry no fields. */
  ghost predicate Says(d: Draft, s: seq<byte>, w: Option<SubscribeWire>) {
    match w
    case None => Opens(d, s, 2, []) || (d != 9 && d != 10 && Opens(d, s, 1, []))
    case Some(WithEndLocation(t, Some(start), None)) =>
      d == 7 && t == AbsoluteStart && Opens(d, s, 3, [start.group, start.objectId])
    case Some(WithEndLocation(t, Some(start), Some(end))) =>
      d == 7 && t == AbsoluteRange && Opens(d, s, 4, [start.group, start.objectId, end.group, end.objectId])
    case Some(WithEndGroup(t, Some(start), None)) =>
      d != 7 && t == AbsoluteStart && Opens(d, s, 3, [start.group, start.objectId])
    case Some(WithEndGroup(t, Some(start), Some(group))) =>
      d != 7 && t == AbsoluteRange && Opens(d, s, 4, [start.group, start.objectId, group])
    case _ => false
  }

  /** Drafts 7 to 14 read the filter fields their Filter Type promises, in order, and refuse every other message. */
  lemma MessageReadsExactly(d: Draft, s: seq<byte>, w: Option<SubscribeWire>)
    requires d <= 14
    ensures ReadMessage(d, s) == Ok(w) <==> Says(d, s, w)
  {
    hide ReadType, ReadN, Opens;
    OpensIs(d, s, 1, []);
    OpensIs(d, s, 2, []);
    NoFields(ReadType(d, s).rest);
    if w.Some? && (w.value.WithEndLocation? || w.value.WithEndGroup?) && w.value.start.Some? {
      var a := w.value.start.value;
      OpensIs(d, s, 3, [a.group, a.objectId]);
      if w.value.WithEndLocation? && w.value.end.Some? {
        OpensIs(d, s, 4, [a.group, a.objectId, w.value.end.value.group, w.value.end.value.objectId]);
      } else if w.value.WithEndGroup? && w.value.endGroup.Some? {
        OpensIs(d, s, 4, [a.group, a.objectId, w.value.endGroup.value]);
      }
    }
    AssembledIs(d, s, w);
  }

  lemma NoFields(s: seq<byte>)
    ensures ReadN(Quic, 0, s).result == Ok([])
  {
  }

  /** Fields are assembled in the order they were read. */
  lemma AssembledIs(d: Draft, s: seq<byte>, w: Option<SubscribeWire>)
    ensures forall t: FilterType, fs: seq<u64> :: |fs| == FieldsAfter(d, t) && t.WantsStart() ==>
              (Some(Assembled(d, t, fs)) == w <==>
               match w
               case Some(WithEndLocation(u, Some(start), None)) =>
                 d == 7 && t == u == AbsoluteStart && fs == [start.group, start.objectId]
               case Some(WithEndLocation(u, Some(start), Some(end))) =>
                 d == 7 && t == u == AbsoluteRange && fs == [start.group, start.objectId, end.group, end.objectId]
               case Some(WithEndGroup(u, Some(start), None)) =>
                 d != 7 && t == u == AbsoluteStart && fs == [start.group, start.objectId]
               case Some(WithEndGroup(u, Some(start), Some(group))) =>
                 d != 7 && t == u == AbsoluteRange && fs == [start.group, start.objectId, group]
               case _ => false)
  {
  }

  // ---------------------------------------------------------- would more bytes help?

  /** An integer on its own: incomplete exactly when some extension of it decodes, in all three encodings. */
  lemma IntegerStreaming(c: Codec, s: seq<byte>)
    requires Decoding(c, s).result.Err?
    ensures CodecError.VarInt(Decoding(c, s).result.error).IsIncomplete() <==>
            exists t :: Decoding(c, s + t).result.Ok?
  {
    hide Decoding;
    PrefixCode(c, s);
  }

  /** A run of integers: the same. */
  lemma RunStreaming(c: Codec, n: nat, s: seq<byte>)
    requires ReadN(c, n, s).result.Err?
    ensures CodecError.VarInt(ReadN(c, n, s).result.error).IsIncomplete() <==>
            exists t :: ReadN(c, n, s + t).result.Ok?
  {
    hide ReadN;
    FieldsStreaming(c, n, s);
  }

  /** A Filter Type cut short whose bytes so far, padded with zeros, already spell more than any there is. */
  predicate DoomedType(d: Draft, s: seq<byte>) {
    && d >= 8 && s != [] && Decoding(Quic, s).result.Err?
    && var padded := Decoding(Quic, s + Padding(Quic, s)).result;
       padded.Ok? && padded.value > 4
  }

  /**
   The filter fields of a message, exactly: a failed read can still be completed if and only if it reported
   `is_incomplete` and did not stop inside a Filter Type already past the last one there is.
   */
  lemma MessageStreamingExact(d: Draft, s: seq<byte>)
    requires d <= 14 && ReadMessage(d, s).Err?
    ensures ReadMessage(d, s).error.IsIncomplete() && !DoomedType(d, s) <==> exists t :: ReadMessage(d, s + t).Ok?
  {
    hide ReadMessage, DoomedType, CodecError.IsIncomplete;
    if ReadType(d, s).result.Ok? {
      TypeRead(d, s);
    } else if DoomedType(d, s) {
      forall t
        ensures ReadMessage(d, s + t).Err?
      {
        DoomedTypeFails(d, s, t);
      }
    } else {
      TypeMissing(d, s);
    }
  }

  /** Past its Filter Type a message is refused for good or waits for its integers. */
  lemma TypeRead(d: Draft, s: seq<byte>)
    requires d <= 14 && ReadMessage(d, s).Err? && ReadType(d, s).result.Ok?
    ensures !DoomedType(d, s)
    ensures ReadMessage(d, s).error.IsIncomplete() <==> exists t :: ReadMessage(d, s + t).Ok?
  {
    hide Decoding, ReadN, ReadType;
    var body, id := ReadType(d, s).rest, ReadType(d, s).result.value;
    TypeOfNoDoom(d, s);
    forall t
      ensures ReadType(d, s + t) == Parsed(Ok(id), body + t)
    {
      TypeStays(d, s, t);
    }
    var t := FilterTypeOf(id);
    if t.Some? && t.value.WantsStart() {
      RunStreaming(Quic, FieldsAfter(d, t.value), body);
      var n := FieldsAfter(d, t.value);
      assert forall more :: ReadMessage(d, s + more).Ok? <==> ReadN(Quic, n, body + more).result.Ok?;
    } else {
      assert forall more :: ReadMessage(d, s + more).Err?;
    }
  }

  lemma TypeOfNoDoom(d: Draft, s: seq<byte>)
    requires d <= 14 && ReadType(d, s).result.Ok?
    ensures !DoomedType(d, s)
  {
    hide Decoding;
  }

  lemma TypeStays(d: Draft, s: seq<byte>, t: seq<byte>)
    requires d <= 14 && ReadType(d, s).result.Ok?
    ensures ReadType(d, s + t) == Parsed(ReadType(d, s).result, ReadType(d, s).rest + t)
  {
    hide Decoding;
    if d == 7 {
      assert (s + t)[1..] == s[1..] + t;
    } else {
      DecodingStable(Quic, s, t);
    }
  }

  /** A Filter Type that is missing or cut short is incomplete, and some bytes complete it. */
  lemma TypeMissing(d: Draft, s: seq<byte>)
    requires d <= 14 && ReadType(d, s).result.Err? && !DoomedType(d, s)
    ensures ReadMessage(d, s).Err? && ReadMessage(d, s).error.IsIncomplete()
    ensures exists t :: ReadMessage(d, s + t).Ok?
  {
    hide Decoding;
    if d >= 8 {
      PrefixCode(Quic, s);
    }
    if s == [] {
      TwoRead();
      assert s + [2] == [2];
      assert ReadMessage(d, s + [2]).Ok?;
    } else {
      var t := TypeCompletes(s);
      assert ReadMessage(d, s + t).Ok?;
    }
  }

  lemma TwoRead()
    ensures Decoding(Quic, [2]) == Parsed(Ok(2), [])
  {
    OneByte(2);
    assert [2][..1] == [2];
  }

  /** Bytes that make the type 2 of an integer whose bytes so far are all zero beyond its length bits. */
  lemma TypeCompletes(s: seq<byte>) returns (t: seq<byte>)
    requires s != [] && Decoding(Quic, s).result == Err(VarIntError.UnexpectedEnd)
    requires var padded := Decoding(Quic, s + Padding(Quic, s)).result; padded.Ok? ==> padded.value <= 4
    ensures Decoding(Quic, s + t) == Parsed(Ok(2), [])
  {
    hide Decoding, FromBigEndian, Base, LenOf;
    PaddingCompletes(Quic, s);
    PaddingIsRound(Quic, s);
    var pad := Padding(Quic, s);
    var zs := Zeros(|pad| - 1);
    t := zs + [2];
    PadIs(s);
    assert s + pad == s + zs + [0] && s + t == s + zs + [2];
    Appended(s + zs, 0);
    Appended(s + zs, 2);
    WholeNumber(Quic, s + pad);
    SameLength(s + pad, s + t);
    WholeNumber(Quic, s + t);
  }

  lemma PadIs(s: seq<byte>)
    requires s != [] && Padding(Quic, s) != []
    ensures Padding(Quic, s) == Zeros(|Padding(Quic, s)| - 1) + [0]
  {
    hide LenOf;
  }

  lemma SameLength(a: seq<byte>, b: seq<byte>)
    requires Decoding(Quic, a).result.Ok? && Decoding(Quic, a).rest == []
    requires a != [] && |a| == |b| && a[0] == b[0]
    ensures Decoding(Quic, b).result.Ok? && Decoding(Quic, b).rest == []
  {
  }

  lemma DoomedTypeFails(d: Draft, s: seq<byte>, t: seq<byte>)
    requires d <= 14 && DoomedType(d, s)
    ensures ReadMessage(d, s + t).Err?
  {
    hide Decoding, Padding;
    PrefixCode(Quic, s);
    if Decoding(Quic, s + t).result.Ok? {
      PaddingIsLeast(Quic, s, t);
    }
  }

  /** The exception is real: on draft-08 the first byte of a two-byte type of at least 256. */
  lemma IncompleteYetHopelessType(d: Draft)
    requires 8 <= d <= 14
    ensures ReadMessage(d, [0x41]).Err? && ReadMessage(d, [0x41]).error.IsIncomplete()
    ensures forall t :: ReadMessage(d, [0x41] + t).Err?
  {
    var s: seq<byte> := [0x41];
    assert Decoding(Quic, s).result == Err(VarIntError.UnexpectedEnd);
    PaddingCompletes(Quic, s);
    WholeNumber(Quic, s + Padding(Quic, s));
    FromBigEndianSplit(s, Zeros(1));
    FromBigEndianZeros(1);
    OneByte(0x41);
    ScaleTable(0x41);
    ScaleTable(0x40);
    forall t
      ensures ReadMessage(d, s + t).Err?
    {
      DoomedTypeFails(d, s, t);
    }
  }
}
