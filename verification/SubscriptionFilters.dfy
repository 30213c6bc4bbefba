/**
 The subscription filter drafts 15 to 19 carry as a parameter value: a Filter Type and the fields it
 promises. Drafts 15 and 16 write QUIC integers and the End Group in full; 17 to 19 write MoQT's and a delta.
 */
module SubscriptionFilters {
  import opened Bytes
  import opened VarInt
  import opened VarIntLaws
  import opened VarIntCodec
  import opened Errors
  import opened FieldLists
  import TrackLocations

  type Location = TrackLocations.Location

  datatype FilterType = NextGroupStart | LargestObject | AbsoluteStart | AbsoluteRange {
    function Id(): u64 {
      match this
      case NextGroupStart => 1
      case LargestObject => 2
      case AbsoluteStart => 3
      case AbsoluteRange => 4
    }

    predicate WantsStart() {
      AbsoluteStart? || AbsoluteRange?
    }

    predicate WantsEnd() {
      AbsoluteRange?
    }
  }

  function FilterTypeOf(id: u64): (t: Option<FilterType>)
    ensures t.Some? <==> 1 <= id <= 4
    ensures t.Some? ==> t.value.Id() == id
  {
    match id
    case 1 => Some(NextGroupStart)
    case 2 => Some(LargestObject)
    case 3 => Some(AbsoluteStart)
    case 4 => Some(AbsoluteRange)
    case _ => None
  }

  datatype FilterEnd = Group(group: u64) | GroupDelta(delta: u64) {
    function Raw(): u64 {
      match this
      case Group(g) => g
      case GroupDelta(d) => d
    }
  }

  datatype SubscriptionFilter =
    SubscriptionFilter(filterType: FilterType, startLocation: Option<Location>, endGroup: Option<FilterEnd>)
  {
    function AsFields(): seq<u64> {
      [filterType.Id()]
      + (if startLocation.Some? then [startLocation.value.group, startLocation.value.objectId] else [])
      + (if endGroup.Some? then [endGroup.value.Raw()] else [])
    }

    /** The fields its type promises and no others, with the end spelled as the draft spells it. */
    predicate Agrees(endIsDelta: bool) {
      && (filterType.WantsStart() <==> startLocation.Some?)
      && (filterType.WantsEnd() <==> endGroup.Some?)
      && (endGroup.Some? ==> endGroup.value.GroupDelta? == endIsDelta)
    }
  }

  const NO_FILTER_TYPE := "it carries no Filter Type"
  const NO_START := "its Filter Type promises a Start Location and the value ends first"
  const NO_END := "its Filter Type promises an End Group and the value ends first"
  const TRAILING := "bytes follow the filter inside the parameter"
  const START_MISSING := "its Filter Type promises a Start Location and none is set"
  const START_SURPLUS := "its Filter Type promises no Start Location and one is set"
  const END_MISSING := "its Filter Type promises an End Group and none is set"
  const END_SURPLUS := "its Filter Type promises no End Group and one is set"
  const END_IS_DELTA := "its End Group is a delta where this draft writes the group in full"
  const END_IS_ABSOLUTE := "its End Group is written in full where this draft writes a delta"

  // --------------------------------------------------------------------- specification

  /** Each integer encoding goes with one spelling of the end. */
  function EndOf(c: Codec, v: u64): FilterEnd {
    if c.Quic? then Group(v) else GroupDelta(v)
  }

  /** Only running out of bytes is the filter's own fault; an undefined integer is reported as itself. */
  function RanOut(e: VarIntError, detail: string): CodecError {
    if e == VarIntError.UnexpectedEnd then SubscriptionFilterMalformed(detail) else CodecError.VarInt(e)
  }

  function Finish(t: FilterType, start: Option<Location>, end: Option<FilterEnd>, rest: seq<byte>)
    : Result<SubscriptionFilter, CodecError>
  {
    if rest != [] then Err(SubscriptionFilterMalformed(TRAILING)) else Ok(SubscriptionFilter(t, start, end))
  }

  function DecodeEnd(c: Codec, t: FilterType, start: Option<Location>, s: seq<byte>)
    : Result<SubscriptionFilter, CodecError>
  {
    if !t.WantsEnd() then Finish(t, start, None, s)
    else
      var end := Decoding(c, s);
      match end.result
      case Err(e) => Err(RanOut(e, NO_END))
      case Ok(v) => Finish(t, start, Some(EndOf(c, v)), end.rest)
  }

  function DecodeStart(c: Codec, t: FilterType, s: seq<byte>): Result<SubscriptionFilter, CodecError> {
    if !t.WantsStart() then DecodeEnd(c, t, None, s)
    else
      var group := Decoding(c, s);
      match group.result
      case Err(e) => Err(RanOut(e, NO_START))
      case Ok(g) =>
        var obj := Decoding(c, group.rest);
        match obj.result
        case Err(e) => Err(RanOut(e, NO_START))
        case Ok(o) => DecodeEnd(c, t, Some(TrackLocations.Location(g, o)), obj.rest)
  }

  function DecodeFilter(c: Codec, s: seq<byte>): Result<SubscriptionFilter, CodecError> {
    var raw := Decoding(c, s);
    match raw.result
    case Err(e) => Err(RanOut(e, NO_FILTER_TYPE))
    case Ok(id) =>
      match FilterTypeOf(id)
      case None => Err(InvalidFilterType(id))
      case Some(t) => DecodeStart(c, t, raw.rest)
  }

  // -------------------------------------------------------------------------------- laws

  /** A filter that agrees with its own type and fits the draft's integers survives its bytes, and no other does. */
  lemma FilterRoundTrip(c: Codec, f: SubscriptionFilter)
    ensures DecodeFilter(c, Fields(c, f.AsFields())) == Ok(f) <==> f.Agrees(!c.Quic?) && Fit(c, f.AsFields())
  {
    hide Decoding, Encoding, Kept, Fit;
    if f.Agrees(!c.Quic?) {
      Reads(c, f);
      KeptFilter(c, f);
    } else if DecodeFilter(c, Fields(c, f.AsFields())) == Ok(f) {
      DecodedAgrees(c, Fields(c, f.AsFields()));
    }
  }

  /** The filter its fields read back as. */
  function Back(c: Codec, f: SubscriptionFilter): SubscriptionFilter {
    SubscriptionFilter(
      f.filterType,
      if f.startLocation.Some? then
        Some(TrackLocations.Location(Kept(c, f.startLocation.value.group), Kept(c, f.startLocation.value.objectId)))
      else None,
      if f.endGroup.Some? then Some(EndOf(c, Kept(c, f.endGroup.value.Raw()))) else None)
  }

  lemma KeptFilter(c: Codec, f: SubscriptionFilter)
    requires f.Agrees(!c.Quic?)
    ensures Back(c, f) == f <==> Fit(c, f.AsFields())
  {
    var fs := f.AsFields();
    if Fit(c, fs) {
      assert forall i :: 0 <= i < |fs| ==> Kept(c, fs[i]) == fs[i];
      if f.startLocation.Some? {
        assert fs[1] == f.startLocation.value.group && fs[2] == f.startLocation.value.objectId;
      }
      if f.endGroup.Some? {
        assert fs[3] == f.endGroup.value.Raw();
      }
    }
  }

  lemma Reads(c: Codec, f: SubscriptionFilter)
    requires f.Agrees(!c.Quic?)
    ensures DecodeFilter(c, Fields(c, f.AsFields())) == Ok(Back(c, f))
  {
    hide Decoding, Encoding, Kept, Fields;
    var fs := f.AsFields();
    OneByOne(c, fs, 0);
    SmallId(c, f.filterType);
    if f.filterType.WantsStart() {
      OneByOne(c, fs, 1);
      OneByOne(c, fs, 2);
      if f.filterType.WantsEnd() {
        OneByOne(c, fs, 3);
      }
    }
  }

  lemma SmallId(c: Codec, t: FilterType)
    ensures Kept(c, t.Id()) == t.Id()
  {
  }

  /** Reading one field off the run of those from `i` on leaves the run of those after it. */
  lemma OneByOne(c: Codec, fs: seq<u64>, i: nat)
    requires i < |fs|
    ensures Decoding(c, Fields(c, fs[i..])) == Parsed(Ok(Kept(c, fs[i])), Fields(c, fs[i + 1..]))
    ensures fs[0..] == fs && Fields(c, fs[|fs|..]) == []
  {
    hide Decoding, Encoding, Kept;
    assert fs[i..][1..] == fs[i + 1..];
    EncodingReads(c, fs[i], Fields(c, fs[i + 1..]));
  }

  /** Whatever bytes a filter was read from, it keeps its type's promises and fits the draft's integers. */
  lemma DecodedAgrees(c: Codec, s: seq<byte>)
    requires DecodeFilter(c, s).Ok?
    ensures DecodeFilter(c, s).value.Agrees(!c.Quic?)
  {
    hide Decoding;
  }

  /** Every accepted value has one shortest spelling: writing it again takes no more bytes. */
  lemma FilterCanonical(c: Codec, s: seq<byte>)
    requires DecodeFilter(c, s).Ok?
    ensures var e := Fields(c, DecodeFilter(c, s).value.AsFields());
            |e| <= |s| && (|e| == |s| <==> e == s) && DecodeFilter(c, e) == DecodeFilter(c, s)
  {
    hide Decoding, Fields, Fit;
    var f := DecodeFilter(c, s).value;
    DecodedAgrees(c, s);
    AsRun(c, s);
    AllShortest(c, 4, s);
    FilterRoundTrip(c, f);
  }

  /** An accepted value is exactly the run of its fields. */
  lemma AsRun(c: Codec, s: seq<byte>)
    requires DecodeFilter(c, s).Ok?
    ensures ReadAll(c, 4, s) == Ok(DecodeFilter(c, s).value.AsFields())
  {
    hide Decoding, RanOut;
    var f, one := DecodeFilter(c, s).value, Decoding(c, s);
    var id := f.filterType.Id();
    Started(c, s);
    RunOf(c, 4, s);
    if f.filterType.WantsStart() {
      var at, two := f.startLocation.value, Decoding(c, one.rest);
      var three := Decoding(c, two.rest);
      RunOf(c, 3, one.rest);
      RunOf(c, 2, two.rest);
      if f.filterType.WantsEnd() {
        RunOf(c, 1, three.rest);
        assert f.AsFields() == [id] + ([at.group] + ([at.objectId] + ([f.endGroup.value.Raw()] + [])));
      } else {
        assert f.AsFields() == [id] + ([at.group] + ([at.objectId] + []));
      }
    } else {
      assert f.AsFields() == [id] + [];
    }
  }

  lemma Started(c: Codec, s: seq<byte>)
    requires Decoding(c, s).result.Ok?
    ensures s != []
  {
  }

  lemma RunOf(c: Codec, room: nat, s: seq<byte>)
    requires room > 0 && Decoding(c, s).result.Ok?
    ensures var d := Decoding(c, s); var more := ReadAll(c, room - 1, d.rest);
            more.Ok? ==> ReadAll(c, room, s) == Ok([d.result.value] + more.value)
  {
    Started(c, s);
  }

  // ------------------------------------------------------------------------ the four shapes

  /** The fields each Filter Type promises, and the bytes they are written as. */
  lemma FilterShapes(c: Codec, f: SubscriptionFilter)
    ensures f.Agrees(!c.Quic?) <==>
            match f
            case SubscriptionFilter(NextGroupStart, None, None) => true
            case SubscriptionFilter(LargestObject, None, None) => true
            case SubscriptionFilter(AbsoluteStart, Some(_), None) => true
            case SubscriptionFilter(AbsoluteRange, Some(_), Some(Group(_))) => c == Quic
            case SubscriptionFilter(AbsoluteRange, Some(_), Some(GroupDelta(_))) => c == Moqt17 || c == Moqt18
            case _ => false
    ensures match f
            case SubscriptionFilter(NextGroupStart, None, None) => f.AsFields() == [1]
            case SubscriptionFilter(LargestObject, None, None) => f.AsFields() == [2]
            case SubscriptionFilter(AbsoluteStart, Some(start), None) =>
              f.AsFields() == [3, start.group, start.objectId]
            case SubscriptionFilter(AbsoluteRange, Some(start), Some(Group(end))) =>
              f.AsFields() == [4, start.group, start.objectId, end]
            case SubscriptionFilter(AbsoluteRange, Some(start), Some(GroupDelta(delta))) =>
              f.AsFields() == [4, start.group, start.objectId, delta]
            case _ => true
  {
  }

  /** The bytes of a filter in any spelling a reader takes: only the shortest is written. */
  predicate FilterSpelled(c: Codec, s: seq<byte>, f: SubscriptionFilter) {
    match f
    case SubscriptionFilter(NextGroupStart, None, None) => Spells(c, s, [1], [])
    case SubscriptionFilter(LargestObject, None, None) => Spells(c, s, [2], [])
    case SubscriptionFilter(AbsoluteStart, Some(start), None) => Spells(c, s, [3, start.group, start.objectId], [])
    case SubscriptionFilter(AbsoluteRange, Some(start), Some(Group(end))) =>
      c == Quic && Spells(c, s, [4, start.group, start.objectId, end], [])
    case SubscriptionFilter(AbsoluteRange, Some(start), Some(GroupDelta(delta))) =>
      c != Quic && Spells(c, s, [4, start.group, start.objectId, delta], [])
    case _ => false
  }

  /** A value is read as a filter exactly when its bytes spell that filter's fields and nothing more. */
  lemma FilterReadsExactly(c: Codec, s: seq<byte>, f: SubscriptionFilter)
    ensures DecodeFilter(c, s) == Ok(f) <==> FilterSpelled(c, s, f)
  {
    hide Decoding, Spells, RanOut;
    SpellsOne(c, s, 1, []);
    SpellsOne(c, s, 2, []);
    if f.startLocation.Some? {
      var at := f.startLocation.value;
      SpellsThree(c, s, 3, at.group, at.objectId, []);
      if f.endGroup.Some? {
        var end := f.endGroup.value.Raw();
        var two := Decoding(c, s).rest;
        assert [4, at.group, at.objectId, end] == [4] + [at.group, at.objectId, end];
        SpellsMore(c, s, 4, [at.group, at.objectId, end], []);
        SpellsThree(c, two, at.group, at.objectId, end, []);
      }
    }
  }

  lemma SpellsThree(c: Codec, s: seq<byte>, u: u64, v: u64, w: u64, rest: seq<byte>)
    ensures var one := Decoding(c, s); var two := Decoding(c, one.rest);
            Spells(c, s, [u, v, w], rest) <==>
            one.result == Ok(u) && two.result == Ok(v) && Decoding(c, two.rest) == Parsed(Ok(w), rest)
  {
    hide Decoding, Spells;
    var one := Decoding(c, s);
    assert [u, v, w] == [u] + [v, w] && [v, w] == [v] + [w];
    SpellsMore(c, s, u, [v, w], rest);
    SpellsMore(c, one.rest, v, [w], rest);
    SpellsOne(c, Decoding(c, one.rest).rest, w, rest);
  }

  /** Where the reader of a filter looks for another integer, having read these. */
  predicate Expects(before: seq<u64>) {
    || before == []
    || ((before[0] == 3 || before[0] == 4) && |before| <= 2)
    || (before[0] == 4 && |before| == 3)
  }

  /** An integer that is missing is the filter's own fault; one that is there and undefined is reported as itself. */
  lemma StopsAt(c: Codec, s: seq<byte>, before: seq<u64>, rest: seq<byte>)
    requires Expects(before) && Spells(c, s, before, rest) && Decoding(c, rest).result.Err?
    ensures var r := DecodeFilter(c, s);
            && r.Err?
            && match Decoding(c, rest).result.error
               case InvalidCodePoint => r.error == CodecError.VarInt(InvalidCodePoint)
               case UnexpectedEnd => r.error.SubscriptionFilterMalformed?
               case Overflow(_) => true
  {
    hide Decoding, Spells;
    Opened(c, s, before, rest);
  }

  /** Reading what was spelled, one integer at a time. */
  lemma Opened(c: Codec, s: seq<byte>, before: seq<u64>, rest: seq<byte>)
    requires |before| <= 3 && Spells(c, s, before, rest)
    ensures |before| == 0 ==> s == rest
    ensures |before| >= 1 ==> Decoding(c, s).result == Ok(before[0])
    ensures |before| == 1 ==> Decoding(c, s).rest == rest
    ensures |before| >= 2 ==> Decoding(c, Decoding(c, s).rest).result == Ok(before[1])
    ensures |before| == 2 ==> Decoding(c, Decoding(c, s).rest).rest == rest
    ensures |before| == 3 ==>
              Decoding(c, Decoding(c, Decoding(c, s).rest).rest) == Parsed(Ok(before[2]), rest)
  {
    hide Decoding, Spells;
    SpelledFirst(c, s, before, rest);
    if before != [] {
      var one := Decoding(c, s).rest;
      SpelledFirst(c, one, before[1..], rest);
      if |before| >= 2 {
        var two := Decoding(c, one).rest;
        SpelledFirst(c, two, before[1..][1..], rest);
        if |before| == 3 {
          SpelledFirst(c, Decoding(c, two).rest, before[1..][1..][1..], rest);
        }
      }
    }
  }

  lemma SpelledFirst(c: Codec, s: seq<byte>, fs: seq<u64>, rest: seq<byte>)
    requires Spells(c, s, fs, rest)
    ensures fs == [] ==> s == rest
    ensures fs != [] ==> Decoding(c, s).result == Ok(fs[0]) && Spells(c, Decoding(c, s).rest, fs[1..], rest)
  {
    hide Decoding;
  }

  /** A type outside the four is refused by its number, before anything after it is looked at. */
  lemma UnknownTypeRefused(c: Codec, s: seq<byte>, id: u64)
    ensures DecodeFilter(c, s) == Err(InvalidFilterType(id)) <==>
            Decoding(c, s).result == Ok(id) && (id == 0 || id > 4)
  {
    hide Decoding, RanOut;
    RanOutIs();
  }

  lemma RanOutIs()
    ensures forall e, detail, id :: RanOut(e, detail) != InvalidFilterType(id)
  {
  }

  /** A broken filter is never mistaken for a truncated frame. */
  lemma NeverIncomplete(c: Codec, s: seq<byte>)
    ensures var r := DecodeFilter(c, s);
            r.Err? ==> !r.error.IsIncomplete() && (r.error.VarInt? ==> c == Moqt17 && r.error.error == InvalidCodePoint)
  {
    hide Decoding;
    IntegerFaults(c);
  }

  lemma IntegerFaults(c: Codec)
    ensures forall s :: var r := Decoding(c, s).result;
              r.Err? ==> r.error == VarIntError.UnexpectedEnd || (c == Moqt17 && r.error == InvalidCodePoint)
  {
  }

  // ----------------------------------------------------------------------------- methods

  method DecodeWith(c: Codec, bytes: seq<byte>) returns (r: Result<SubscriptionFilter, CodecError>)
    ensures r == DecodeFilter(c, bytes)
  {
    hide Decoding;
    var buf := new Buf(bytes);
    var raw := ReadWith(c, buf);
    if raw.Err? {
      return Err(RanOut(raw.error, NO_FILTER_TYPE));
    }
    var filterType := FilterTypeOf(raw.value);
    if filterType.None? {
      return Err(InvalidFilterType(raw.value));
    }
    var startLocation: Option<Location> := None;
    if filterType.value.WantsStart() {
      var group := ReadWith(c, buf);
      if group.Err? {
        return Err(RanOut(group.error, NO_START));
      }
      var objectId := ReadWith(c, buf);
      if objectId.Err? {
        return Err(RanOut(objectId.error, NO_START));
      }
      startLocation := Some(TrackLocations.Location(group.value, objectId.value));
    }
    var endGroup: Option<FilterEnd> := None;
    if filterType.value.WantsEnd() {
      var end := ReadWith(c, buf);
      if end.Err? {
        return Err(RanOut(end.error, NO_END));
      }
      endGroup := Some(EndOf(c, end.value));
    }
    if buf.rest != [] {
      return Err(SubscriptionFilterMalformed(TRAILING));
    }
    return Ok(SubscriptionFilter(filterType.value, startLocation, endGroup));
  }

  /** The first disagreement between a filter and its own type, in the order the writer looks. */
  function Disagreement(f: SubscriptionFilter, endIsDelta: bool): (d: Option<string>)
    ensures d.None? <==> f.Agrees(endIsDelta)
  {
    if f.filterType.WantsStart() && f.startLocation.None? then Some(START_MISSING)
    else if !f.filterType.WantsStart() && f.startLocation.Some? then Some(START_SURPLUS)
    else if f.filterType.WantsEnd() && f.endGroup.None? then Some(END_MISSING)
    else if !f.filterType.WantsEnd() && f.endGroup.Some? then Some(END_SURPLUS)
    else if f.endGroup.Some? && f.endGroup.value.GroupDelta? && !endIsDelta then Some(END_IS_DELTA)
    else if f.endGroup.Some? && f.endGroup.value.Group? && endIsDelta then Some(END_IS_ABSOLUTE)
    else None
  }

  /** The first field the encoding cannot spell. */
  function FirstUnfit(c: Codec, fs: seq<u64>): (v: u64)
    requires !Fit(c, fs)
    ensures v > MaxValue(c) && v in fs
  {
    if fs[0] > MaxValue(c) then fs[0]
    else
      FitSplit(c, fs);
      FirstUnfit(c, fs[1..])
  }

  /** One integer: refused where the QUIC encoding cannot spell it. */
  method Write(c: Codec, v: u64, out: BufMut) returns (r: Result<(), CodecError>)
    modifies out
    ensures r == if v <= MaxValue(c) then Ok(()) else Err(CodecError.VarInt(Overflow(v)))
    ensures r.Ok? ==> out.data == old(out.data) + Encoding(c, v)
  {
    hide Encoding, EncodedLen;
    if c.Quic? {
      var fits := FromU64(v);
      FromU64IsRange(v);
      if fits.Err? {
        return Err(CodecError.VarInt(fits.error));
      }
    }
    WriteInt(c, v, out);
    return Ok(());
  }

  lemma FromU64IsRange(v: u64)
    ensures FromU64(v).Ok? <==> v <= MaxValue(Quic)
  {
  }

  /** The writer refuses a filter its own reader would not hand back, and then leaves the buffer alone. */
  method EncodeWith(c: Codec, f: SubscriptionFilter, buf: BufMut) returns (r: Result<(), CodecError>)
    modifies buf
    ensures r == if !f.Agrees(!c.Quic?) then Err(SubscriptionFilterMalformed(Disagreement(f, !c.Quic?).value))
                 else if !Fit(c, f.AsFields()) then Err(CodecError.VarInt(Overflow(FirstUnfit(c, f.AsFields()))))
                 else Ok(())
    ensures buf.data == old(buf.data) + if r.Ok? then Fields(c, f.AsFields()) else []
  {
    hide Encoding, EncodedLen, Fields, FirstUnfit, Fit;
    var fault := Disagreement(f, !c.Quic?);
    if fault.Some? {
      return Err(SubscriptionFilterMalformed(fault.value));
    }
    var out := new BufMut();
    ghost var fs := f.AsFields();
    StillToWrite(c, fs, 0);
    r := Write(c, f.filterType.Id(), out);
    SmallId(c, f.filterType);
    StillToWrite(c, fs, 1);
    if f.startLocation.Some? {
      r := Write(c, f.startLocation.value.group, out);
      if r.Err? {
        return;
      }
      StillToWrite(c, fs, 2);
      r := Write(c, f.startLocation.value.objectId, out);
      if r.Err? {
        return;
      }
      StillToWrite(c, fs, 3);
    }
    if f.endGroup.Some? {
      r := Write(c, f.endGroup.value.Raw(), out);
      if r.Err? {
        return;
      }
      StillToWrite(c, fs, 4);
    }
    buf.PutSlice(out.data);
  }

  /** After `i` fields that fitted, the rest decides what happens. */
  lemma StillToWrite(c: Codec, fs: seq<u64>, i: nat)
    requires i <= |fs| && (i > 0 ==> Fit(c, fs[..i]))
    ensures Fields(c, fs[..0]) == [] && fs[..|fs|] == fs
    ensures i < |fs| ==> Fields(c, fs[..i + 1]) == Fields(c, fs[..i]) + Encoding(c, fs[i])
    ensures i < |fs| && fs[i] > MaxValue(c) ==> !Fit(c, fs) && FirstUnfit(c, fs) == fs[i]
    ensures i < |fs| && fs[i] <= MaxValue(c) ==> Fit(c, fs[..i + 1])
  {
    hide Encoding, EncodedLen, Fields, FirstUnfit;
    OneMoreField(c, fs, i);
    if i < |fs| && fs[i] > MaxValue(c) {
      FirstUnfitIs(c, fs, i);
    }
  }

  lemma {:induction false} FirstUnfitIs(c: Codec, fs: seq<u64>, i: nat)
    requires i < |fs| && Fit(c, fs[..i]) && fs[i] > MaxValue(c)
    ensures !Fit(c, fs) && FirstUnfit(c, fs) == fs[i]
    decreases i
  {
    if i > 0 {
      FitSplit(c, fs[..i]);
      assert fs[..i][1..] == fs[1..][..i - 1] && fs[..i][0] == fs[0];
      FirstUnfitIs(c, fs[1..], i - 1);
    }
  }
}
