/**
 The LOCATION_FILTER of drafts 20 to 22. Drafts 20 and 21 tell its shapes apart by how many integers
 the value holds; draft-22 writes a type in front and lets the type say how many follow.
 */
module LocationFilters {
  import opened Bytes
  import opened VarInt
  import opened VarIntLaws
  import opened VarIntCodec
  import opened Errors
  import opened FieldLists
  import TrackLocations

  type Location = TrackLocations.Location

  const WIRE := Moqt18
  const MAX_FIELDS := 4

  const TOO_MANY := "it holds more than the four vi64 fields Section 5.1.2 defines"
  const RUNS_PAST := "a field runs past the end of the parameter's Length"
  const TYPE_RUNS_PAST := "its Location Filter Type runs past the end of the message"
  const FIELD_RUNS_PAST := "a field its Location Filter Type names runs past the end of the message"
  const BYTES_FOLLOW := "bytes follow the fields its Location Filter Type names"

  datatype FillError = EndGroupOverflow(startGroup: u64, delta: u64)

  /** Counted on drafts 20 and 21, Typed on draft-22. */
  datatype LocationFilter = Counted(fields: seq<u64>) | Typed(filterType: u64, fields: seq<u64>) {
    function AsFields(): seq<u64> {
      match this
      case Counted(fs) => fs
      case Typed(ty, fs) => [ty] + fs
    }

    /** A filter its own draft defines. */
    predicate WellShaped() {
      match this
      case Counted(fs) => |fs| <= MAX_FIELDS
      case Typed(ty, fs) => FieldCount(ty) == Some(|fs|)
    }
  }

  /** How many fields a Location Filter Type promises; none for a type draft-22 does not assign. */
  function FieldCount(filterType: u64): Option<nat> {
    match filterType
    case 0 => Some(0)
    case 1 => Some(1)
    case 2 => Some(2)
    case 3 => Some(3)
    case 4 => Some(4)
    case 5 => Some(0)
    case _ => None
  }

  // ---------------------------------------------------------------------- constructors

  function Shape(typed: bool, filterType: u64, fields: seq<u64>): LocationFilter {
    if typed then Typed(filterType, fields) else Counted(fields)
  }

  function CheckEndGroup(startGroup: u64, delta: u64): (r: Result<(), FillError>)
    ensures r.Ok? <==> startGroup + delta < U64_LIMIT
  {
    if startGroup + delta < U64_LIMIT then Ok(()) else Err(EndGroupOverflow(startGroup, delta))
  }

  function AbsoluteStart(typed: bool, startGroup: u64, startObject: u64): LocationFilter {
    Shape(typed, 2, [startGroup, startObject])
  }

  function RangeFilter(typed: bool, startGroup: u64, startObject: u64, delta: u64): Result<LocationFilter, FillError> {
    match CheckEndGroup(startGroup, delta)
    case Err(e) => Err(e)
    case Ok(_) => Ok(Shape(typed, 3, [startGroup, startObject, delta]))
  }

  function RangeToFilter(typed: bool, startGroup: u64, startObject: u64, delta: u64, endObject: u64)
    : Result<LocationFilter, FillError>
  {
    match CheckEndGroup(startGroup, delta)
    case Err(e) => Err(e)
    case Ok(_) => Ok(Shape(typed, 4, [startGroup, startObject, delta, endObject]))
  }

  // ------------------------------------------------------------------------ what a filter means

  datatype Form = Everything | RelativeStart | NextObject | FromStart | ToGroupEnd | ToObject

  function FormOf(f: LocationFilter): Form
    requires f.WellShaped()
  {
    match f
    case Counted(fs) =>
      if fs == [0, 0] then NextObject
      else [Everything, RelativeStart, FromStart, ToGroupEnd, ToObject][|fs|]
    case Typed(ty, _) =>
      [Everything, RelativeStart, FromStart, ToGroupEnd, ToObject, NextObject][ty]
  }

  /**
   Whether a Location passes the filter. `largest` is the track's live edge at the receiver, which only
   the Next Object form consults; the relative start, which no range is ever written as, has no meaning here.
   */
  predicate Passes(f: LocationFilter, largest: Option<Location>, at: Location)
    requires f.WellShaped()
  {
    match FormOf(f)
    case Everything => true
    case RelativeStart => false
    case NextObject => largest.Some? ==> largest.value.Less(at)
    case FromStart => StartOf(f).AtMost(at)
    case ToGroupEnd => StartOf(f).AtMost(at) && at.group <= LastGroup(f)
    case ToObject =>
      && StartOf(f).AtMost(at)
      && (at.group < LastGroup(f) || (at.group == LastGroup(f) && at.objectId <= f.fields[3]))
  }

  function StartOf(f: LocationFilter): Location
    requires |f.fields| >= 2
  {
    TrackLocations.Location(f.fields[0], f.fields[1])
  }

  function LastGroup(f: LocationFilter): int
    requires |f.fields| >= 3
  {
    var start, delta: int := f.fields[0], f.fields[2];
    start + delta
  }

  // ------------------------------------------------------------------------------- bytes

  function FilterBytes(f: LocationFilter): seq<byte> {
    Fields(WIRE, f.AsFields())
  }

  function DecodeCounted(s: seq<byte>): Result<LocationFilter, CodecError> {
    match ReadAll(WIRE, MAX_FIELDS, s)
    case Ok(fs) => Ok(Counted(fs))
    case Err(TooMany) => Err(SubscriptionFilterMalformed(TOO_MANY))
    case Err(RunsPast) => Err(SubscriptionFilterMalformed(RUNS_PAST))
  }

  /** A draft-22 filter off the front of a message: nothing but its type says where it ends. */
  function ReadTyped(s: seq<byte>): Parsed<LocationFilter, CodecError> {
    var ty := Decoding(WIRE, s);
    match ty.result
    case Err(_) => Parsed(Err(SubscriptionFilterMalformed(TYPE_RUNS_PAST)), ty.rest)
    case Ok(t) =>
      match FieldCount(t)
      case None => Parsed(Err(InvalidFilterType(t)), ty.rest)
      case Some(n) =>
        var fs := ReadN(WIRE, n, ty.rest);
        match fs.result
        case Err(_) => Parsed(Err(SubscriptionFilterMalformed(FIELD_RUNS_PAST)), fs.rest)
        case Ok(vs) => Parsed(Ok(Typed(t, vs)), fs.rest)
  }

  function DecodeTyped(s: seq<byte>): Result<LocationFilter, CodecError> {
    var p := ReadTyped(s);
    if p.result.Ok? && p.rest != [] then Err(SubscriptionFilterMalformed(BYTES_FOLLOW)) else p.result
  }

  function DecodeFilter(typed: bool, s: seq<byte>): Result<LocationFilter, CodecError> {
    if typed then DecodeTyped(s) else DecodeCounted(s)
  }

  /** The one arithmetic rule a receiver holds a decoded filter to. */
  function CheckFilterFields(f: LocationFilter): (r: Result<(), CodecError>)
    ensures r.Ok? <==> |f.fields| < 3 || LastGroup(f) < U64_LIMIT
  {
    if |f.fields| < 3 || LastGroup(f) < U64_LIMIT then Ok(())
    else Err(FilterEndGroupOverflow(f.fields[0], f.fields[2]))
  }

  // -------------------------------------------------------------------------------- laws

  /** The constructors refuse exactly the fields a receiver would: no filter that can be built is refused on arrival. */
  lemma BuiltExactlyWhenReceived(typed: bool, startGroup: u64, startObject: u64, delta: u64, endObject: u64)
    ensures var f := Shape(typed, 3, [startGroup, startObject, delta]);
            RangeFilter(typed, startGroup, startObject, delta) == Ok(f) <==> CheckFilterFields(f).Ok?
    ensures var f := Shape(typed, 4, [startGroup, startObject, delta, endObject]);
            RangeToFilter(typed, startGroup, startObject, delta, endObject) == Ok(f) <==> CheckFilterFields(f).Ok?
  {
  }

  /** What was written in front of a message is read back, and the message is left where it was. */
  lemma TypedReads(f: LocationFilter, tail: seq<byte>)
    requires f.Typed? && f.WellShaped()
    ensures ReadTyped(FilterBytes(f) + tail) == Parsed(Ok(f), tail)
  {
    hide Decoding, Encoding, ReadN;
    var more := Fields(WIRE, f.fields) + tail;
    assert f.AsFields()[1..] == f.fields;
    assert FilterBytes(f) + tail == Encoding(WIRE, f.filterType) + more;
    RoundTrip(WIRE, f.filterType, more);
    AllFit(WIRE, f.fields);
    FieldsRoundTrip(WIRE, f.fields, tail);
  }

  /** A filter survives its bytes exactly when its draft defines its shape. */
  lemma FilterRoundTrip(f: LocationFilter)
    ensures DecodeFilter(f.Typed?, FilterBytes(f)) == Ok(f) <==> f.WellShaped()
  {
    hide Decoding, Encoding, ReadN, ReadAll;
    AllFit(WIRE, f.AsFields());
    match f {
      case Counted(fs) =>
        AllRead(WIRE, MAX_FIELDS, fs);
      case Typed(_, fs) =>
        if f.WellShaped() {
          TypedReads(f, []);
          assert FilterBytes(f) + [] == FilterBytes(f);
        }
    }
  }

  /** Any value a draft-20 or 21 receiver accepts has one shortest spelling, the writer's. */
  lemma CountedCanonical(s: seq<byte>)
    requires DecodeCounted(s).Ok?
    ensures var e := FilterBytes(DecodeCounted(s).value);
            |e| <= |s| && (|e| == |s| <==> e == s) && DecodeCounted(e) == DecodeCounted(s)
  {
    hide ReadAll;
    AllShortest(WIRE, MAX_FIELDS, s);
    FilterRoundTrip(DecodeCounted(s).value);
  }

  /** The shapes the drafts define: up to four counted fields, or six types with a number of fields each. */
  lemma ShapesDefined(f: LocationFilter)
    ensures f.WellShaped() <==>
            match f
            case Counted(fs) => |fs| <= 4
            case Typed(ty, fs) =>
              (ty == 0 && fs == []) || (ty == 1 && |fs| == 1) || (ty == 2 && |fs| == 2)
              || (ty == 3 && |fs| == 3) || (ty == 4 && |fs| == 4) || (ty == 5 && fs == [])
  {
  }

  /** A draft-20 or 21 value is read exactly when it is up to four integers and nothing more. */
  lemma CountedReadsExactly(s: seq<byte>, fs: seq<u64>)
    ensures DecodeCounted(s) == Ok(Counted(fs)) <==> |fs| <= 4 && Spells(Moqt18, s, fs, [])
  {
    hide ReadAll;
    AllIsSpelled(Moqt18, 4, s, fs);
  }

  lemma {:induction false} AllIsSpelled(c: Codec, room: nat, s: seq<byte>, fs: seq<u64>)
    ensures ReadAll(c, room, s) == Ok(fs) <==> |fs| <= room && Spells(c, s, fs, [])
    decreases |fs|
  {
    hide Decoding;
    NothingSpelled(c);
    if fs != [] && room > 0 && s != [] {
      var one := Decoding(c, s);
      AllIsSpelled(c, room - 1, one.rest, fs[1..]);
      var more := ReadAll(c, room - 1, one.rest);
      if one.result.Ok? && more.Ok? {
        var all := [one.result.value] + more.value;
        assert all[0] == one.result.value && all[1..] == more.value && fs == [fs[0]] + fs[1..];
      }
    }
  }

  lemma NothingSpelled(c: Codec)
    ensures Decoding(c, []).result.Err?
  {
  }

  /** A draft-22 filter is read exactly when its type and the fields it names come first, whatever follows. */
  lemma TypedReadsExactly(s: seq<byte>, ty: u64, fs: seq<u64>, rest: seq<byte>)
    ensures ReadTyped(s) == Parsed(Ok(Typed(ty, fs)), rest) <==>
            Typed(ty, fs).WellShaped() && Spells(Moqt18, s, [ty] + fs, rest)
    ensures DecodeTyped(s) == Ok(Typed(ty, fs)) <==>
            Typed(ty, fs).WellShaped() && Spells(Moqt18, s, [ty] + fs, [])
  {
    hide Decoding, Spells, ReadN;
    var one := Decoding(Moqt18, s);
    SpellsMore(Moqt18, s, ty, fs, rest);
    SpellsIsRead(Moqt18, one.rest, fs, rest);
    SpellsMore(Moqt18, s, ty, fs, []);
    SpellsIsRead(Moqt18, one.rest, fs, []);
  }

  /** A type past the six is refused by its number; every other refusal is a malformed value, never a short frame. */
  lemma Refusals(typed: bool, s: seq<byte>)
    requires DecodeFilter(typed, s).Err?
    ensures var e, ty := DecodeFilter(typed, s).error, Decoding(Moqt18, s).result;
            if typed && ty.Ok? && ty.value > 5 then e == InvalidFilterType(ty.value)
            else e.SubscriptionFilterMalformed?
  {
    hide Decoding, ReadN, ReadAll;
  }

  // ----------------------------------------------------------------------------- methods

  method EncodeValue(f: LocationFilter, buf: BufMut)
    modifies buf
    ensures buf.data == old(buf.data) + FilterBytes(f)
  {
    hide Encoding, EncodedLen;
    ghost var start := buf.data;
    match f {
      case Counted(fs) =>
        WriteFields(WIRE, fs, buf);
      case Typed(ty, fs) =>
        WriteInt(WIRE, ty, buf);
        WriteFields(WIRE, fs, buf);
        assert f.AsFields()[1..] == fs;
        assert buf.data == start + (Encoding(WIRE, ty) + Fields(WIRE, fs));
    }
  }

  /** What is already read, ahead of what the rest of the bytes answer. */
  function Ahead<E>(fs: seq<u64>, more: Result<seq<u64>, E>): Result<seq<u64>, E> {
    match more
    case Ok(vs) => Ok(fs + vs)
    case Err(e) => Err(e)
  }

  lemma AheadOf<E>(fs: seq<u64>, v: u64, more: Result<seq<u64>, E>)
    ensures Ahead([], more) == more
    ensures Ahead(fs + [v], more) == Ahead(fs, Ahead([v], more))
    ensures more == Ok([]) ==> Ahead(fs, more) == Ok(fs)
  {
    if more.Ok? {
      assert [] + more.value == more.value && fs + [] == fs;
      assert fs + [v] + more.value == fs + ([v] + more.value);
    }
  }

  method DecodeCountedValue(value: seq<byte>) returns (r: Result<seq<u64>, CodecError>)
    ensures r == match DecodeCounted(value) case Ok(f) => Ok(f.fields) case Err(e) => Err(e)
  {
    hide Decoding;
    var fields: seq<u64> := [];
    var cursor := new Buf(value);
    AheadOf(fields, 0, ReadAll(WIRE, MAX_FIELDS, value));
    while cursor.rest != []
      invariant |fields| <= MAX_FIELDS
      invariant ReadAll(WIRE, MAX_FIELDS, value) == Ahead(fields, ReadAll(WIRE, MAX_FIELDS - |fields|, cursor.rest))
      decreases |cursor.rest|
    {
      if |fields| == MAX_FIELDS {
        return Err(SubscriptionFilterMalformed(TOO_MANY));
      }
      ghost var before := cursor.rest;
      var field := ReadWith(WIRE, cursor);
      if field.Err? {
        return Err(SubscriptionFilterMalformed(RUNS_PAST));
      }
      Consumes(WIRE, before);
      AheadOf(fields, field.value, ReadAll(WIRE, MAX_FIELDS - |fields| - 1, cursor.rest));
      fields := fields + [field.value];
    }
    AheadOf(fields, 0, ReadAll(WIRE, MAX_FIELDS - |fields|, cursor.rest));
    return Ok(fields);
  }

  lemma Consumes(c: Codec, s: seq<byte>)
    requires Decoding(c, s).result.Ok?
    ensures |Decoding(c, s).rest| < |s|
  {
  }

  method ReadLocationFilter(buf: Buf) returns (r: Result<LocationFilter, CodecError>)
    modifies buf
    ensures Parsed(r, buf.rest) == ReadTyped(old(buf.rest))
  {
    hide Decoding;
    var ty := ReadWith(WIRE, buf);
    if ty.Err? {
      return Err(SubscriptionFilterMalformed(TYPE_RUNS_PAST));
    }
    var count := FieldCount(ty.value);
    if count.None? {
      return Err(InvalidFilterType(ty.value));
    }
    var fields: seq<u64> := [];
    ghost var body := buf.rest;
    AheadOf(fields, 0, ReadN(WIRE, count.value, body).result);
    for i := 0 to count.value
      invariant |fields| == i
      invariant ReadN(WIRE, count.value, body).result == Ahead(fields, ReadN(WIRE, count.value - i, buf.rest).result)
      invariant ReadN(WIRE, count.value, body).rest == ReadN(WIRE, count.value - i, buf.rest).rest
    {
      var field := ReadWith(WIRE, buf);
      if field.Err? {
        return Err(SubscriptionFilterMalformed(FIELD_RUNS_PAST));
      }
      AheadOf(fields, field.value, ReadN(WIRE, count.value - i - 1, buf.rest).result);
      fields := fields + [field.value];
    }
    AheadOf(fields, 0, ReadN(WIRE, 0, buf.rest).result);
    return Ok(Typed(ty.value, fields));
  }

  method DecodeTypedValue(value: seq<byte>) returns (r: Result<LocationFilter, CodecError>)
    ensures r == DecodeTyped(value)
  {
    hide ReadTyped;
    var cursor := new Buf(value);
    r := ReadLocationFilter(cursor);
    if r.Ok? && cursor.rest != [] {
      r := Err(SubscriptionFilterMalformed(BYTES_FOLLOW));
    }
  }
}
