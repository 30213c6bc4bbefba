/**
 A FETCH's range, said once, and the forms the drafts write it in: four inline fields whose end Object is
 plus one on drafts 7 to 19, and an inclusive LOCATION_FILTER on drafts 20 to 22.
 */
module FetchRanges {
  import opened Bytes
  import opened VarInt
  import opened Errors
  import opened FieldLists
  import opened LocationFilters
  import opened Drafts
  import opened RangeChecks
  import TrackLocations

  type Location = TrackLocations.Location

  datatype FetchEnd = Object(last: u64) | EntireGroup

  datatype RangeError =
    | NoInlineEnd(last: u64)
    | RunsBackwards(startGroup: u64, endGroup: u64)
    | Filter(error: FillError)

  datatype FetchRange = FetchRange(startGroup: u64, startObject: u64, endGroup: u64, end: FetchEnd) {
    function Start(): Location {
      TrackLocations.Location(startGroup, startObject)
    }

    /** The Locations the range asks for: inclusive at both ends. */
    predicate Holds(at: Location) {
      && Start().AtMost(at)
      && (at.group < endGroup || (at.group == endGroup && (end.Object? ==> at.objectId <= end.last)))
    }

    function InlineEndObject(): Result<u64, RangeError> {
      match end
      case EntireGroup => Ok(0)
      case Object(last) => if last + 1 < U64_LIMIT then Ok(last + 1) else Err(NoInlineEnd(last))
    }

    function AsLocationFilter(typed: bool): Result<LocationFilter, RangeError> {
      if endGroup < startGroup then Err(RunsBackwards(startGroup, endGroup))
      else
        var delta := endGroup - startGroup;
        var filter := match end
          case EntireGroup => RangeFilter(typed, startGroup, startObject, delta)
          case Object(last) => RangeToFilter(typed, startGroup, startObject, delta, last);
        match filter
        case Ok(f) => Ok(f)
        case Err(e) => Err(Filter(e))
    }
  }

  /** The range as a draft's FETCH carries it. */
  datatype FetchWire =
    | Inline(startGroup: u64, startObject: u64, endGroup: u64, endObject: u64)
    | Parameter(filter: LocationFilter)
  {
    function AsFields(): seq<u64> {
      match this
      case Inline(sg, so, eg, eo) => [sg, so, eg, eo]
      case Parameter(f) => f.AsFields()
    }

    /** A wire form some draft defines. */
    predicate WellShaped() {
      Parameter? ==> filter.WellShaped()
    }

    /** The Locations a publisher reading these fields serves; an inline end Object of 0 is the whole Group. */
    predicate Holds(largest: Option<Location>, at: Location)
      requires WellShaped()
    {
      match this
      case Inline(sg, so, eg, eo) => InlineHolds(TrackLocations.Location(sg, so), TrackLocations.Location(eg, eo), at)
      case Parameter(f) => Passes(f, largest, at)
    }
  }

  function ToWire(d: Draft, r: FetchRange): Result<FetchWire, RangeError> {
    if d <= 19 then
      match r.InlineEndObject()
      case Err(e) => Err(e)
      case Ok(eo) => Ok(Inline(r.startGroup, r.startObject, r.endGroup, eo))
    else
      match r.AsLocationFilter(d == 22)
      case Err(e) => Err(e)
      case Ok(f) => Ok(Parameter(f))
  }

  function WireBytes(d: Draft, w: FetchWire): seq<byte> {
    Fields(CodecOf(d), w.AsFields())
  }

  /** The codec's check on the fields, the same before writing and after reading. */
  function Checked(w: FetchWire): Result<(), CodecError> {
    match w
    case Inline(sg, so, eg, eo) => CheckLocationRange(TrackLocations.Location(sg, so), TrackLocations.Location(eg, eo))
    case Parameter(f) => CheckFilterFields(f)
  }

  /** The fields a receiver of the draft reads: four integers off the message, or the whole of a parameter value. */
  function ReadFields(d: Draft, s: seq<byte>): Result<FetchWire, CodecError> {
    if d <= 19 then
      match ReadN(CodecOf(d), 4, s).result
      case Err(e) => Err(CodecError.VarInt(e))
      case Ok(fs) => Ok(Inline(fs[0], fs[1], fs[2], fs[3]))
    else
      match DecodeFilter(d == 22, s)
      case Err(e) => Err(e)
      case Ok(f) => Ok(Parameter(f))
  }

  /** The bytes a draft puts a range's fields into, unless its check refuses them first. */
  function Written(d: Draft, w: FetchWire): Result<seq<byte>, CodecError> {
    match Checked(w)
    case Err(e) => Err(e)
    case Ok(_) => Ok(WireBytes(d, w))
  }

  function ReadWire(d: Draft, s: seq<byte>): Result<FetchWire, CodecError> {
    match ReadFields(d, s)
    case Err(e) => Err(e)
    case Ok(w) =>
      match Checked(w)
      case Err(e) => Err(e)
      case Ok(_) => Ok(w)
  }

  /** A draft can carry a range: it converts, passes the codec's check, and fits the draft's integers. */
  predicate Carries(d: Draft, r: FetchRange) {
    var w := ToWire(d, r);
    w.Ok? && Checked(w.value).Ok? && Fit(CodecOf(d), w.value.AsFields())
  }

  /** What the receiver of a range ends up with, where it gets there at all. */
  function Received(d: Draft, r: FetchRange): Option<FetchWire> {
    match ToWire(d, r)
    case Err(_) => None
    case Ok(w) =>
      match Written(d, w)
      case Err(_) => None
      case Ok(s) => var back := ReadWire(d, s); if back.Ok? then Some(back.value) else None
  }

  /** The receiver of a range serves the Locations it holds and no others. */
  ghost predicate Delivers(d: Draft, r: FetchRange) {
    var back := Received(d, r);
    back.Some? && back.value.WellShaped() && forall largest, at :: back.value.Holds(largest, at) <==> r.Holds(at)
  }

  /** The range a wire form came from. */
  function FromWire(w: FetchWire): Option<FetchRange>
  {
    match w
    case Inline(sg, so, eg, eo) => Some(FetchRange(sg, so, eg, if eo == 0 then EntireGroup else Object(eo - 1)))
    case Parameter(f) =>
      if !f.WellShaped() || (FormOf(f) != ToGroupEnd && FormOf(f) != ToObject) || LastGroup(f) >= U64_LIMIT then None
      else
        var end := if |f.fields| == 3 then EntireGroup else Object(f.fields[3]);
        Some(FetchRange(f.fields[0], f.fields[1], LastGroup(f), end))
  }

  // ------------------------------------------------------------------------------- laws

  /** Exactly which ranges each draft can write. */
  lemma Expressible(d: Draft, r: FetchRange)
    ensures ToWire(d, r).Ok? <==>
            if d <= 19 then r.end != Object(U64_LIMIT - 1) else r.startGroup <= r.endGroup
    ensures ToWire(d, r).Ok? ==> ToWire(d, r).value.WellShaped()
  {
  }

  /** The bytes each draft writes a range as, in the range's own numbers and the draft's own integers. */
  lemma WrittenAs(d: Draft, r: FetchRange)
    requires ToWire(d, r).Ok?
    ensures var s := WireBytes(d, ToWire(d, r).value);
            var end := if r.end.EntireGroup? then 0 else r.end.last + 1;
            && (7 <= d <= 16 ==>
                  s == Encoding(Quic, r.startGroup) + Encoding(Quic, r.startObject)
                       + Encoding(Quic, r.endGroup) + Encoding(Quic, end))
            && (d == 17 ==>
                  s == Encoding(Moqt17, r.startGroup) + Encoding(Moqt17, r.startObject)
                       + Encoding(Moqt17, r.endGroup) + Encoding(Moqt17, end))
            && (18 <= d <= 19 ==>
                  s == Encoding(Moqt18, r.startGroup) + Encoding(Moqt18, r.startObject)
                       + Encoding(Moqt18, r.endGroup) + Encoding(Moqt18, end))
            && (20 <= d <= 22 ==>
                  s == (if d < 22 then [] else if r.end.EntireGroup? then Encoding(Moqt18, 3) else Encoding(Moqt18, 4))
                       + Encoding(Moqt18, r.startGroup) + Encoding(Moqt18, r.startObject)
                       + Encoding(Moqt18, r.endGroup - r.startGroup)
                       + (if r.end.EntireGroup? then [] else Encoding(Moqt18, r.end.last)))
  {
    hide Encoding, EncodedLen, Fields;
    var fs := ToWire(d, r).value.AsFields();
    FieldsWritten(CodecOf(d), fs);
    assert d == 22 ==> fs[0] == if r.end.EntireGroup? then 3 else 4;
  }

  /** Whatever form it is written in, the publisher serves the Locations the range holds. */
  lemma SameLocations(d: Draft, r: FetchRange, largest: Option<Location>, at: Location)
    requires ToWire(d, r).Ok?
    ensures ToWire(d, r).value.WellShaped()
    ensures ToWire(d, r).value.Holds(largest, at) <==> r.Holds(at)
  {
  }

  /** No two ranges are written alike: the range can be read off its wire form. */
  lemma WireInverse(d: Draft, r: FetchRange)
    requires ToWire(d, r).Ok?
    ensures FromWire(ToWire(d, r).value) == Some(r)
  {
  }

  /** Past the conversion, the codec lets through the ranges that ask for something; from draft-20, all of them. */
  lemma CodecRefusesTheEmpty(d: Draft, r: FetchRange)
    requires ToWire(d, r).Ok?
    ensures Checked(ToWire(d, r).value).Ok? <==> d >= 20 || exists at :: r.Holds(at)
  {
    hide CheckLocationRange;
    if d <= 19 {
      var Inline(sg, so, eg, eo) := ToWire(d, r).value;
      var start, end := TrackLocations.Location(sg, so), TrackLocations.Location(eg, eo);
      assert forall at :: InlineHolds(start, end, at) <==> r.Holds(at);
    }
  }

  /** A range comes back as it was sent exactly when the draft can carry it. */
  lemma WireRoundTrip(d: Draft, r: FetchRange, tail: seq<byte>)
    requires ToWire(d, r).Ok? && (d > 19 ==> tail == [])
    ensures var w := ToWire(d, r).value;
            ReadWire(d, WireBytes(d, w) + tail) == Ok(w) <==> Carries(d, r)
  {
    hide Fields, ReadN, DecodeFilter, Fit, Checked;
    var w := ToWire(d, r).value;
    if d <= 19 {
      FieldsRead(CodecOf(d), w.AsFields(), tail);
      var back := KeptAll(CodecOf(d), w.AsFields());
      assert |back| == 4 && (back == w.AsFields() <==> Inline(back[0], back[1], back[2], back[3]) == w);
    } else {
      AllFit(CodecOf(d), w.AsFields());
      assert WireBytes(d, w) + tail == WireBytes(d, w);
      FilterRoundTrip(w.filter);
    }
  }

  /** Which ranges a draft can carry, in the range's own numbers: the plus one costs the QUIC drafts one more Object. */
  lemma CarriedRanges(d: Draft, r: FetchRange)
    ensures Carries(d, r) <==>
            if d >= 20 then r.startGroup <= r.endGroup
            else
              && (exists at :: r.Holds(at))
              && r.end != Object(U64_LIMIT - 1)
              && (d <= 16 ==> r.startGroup <= MAX_VARINT && r.startObject <= MAX_VARINT && r.endGroup <= MAX_VARINT
                              && (r.end.Object? ==> r.end.last < MAX_VARINT))
  {
    hide FetchRange.Holds, Checked;
    Expressible(d, r);
    if ToWire(d, r).Ok? {
      CodecRefusesTheEmpty(d, r);
      var fs := ToWire(d, r).value.AsFields();
      if d >= 17 {
        AllFit(CodecOf(d), fs);
      } else {
        assert Fit(Quic, fs) <==>
               fs[0] <= MAX_VARINT && fs[1] <= MAX_VARINT && fs[2] <= MAX_VARINT && fs[3] <= MAX_VARINT;
      }
    }
  }

  /** What a range means survives exactly on the drafts that can carry it: no range that wraps means the same. */
  lemma DeliversExactly(d: Draft, r: FetchRange)
    ensures Delivers(d, r) <==> Carries(d, r)
  {
    hide ToWire, ReadWire, Fit, FetchWire.Holds, FetchRange.Holds, Checked;
    if Carries(d, r) {
      Delivered(d, r);
      Expressible(d, r);
      forall largest, at
        ensures Received(d, r).value.Holds(largest, at) <==> r.Holds(at)
      {
        SameLocations(d, r, largest, at);
      }
    } else if Delivers(d, r) {
      OnlyFitsDeliver(d, r);
    }
  }

  lemma OnlyFitsDeliver(d: Draft, r: FetchRange)
    requires Delivers(d, r)
    ensures Carries(d, r)
  {
    hide Fields, ReadN, Fit, CheckLocationRange, InlineHolds, FetchRange.Holds;
    var w, fs := ToWire(d, r).value, ToWire(d, r).value.AsFields();
    if d >= 17 {
      AllFit(CodecOf(d), fs);
    } else {
      FieldsRead(Quic, fs, []);
      assert Fields(Quic, fs) + [] == Fields(Quic, fs);
      var back := KeptAll(Quic, fs);
      var start, end := TrackLocations.Location(fs[0], fs[1]), TrackLocations.Location(fs[2], fs[3]);
      var start2, end2 := TrackLocations.Location(back[0], back[1]), TrackLocations.Location(back[2], back[3]);
      forall at
        ensures InlineHolds(start, end, at) <==> InlineHolds(start2, end2, at)
      {
        SameLocations(d, r, None, at);
        assert Received(d, r).value.Holds(None, at) <==> r.Holds(at);
      }
      InlineExact(start, end, start2, end2);
      assert back == fs;
    }
  }

  /**
   End to end, against any draft that can carry a range: another draft's receiver serves the same Locations
   exactly when that draft can carry it too.
   */
  lemma FetchMeansTheSame(d: Draft, e: Draft, r: FetchRange)
    requires Carries(e, r)
    ensures Received(e, r).Some? && Received(e, r).value.WellShaped()
    ensures var back, other := Received(d, r), Received(e, r).value;
            Carries(d, r) <==>
            && back.Some? && back.value.WellShaped()
            && forall largest, at :: back.value.Holds(largest, at) <==> other.Holds(largest, at)
  {
    hide Received, Carries, FetchWire.Holds, FetchRange.Holds;
    DeliversExactly(d, r);
    DeliversExactly(e, r);
  }

  lemma Delivered(d: Draft, r: FetchRange)
    requires Carries(d, r)
    ensures ReadWire(d, WireBytes(d, ToWire(d, r).value)) == Ok(ToWire(d, r).value)
  {
    hide ReadWire, ToWire;
    var w := ToWire(d, r).value;
    WireRoundTrip(d, r, []);
    assert WireBytes(d, w) + [] == WireBytes(d, w);
  }

  /**
   One of the ranges that wrap, and the one that widens without a field of its own past the limit: the plus
   one after Object 2^62 - 1 leaves the QUIC range, is written as 0, and is read as the whole Group.
   */
  lemma PlusOneWrapsOnQuic(d: Draft, r: FetchRange)
    requires d <= 16 && r.end == Object(MAX_VARINT) && Fit(Quic, [r.startGroup, r.startObject, r.endGroup])
    requires r.startGroup <= r.endGroup
    ensures ToWire(d, r).Ok? && Checked(ToWire(d, r).value).Ok?
    ensures ReadWire(d, WireBytes(d, ToWire(d, r).value)) == Ok(ToWire(d, r.(end := EntireGroup)).value)
  {
    hide Fields, ReadN;
    var fs := ToWire(d, r).value.AsFields();
    FieldsRead(Quic, fs, []);
    assert Fields(Quic, fs) + [] == Fields(Quic, fs);
    assert fs == [r.startGroup, r.startObject, r.endGroup] + [MAX_VARINT + 1];
    KeptJoin(Quic, [r.startGroup, r.startObject, r.endGroup], MAX_VARINT + 1);
    assert r.startObject <= MAX_VARINT by {
      assert [r.startGroup, r.startObject, r.endGroup][1] == r.startObject;
    }
  }
}
