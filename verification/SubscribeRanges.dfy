/**
 A subscription's range, said once, and the five forms the drafts write it in: an inline End Location
 (draft 7), an absolute End Group (8 to 16), an End Group Delta (17 to 19), a filter told apart by its
 field count (20 and 21), and a typed filter (22). Each refuses the ranges it has no field for.
 */
module SubscribeRanges {
  import opened Bytes
  import opened VarInt
  import opened VarIntLaws
  import opened Errors
  import opened FieldLists
  import opened Drafts
  import R = RangeChecks
  import L = LocationFilters
  import opened SubscriptionFilters
  import TrackLocations

  datatype SubscribeEnd = Open | EndOfGroup(group: u64) | ThroughObject(endGroup: u64, endObject: u64)

  datatype RangeError =
    | NoInlineEnd(endObject: u64)
    | NoEndObject(draft: Draft)
    | RunsBackwards(startGroup: u64, endGroup: u64)
    | MeansNextObject
    | Filter(error: L.FillError)

  datatype SubscribeRange = SubscribeRange(startGroup: u64, startObject: u64, end: SubscribeEnd) {
    function Start(): Location {
      TrackLocations.Location(startGroup, startObject)
    }

    /** The Locations the range asks for: inclusive at both ends. */
    predicate Holds(at: Location) {
      && Start().AtMost(at)
      && match end
         case Open => true
         case EndOfGroup(g) => at.group <= g
         case ThroughObject(g, o) => at.group < g || (at.group == g && at.objectId <= o)
    }

    function TypeOf(): FilterType {
      if end.Open? then AbsoluteStart else AbsoluteRange
    }

    function EndGroup(): Option<u64> {
      match end
      case Open => None
      case EndOfGroup(g) => Some(g)
      case ThroughObject(g, _) => Some(g)
    }

    /** The end Group, and the end Object plus one with 0 for the whole Group. */
    function InlineEndLocation(): Result<Option<Location>, RangeError> {
      match end
      case Open => Ok(None)
      case EndOfGroup(g) => Ok(Some(TrackLocations.Location(g, 0)))
      case ThroughObject(g, o) =>
        if o + 1 < U64_LIMIT then Ok(Some(TrackLocations.Location(g, o + 1))) else Err(NoInlineEnd(o))
    }

    function GroupOnlyEnd(draft: Draft): Result<Option<u64>, RangeError> {
      match end
      case Open => Ok(None)
      case EndOfGroup(g) => Ok(Some(g))
      case ThroughObject(_, _) => Err(NoEndObject(draft))
    }

    function EndGroupDelta(): (r: Result<Option<u64>, RangeError>)
      ensures r.Ok? ==> (r.value.None? <==> end.Open?)
    {
      if EndGroup().None? then Ok(None)
      else if EndGroup().value < startGroup then Err(RunsBackwards(startGroup, EndGroup().value))
      else Ok(Some(EndGroup().value - startGroup))
    }

    function AsSubscriptionFilter(draft: Draft, delta: bool): Result<SubscriptionFilter, RangeError> {
      match GroupOnlyEnd(draft)
      case Err(e) => Err(e)
      case Ok(None) => Ok(SubscriptionFilter(TypeOf(), Some(Start()), None))
      case Ok(Some(group)) =>
        if !delta then Ok(SubscriptionFilter(TypeOf(), Some(Start()), Some(Group(group))))
        else
          match EndGroupDelta()
          case Err(e) => Err(e)
          case Ok(d) => Ok(SubscriptionFilter(TypeOf(), Some(Start()), Some(GroupDelta(d.GetOr(0)))))
    }

    function AsLocationFilter(typed: bool): Result<L.LocationFilter, RangeError> {
      if end.Open? then
        if !typed && startGroup == 0 && startObject == 0 then Err(MeansNextObject)
        else Ok(L.AbsoluteStart(typed, startGroup, startObject))
      else
        match EndGroupDelta()
        case Err(e) => Err(e)
        case Ok(d) =>
          var filter := if end.EndOfGroup? then L.RangeFilter(typed, startGroup, startObject, d.GetOr(0))
                        else L.RangeToFilter(typed, startGroup, startObject, d.GetOr(0), end.endObject);
          match filter
          case Ok(f) => Ok(f)
          case Err(e) => Err(Filter(e))
    }
  }

  /** The range as a draft's SUBSCRIBE carries it: message fields through draft-14, a parameter value after. */
  datatype SubscribeWire =
    | WithEndLocation(filterType: FilterType, start: Option<Location>, end: Option<Location>)
    | WithEndGroup(filterType: FilterType, start: Option<Location>, endGroup: Option<u64>)
    | Parameter(filter: SubscriptionFilter)
    | Located(location: L.LocationFilter)
  {
    function AsFields(): seq<u64> {
      match this
      case WithEndLocation(t, s, e) => [t.Id()] + AsPair(s) + AsPair(e)
      case WithEndGroup(t, s, e) => [t.Id()] + AsPair(s) + (if e.Some? then [e.value] else [])
      case Parameter(f) => f.AsFields()
      case Located(f) => f.AsFields()
    }

    /** A wire form some draft defines, naming where it starts. */
    predicate WellShaped() {
      match this
      case WithEndLocation(t, s, e) => t.WantsStart() && s.Some? && (t.WantsEnd() <==> e.Some?)
      case WithEndGroup(t, s, e) => t.WantsStart() && s.Some? && (t.WantsEnd() <==> e.Some?)
      case Parameter(f) => f.filterType.WantsStart() && f.startLocation.Some?
      case Located(f) => f.WellShaped()
    }

    /** The Locations that pass, each draft's fields read as that draft defines them. */
    predicate Holds(largest: Option<Location>, at: Location)
      requires WellShaped()
    {
      match this
      case WithEndLocation(_, s, e) =>
        if e.Some? then R.InlineHolds(s.value, e.value, at) else s.value.AtMost(at)
      case WithEndGroup(_, s, e) => if e.Some? then R.GroupHolds(s.value, e.value, at) else s.value.AtMost(at)
      case Parameter(f) =>
        && f.startLocation.value.AtMost(at)
        && (f.endGroup.Some? ==> at.group <= LastGroup(f.startLocation.value, f.endGroup.value))
      case Located(f) => L.Passes(f, largest, at)
    }
  }

  function AsPair(l: Option<Location>): seq<u64> {
    if l.Some? then [l.value.group, l.value.objectId] else []
  }

  /** Where a filter's end lies: in full, or counted from its start. */
  function LastGroup(start: Location, end: FilterEnd): int {
    var from, raw: int := start.group, end.Raw();
    if end.Group? then raw else from + raw
  }

  function ToWire(d: Draft, r: SubscribeRange): Result<SubscribeWire, RangeError> {
    if d == 7 then
      match r.InlineEndLocation()
      case Err(e) => Err(e)
      case Ok(end) => Ok(WithEndLocation(r.TypeOf(), Some(r.Start()), end))
    else if d <= 14 then
      match r.GroupOnlyEnd(d)
      case Err(e) => Err(e)
      case Ok(end) => Ok(WithEndGroup(r.TypeOf(), Some(r.Start()), end))
    else if d <= 19 then
      match r.AsSubscriptionFilter(d, d >= 17)
      case Err(e) => Err(e)
      case Ok(f) => Ok(Parameter(f))
    else
      match r.AsLocationFilter(d == 22)
      case Err(e) => Err(e)
      case Ok(f) => Ok(Located(f))
  }

  /** Which ranges a draft can say. */
  predicate Sayable(d: Draft, r: SubscribeRange) {
    match r.end
    case Open => !(d == 20 || d == 21) || r.startGroup != 0 || r.startObject != 0
    case EndOfGroup(g) => d <= 16 || r.startGroup <= g
    case ThroughObject(g, o) => if d == 7 then o < U64_LIMIT - 1 else d >= 20 && r.startGroup <= g
  }

  /** The range a wire form came from. */
  function FromWire(w: SubscribeWire): Option<SubscribeRange> {
    if !w.WellShaped() then None
    else
      match w
      case WithEndLocation(_, s, e) =>
        if e.None? then Some(SubscribeRange(s.value.group, s.value.objectId, Open))
        else if e.value.objectId == 0 then EndingIn(s.value, e.value.group)
        else EndingAt(s.value, e.value.group, e.value.objectId - 1)
      case WithEndGroup(_, s, e) =>
        if e.None? then Some(SubscribeRange(s.value.group, s.value.objectId, Open))
        else EndingIn(s.value, e.value)
      case Parameter(f) =>
        var s := f.startLocation.value;
        if f.endGroup.None? then Some(SubscribeRange(s.group, s.objectId, Open))
        else EndingIn(s, LastGroup(s, f.endGroup.value))
      case Located(f) =>
        match L.FormOf(f)
        case FromStart => Some(SubscribeRange(f.fields[0], f.fields[1], Open))
        case ToGroupEnd => EndingIn(L.StartOf(f), L.LastGroup(f))
        case ToObject => EndingAt(L.StartOf(f), L.LastGroup(f), f.fields[3])
        case _ => None
  }

  function EndingIn(start: Location, last: int): Option<SubscribeRange>
    requires last >= 0
  {
    if last < U64_LIMIT then Some(SubscribeRange(start.group, start.objectId, EndOfGroup(last))) else None
  }

  function EndingAt(start: Location, last: int, objectId: u64): Option<SubscribeRange>
    requires last >= 0
  {
    if last < U64_LIMIT then Some(SubscribeRange(start.group, start.objectId, ThroughObject(last, objectId))) else None
  }

  // --------------------------------------------------------------------------------- laws

  /** Exactly which ranges each draft accepts. */
  lemma Acceptance(d: Draft, r: SubscribeRange)
    ensures ToWire(d, r).Ok? <==> Sayable(d, r)
    ensures ToWire(d, r).Ok? ==> ToWire(d, r).value.WellShaped()
  {
  }

  /** The delta a conversion falls back on zero for is never missing: only an open range has none. */
  lemma DeltaNeverDefaults(r: SubscribeRange)
    ensures r.end.Open? || r.EndGroupDelta() != Ok(None)
    ensures r.EndGroupDelta().Ok? && !r.end.Open? ==>
              r.startGroup + r.EndGroupDelta().value.GetOr(0) == r.EndGroup().value
  {
  }

  /** Whatever form it is written in, the Locations that pass are those the range holds. */
  lemma SameLocations(d: Draft, r: SubscribeRange, largest: Option<Location>, at: Location)
    requires ToWire(d, r).Ok?
    ensures ToWire(d, r).value.WellShaped()
    ensures ToWire(d, r).value.Holds(largest, at) <==> r.Holds(at)
  {
  }

  /** No two ranges are written alike: the range can be read off its wire form. */
  lemma WireInverse(d: Draft, r: SubscribeRange)
    requires ToWire(d, r).Ok?
    ensures FromWire(ToWire(d, r).value) == Some(r)
  {
  }

  /** Of the filters that name a start, a receiver accepts exactly those some range is written as. */
  lemma ReceiverAcceptsWhatIsSent(f: L.LocationFilter)
    requires f.WellShaped() && L.FormOf(f) in [L.FromStart, L.ToGroupEnd, L.ToObject]
    ensures L.CheckFilterFields(f).Ok? <==> exists r: SubscribeRange :: r.AsLocationFilter(f.Typed?) == Ok(f)
  {
    if L.CheckFilterFields(f).Ok? {
      var r, fs := FromWire(Located(f)).value, f.fields;
      assert |fs| == 2 ==> fs == [fs[0], fs[1]];
      assert |fs| == 3 ==> fs == [fs[0], fs[1], fs[2]];
      assert |fs| == 4 ==> fs == [fs[0], fs[1], fs[2], fs[3]];
      assert r.AsLocationFilter(f.Typed?) == Ok(f);
    }
  }

  /** No range becomes the filter that drafts 20 and 21 read as the live edge. */
  lemma NeverNextObject(d: Draft, r: SubscribeRange)
    requires d >= 20 && ToWire(d, r).Ok?
    ensures ToWire(d, r).value.location.WellShaped()
    ensures L.FormOf(ToWire(d, r).value.location) != L.NextObject
    ensures ToWire(d, r).value.location != L.Counted([0, 0])
  {
  }

  /**
   The refusal is exactly the collision: written as two fields, an open range would mean what it says at
   every live edge unless it starts at {0, 0}, and then it does so only where nothing has been delivered.
   */
  lemma RefusalIsTheCollision(r: SubscribeRange)
    requires r.end.Open?
    ensures var two := L.AbsoluteStart(false, r.startGroup, r.startObject);
            && two.WellShaped()
            && (ToWire(20, r).Ok? <==>
                forall largest, at :: L.Passes(two, largest, at) <==> r.Holds(at))
  {
    var two := L.AbsoluteStart(false, r.startGroup, r.startObject);
    if r.Start() == TrackLocations.Location(0, 0) {
      var origin := TrackLocations.Location(0, 0);
      assert !L.Passes(two, Some(origin), origin) && r.Holds(origin);
    }
  }

  // -------------------------------------------------------------------------------- bytes

  function WireBytes(d: Draft, w: SubscribeWire): seq<byte> {
    Fields(CodecOf(d), w.AsFields())
  }

  /** Draft-07 writes the Filter Type as one byte; the drafts after it as an integer. */
  function ReadType(d: Draft, s: seq<byte>): Parsed<u64, CodecError> {
    if d == 7 then
      if s == [] then Parsed(Err(CodecError.UnexpectedEnd), s) else Parsed(Ok(s[0]), s[1..])
    else
      var p := Decoding(Quic, s);
      Parsed(match p.result { case Ok(v) => Ok(v) case Err(e) => Err(CodecError.VarInt(e)) }, p.rest)
  }

  /** The filter fields of a SUBSCRIBE message on drafts 7 to 14; None for a type that carries none. */
  function ReadMessage(d: Draft, s: seq<byte>): Result<Option<SubscribeWire>, CodecError> {
    var ty := ReadType(d, s);
    match ty.result
    case Err(e) => Err(e)
    case Ok(id) =>
      match FilterTypeOf(id)
      case None => Err(InvalidFilterType(id))
      case Some(t) =>
        if !t.WantsStart() then
          if t.NextGroupStart? && (d == 9 || d == 10) then Err(InvalidFilterType(id)) else Ok(None)
        else
          match ReadN(Quic, FieldsAfter(d, t), ty.rest).result
          case Err(e) => Err(CodecError.VarInt(e))
          case Ok(fs) => Ok(Some(Assembled(d, t, fs)))
  }

  /** How many integers follow a Filter Type that names a start. */
  function FieldsAfter(d: Draft, t: FilterType): nat {
    if t.AbsoluteStart? then 2 else if d == 7 then 4 else 3
  }

  function Assembled(d: Draft, t: FilterType, fs: seq<u64>): SubscribeWire
    requires |fs| == FieldsAfter(d, t)
  {
    var start := Some(TrackLocations.Location(fs[0], fs[1]));
    if d == 7 then
      WithEndLocation(t, start, if t.AbsoluteStart? then None else Some(TrackLocations.Location(fs[2], fs[3])))
    else
      WithEndGroup(t, start, if t.AbsoluteStart? then None else Some(fs[2]))
  }

  /** The codec's check on the fields, the same before writing and after reading. */
  function Checked(d: Draft, w: SubscribeWire): Result<(), CodecError> {
    match w
    case WithEndLocation(_, Some(start), Some(end)) => R.CheckLocationRange(start, end)
    case WithEndGroup(_, Some(start), Some(group)) => R.CheckGroupRange(start.group, group)
    case Parameter(SubscriptionFilter(_, Some(start), Some(end))) =>
      if d >= 18 && LastGroup(start, end) >= U64_LIMIT then Err(FilterEndGroupOverflow(start.group, end.Raw()))
      else Ok(())
    case Located(f) => L.CheckFilterFields(f)
    case _ => Ok(())
  }

  /** The fields a receiver of the draft reads off the message, or out of the parameter value. */
  function ReadFields(d: Draft, s: seq<byte>): Result<Option<SubscribeWire>, CodecError> {
    if d <= 14 then ReadMessage(d, s)
    else if d <= 19 then
      match DecodeFilter(CodecOf(d), s)
      case Err(e) => Err(e)
      case Ok(f) => Ok(Some(Parameter(f)))
    else
      match L.DecodeFilter(d == 22, s)
      case Err(e) => Err(e)
      case Ok(f) => Ok(Some(Located(f)))
  }

  /**
   The bytes a draft puts a range's fields into, unless it refuses them first: by the check, or, where the
   filter is a parameter of QUIC integers, for a field those cannot spell.
   */
  function Written(d: Draft, w: SubscribeWire): Result<seq<byte>, CodecError> {
    match Checked(d, w)
    case Err(e) => Err(e)
    case Ok(_) =>
      if 15 <= d <= 16 && !Fit(Quic, w.AsFields()) then Err(CodecError.VarInt(Overflow(FirstUnfit(Quic, w.AsFields()))))
      else Ok(WireBytes(d, w))
  }

  function ReadWire(d: Draft, s: seq<byte>): Result<Option<SubscribeWire>, CodecError> {
    match ReadFields(d, s)
    case Err(e) => Err(e)
    case Ok(None) => Ok(None)
    case Ok(Some(w)) =>
      match Checked(d, w)
      case Err(e) => Err(e)
      case Ok(_) => Ok(Some(w))
  }

  /** What the receiver of a range ends up with, where it gets there at all. */
  function Received(d: Draft, r: SubscribeRange): Option<SubscribeWire> {
    match ToWire(d, r)
    case Err(_) => None
    case Ok(w) =>
      match Written(d, w)
      case Err(_) => None
      case Ok(s) => var back := ReadWire(d, s); if back.Ok? then back.value else None
  }

  /** The receiver of a range passes the Locations it holds and no others, wherever the live edge is. */
  ghost predicate Delivers(d: Draft, r: SubscribeRange) {
    var back := Received(d, r);
    back.Some? && back.value.WellShaped() && forall largest, at :: back.value.Holds(largest, at) <==> r.Holds(at)
  }

  /** A draft can carry a range: it converts, passes the codec's check, and fits the draft's integers. */
  predicate Carries(d: Draft, r: SubscribeRange) {
    var w := ToWire(d, r);
    w.Ok? && Checked(d, w.value).Ok? && Fit(CodecOf(d), w.value.AsFields())
  }

  /**
   Past the conversion, drafts 7 to 14 refuse exactly the ranges that hold no Location, and the drafts
   after them refuse none: the overflow they look for cannot come from a range.
   */
  lemma CodecRefusesTheEmpty(d: Draft, r: SubscribeRange)
    requires ToWire(d, r).Ok?
    ensures Checked(d, ToWire(d, r).value).Ok? <==> d >= 15 || exists at :: r.Holds(at)
  {
    hide R.CheckLocationRange;
    var w := ToWire(d, r).value;
    if d == 7 && w.end.Some? {
      assert forall at :: R.InlineHolds(w.start.value, w.end.value, at) <==> r.Holds(at);
    } else if d <= 14 && Checked(d, w).Ok? {
      assert r.Holds(r.Start());
    }
  }

  /** The bytes each draft writes an open range as, in the range's own numbers and the draft's own integers. */
  lemma OpenWritten(d: Draft, sg: u64, so: u64)
    requires Sayable(d, SubscribeRange(sg, so, Open))
    ensures var w := ToWire(d, SubscribeRange(sg, so, Open));
            && w.Ok?
            && var s := WireBytes(d, w.value);
               && (d == 7 ==> s == [3] + Encoding(Quic, sg) + Encoding(Quic, so))
               && (8 <= d <= 16 ==> s == Encoding(Quic, 3) + Encoding(Quic, sg) + Encoding(Quic, so))
               && (d == 17 ==> s == Encoding(Moqt17, 3) + Encoding(Moqt17, sg) + Encoding(Moqt17, so))
               && (18 <= d <= 19 ==> s == Encoding(Moqt18, 3) + Encoding(Moqt18, sg) + Encoding(Moqt18, so))
               && (20 <= d <= 21 ==> s == Encoding(Moqt18, sg) + Encoding(Moqt18, so))
               && (d == 22 ==> s == Encoding(Moqt18, 2) + Encoding(Moqt18, sg) + Encoding(Moqt18, so))
  {
    hide Encoding, EncodedLen, Fields;
    var r := SubscribeRange(sg, so, Open);
    Acceptance(d, r);
    FieldsWritten(CodecOf(d), ToWire(d, r).value.AsFields());
    TypeByte(AbsoluteStart);
  }

  /** The bytes of a range through the end of a Group: written in full, with a 0 on draft-07, then as a delta. */
  lemma ToGroupWritten(d: Draft, sg: u64, so: u64, group: u64)
    requires Sayable(d, SubscribeRange(sg, so, EndOfGroup(group)))
    ensures var w := ToWire(d, SubscribeRange(sg, so, EndOfGroup(group)));
            && w.Ok?
            && var s := WireBytes(d, w.value);
               && (d == 7 ==>
                     s == [4] + Encoding(Quic, sg) + Encoding(Quic, so) + Encoding(Quic, group) + Encoding(Quic, 0))
               && (8 <= d <= 16 ==>
                     s == Encoding(Quic, 4) + Encoding(Quic, sg) + Encoding(Quic, so) + Encoding(Quic, group))
               && (d == 17 ==>
                     s == Encoding(Moqt17, 4) + Encoding(Moqt17, sg) + Encoding(Moqt17, so)
                          + Encoding(Moqt17, group - sg))
               && (18 <= d <= 19 ==>
                     s == Encoding(Moqt18, 4) + Encoding(Moqt18, sg) + Encoding(Moqt18, so)
                          + Encoding(Moqt18, group - sg))
               && (20 <= d <= 21 ==>
                     s == Encoding(Moqt18, sg) + Encoding(Moqt18, so) + Encoding(Moqt18, group - sg))
               && (d == 22 ==>
                     s == Encoding(Moqt18, 3) + Encoding(Moqt18, sg) + Encoding(Moqt18, so)
                          + Encoding(Moqt18, group - sg))
  {
    hide Encoding, EncodedLen, Fields;
    var r := SubscribeRange(sg, so, EndOfGroup(group));
    Acceptance(d, r);
    FieldsWritten(CodecOf(d), ToWire(d, r).value.AsFields());
    TypeByte(AbsoluteRange);
  }

  /** The bytes of a range through an Object: plus one on draft-07, as it stands from draft-20. */
  lemma ToObjectWritten(d: Draft, sg: u64, so: u64, group: u64, objectId: u64)
    requires Sayable(d, SubscribeRange(sg, so, ThroughObject(group, objectId)))
    ensures d == 7 || d >= 20
    ensures var w := ToWire(d, SubscribeRange(sg, so, ThroughObject(group, objectId)));
            && w.Ok?
            && var s := WireBytes(d, w.value);
               && (d == 7 ==>
                     s == [4] + Encoding(Quic, sg) + Encoding(Quic, so)
                          + Encoding(Quic, group) + Encoding(Quic, objectId + 1))
               && (20 <= d <= 21 ==>
                     s == Encoding(Moqt18, sg) + Encoding(Moqt18, so)
                          + Encoding(Moqt18, group - sg) + Encoding(Moqt18, objectId))
               && (d == 22 ==>
                     s == Encoding(Moqt18, 4) + Encoding(Moqt18, sg) + Encoding(Moqt18, so)
                          + Encoding(Moqt18, group - sg) + Encoding(Moqt18, objectId))
  {
    hide Encoding, EncodedLen, Fields;
    var r := SubscribeRange(sg, so, ThroughObject(group, objectId));
    Acceptance(d, r);
    FieldsWritten(CodecOf(d), ToWire(d, r).value.AsFields());
    TypeByte(AbsoluteRange);
  }

  /** From draft-18 a receiver refuses a delta that takes the end Group out of 64 bits; draft-17 carries it. */
  lemma OverflowingDelta(d: Draft, start: Location, delta: u64)
    requires 17 <= d <= 19
    ensures Checked(d, Parameter(SubscriptionFilter(AbsoluteRange, Some(start), Some(GroupDelta(delta))))).Ok? <==>
            d == 17 || delta < U64_LIMIT - start.group
  {
  }

  /** A range comes back as it was sent exactly when the draft can carry it. */
  lemma WireRoundTrip(d: Draft, r: SubscribeRange, tail: seq<byte>)
    requires ToWire(d, r).Ok? && (d > 14 ==> tail == [])
    ensures var w := ToWire(d, r).value;
            ReadWire(d, WireBytes(d, w) + tail) == Ok(Some(w)) <==> Carries(d, r)
  {
    hide Fields, ReadMessage, DecodeFilter, L.DecodeFilter, Fit, Checked;
    var w := ToWire(d, r).value;
    assert WireBytes(d, w) + [] == WireBytes(d, w);
    if d <= 14 {
      MessageReads(d, w, tail);
    } else if d <= 19 {
      FilterRoundTrip(CodecOf(d), w.filter);
    } else {
      L.FilterRoundTrip(w.location);
      AllFit(CodecOf(d), w.AsFields());
    }
  }

  /** What the filter fields of a message read back as, in front of the rest of it. */
  lemma MessageReads(d: Draft, w: SubscribeWire, tail: seq<byte>)
    requires d <= 14 && w.WellShaped() && (if d == 7 then w.WithEndLocation? else w.WithEndGroup?)
    ensures var back := KeptAll(Quic, w.AsFields()[1..]);
            && |back| == FieldsAfter(d, w.filterType)
            && ReadMessage(d, Fields(Quic, w.AsFields()) + tail) == Ok(Some(Assembled(d, w.filterType, back)))
            && (Assembled(d, w.filterType, back) == w <==> Fit(Quic, w.AsFields()))
  {
    hide Fields, Decoding, Encoding, ReadN, KeptAll, Fit;
    var fs, t := w.AsFields(), w.filterType;
    TypeReads(d, t, fs, tail);
    FieldsRead(Quic, fs[1..], tail);
    TypeFits(t, fs);
    var back := KeptAll(Quic, fs[1..]);
    assert |fs| == 1 + FieldsAfter(d, t);
    assert |back| == |fs| - 1;
    assert Assembled(d, t, back) == w <==> back == fs[1..];
  }

  lemma TypeReads(d: Draft, t: FilterType, fs: seq<u64>, tail: seq<byte>)
    requires d <= 14 && fs != [] && fs[0] == t.Id()
    ensures ReadType(d, Fields(Quic, fs) + tail) == Parsed(Ok(t.Id()), Fields(Quic, fs[1..]) + tail)
  {
    hide Decoding, Encoding, Kept;
    var more := Fields(Quic, fs[1..]) + tail;
    assert Fields(Quic, fs) + tail == Encoding(Quic, t.Id()) + more;
    EncodingReads(Quic, t.Id(), more);
    SmallId(Quic, t);
    TypeByte(t);
  }

  /** Draft-07 has FETCH's widening wrap: a range through Object 2^62 - 1 is read as through the whole Group. */
  lemma PlusOneWrapsOnDraft07(r: SubscribeRange)
    requires r.end.ThroughObject? && r.end.endObject == MAX_VARINT
    requires Fit(Quic, [r.startGroup, r.startObject, r.end.endGroup]) && r.startGroup <= r.end.endGroup
    ensures ToWire(7, r).Ok? && Checked(7, ToWire(7, r).value).Ok?
    ensures ToWire(7, r.(end := EndOfGroup(r.end.endGroup))).Ok?
    ensures ReadWire(7, WireBytes(7, ToWire(7, r).value)) ==
            Ok(Some(ToWire(7, r.(end := EndOfGroup(r.end.endGroup))).value))
  {
    hide Fields, Encoding, Decoding, ReadN, KeptAll;
    var fs := ToWire(7, r).value.AsFields();
    var body := [r.startGroup, r.startObject, r.end.endGroup];
    assert fs == [AbsoluteRange.Id(), r.startGroup, r.startObject, r.end.endGroup, MAX_VARINT + 1];
    assert fs[1..] == body + [MAX_VARINT + 1];
    TypeReads(7, AbsoluteRange, fs, []);
    FieldsRead(Quic, fs[1..], []);
    KeptJoin(Quic, body, MAX_VARINT + 1);
    assert r.startObject <= MAX_VARINT by {
      assert body[1] == r.startObject;
    }
    assert Fields(Quic, fs) + [] == Fields(Quic, fs);
  }

  /** A Filter Type is the same byte either way it is written. */
  lemma TypeByte(t: FilterType)
    ensures Encoding(Quic, t.Id()) == [t.Id()]
  {
    OneByte(t.Id());
  }

  lemma TypeFits(t: FilterType, fs: seq<u64>)
    requires fs != [] && fs[0] == t.Id()
    ensures Fit(Quic, fs) <==> Fit(Quic, fs[1..])
  {
    FitSplit(Quic, fs);
  }

  /** Which ranges a draft can carry, in the range's own numbers. */
  lemma CarriedRanges(d: Draft, r: SubscribeRange)
    ensures Carries(d, r) <==>
            && Sayable(d, r)
            && (d <= 14 ==> exists at :: r.Holds(at))
            && (d <= 16 ==>
                  && r.startGroup <= MAX_VARINT && r.startObject <= MAX_VARINT
                  && (r.EndGroup().Some? ==> r.EndGroup().value <= MAX_VARINT)
                  && (r.end.ThroughObject? ==> r.end.endObject < MAX_VARINT))
  {
    hide SubscribeRange.Holds, Checked;
    Acceptance(d, r);
    if ToWire(d, r).Ok? {
      CodecRefusesTheEmpty(d, r);
      var fs := ToWire(d, r).value.AsFields();
      if d >= 17 {
        AllFit(CodecOf(d), fs);
      } else {
        var id := r.TypeOf().Id();
        FirstFits(r.TypeOf(), [id]);
        assert fs == match r.end
                     case Open => [id, r.startGroup, r.startObject]
                     case EndOfGroup(g) =>
                       if d == 7 then [id, r.startGroup, r.startObject, g, 0] else [id, r.startGroup, r.startObject, g]
                     case ThroughObject(g, o) => [id, r.startGroup, r.startObject, g, o + 1];
        FitFields(fs);
      }
    }
  }

  lemma FitFields(fs: seq<u64>)
    requires 3 <= |fs| <= 5
    ensures Fit(Quic, fs) <==>
            && fs[0] <= MAX_VARINT && fs[1] <= MAX_VARINT && fs[2] <= MAX_VARINT
            && (|fs| > 3 ==> fs[3] <= MAX_VARINT) && (|fs| > 4 ==> fs[4] <= MAX_VARINT)
  {
  }

  lemma FirstFits(t: FilterType, fs: seq<u64>)
    requires fs != [] && fs[0] == t.Id()
    ensures fs[0] <= MAX_VARINT
  {
  }

  /** What a range means survives exactly on the drafts that can carry it: no range that wraps means the same. */
  lemma DeliversExactly(d: Draft, r: SubscribeRange)
    ensures Delivers(d, r) <==> Carries(d, r)
  {
    hide ToWire, ReadWire, Fit, SubscribeWire.Holds, SubscribeRange.Holds, SubscribeWire.WellShaped, Checked;
    if Carries(d, r) {
      Delivered(d, r);
      Acceptance(d, r);
      forall largest, at
        ensures Received(d, r).value.Holds(largest, at) <==> r.Holds(at)
      {
        SameLocations(d, r, largest, at);
      }
    } else if Delivers(d, r) {
      if d <= 14 {
        OnlyFitsDeliver(d, r);
      } else if d >= 17 {
        AllFit(CodecOf(d), ToWire(d, r).value.AsFields());
      }
    }
  }

  lemma OnlyFitsDeliver(d: Draft, r: SubscribeRange)
    requires d <= 14 && Delivers(d, r)
    ensures Carries(d, r)
  {
    hide Fields, Fit, ReadMessage, SubscribeRange.Holds, R.CheckLocationRange, R.CheckGroupRange;
    var w := ToWire(d, r).value;
    Acceptance(d, r);
    MessageReads(d, w, []);
    assert Fields(Quic, w.AsFields()) + [] == Fields(Quic, w.AsFields());
    var back := Assembled(d, w.filterType, KeptAll(Quic, w.AsFields()[1..]));
    assert Received(d, r) == Some(back);
    forall at
      ensures w.Holds(None, at) <==> back.Holds(None, at)
    {
      SameLocations(d, r, None, at);
      assert back.Holds(None, at) <==> r.Holds(at);
    }
    SameFields(d, w, back);
  }

  /** Message fields that pass the check and ask for the same Locations are the same fields. */
  lemma SameFields(d: Draft, w: SubscribeWire, v: SubscribeWire)
    requires w.WellShaped() && v.WellShaped() && Checked(d, w).Ok? && Checked(d, v).Ok?
    requires forall at :: w.Holds(None, at) <==> v.Holds(None, at)
    requires w.WithEndLocation? || w.WithEndGroup?
    requires w.WithEndLocation? == v.WithEndLocation? && w.WithEndGroup? == v.WithEndGroup?
    requires w.filterType == v.filterType
    ensures w == v
  {
    hide R.CheckLocationRange, R.CheckGroupRange, R.InlineHolds, R.GroupHolds;
    var start, start2 := w.start.value, v.start.value;
    if w.filterType.AbsoluteStart? {
      forall at
        ensures start.AtMost(at) <==> start2.AtMost(at)
      {
        assert w.Holds(None, at) <==> v.Holds(None, at);
      }
      R.StartExact(start, start2);
    } else if w.WithEndLocation? {
      forall at
        ensures R.InlineHolds(start, w.end.value, at) <==> R.InlineHolds(start2, v.end.value, at)
      {
        assert w.Holds(None, at) <==> v.Holds(None, at);
      }
      R.InlineExact(start, w.end.value, start2, v.end.value);
    } else {
      forall at
        ensures R.GroupHolds(start, w.endGroup.value, at) <==> R.GroupHolds(start2, v.endGroup.value, at)
      {
        assert w.Holds(None, at) <==> v.Holds(None, at);
      }
      R.GroupExact(start, w.endGroup.value, start2, v.endGroup.value);
    }
  }

  /**
   End to end, against any draft that can carry a range: another draft's receiver passes the same Locations
   exactly when that draft can carry it too.
   */
  lemma SubscribeMeansTheSame(d: Draft, e: Draft, r: SubscribeRange)
    requires Carries(e, r)
    ensures Received(e, r).Some? && Received(e, r).value.WellShaped()
    ensures var back, other := Received(d, r), Received(e, r).value;
            Carries(d, r) <==>
            && back.Some? && back.value.WellShaped()
            && forall largest, at :: back.value.Holds(largest, at) <==> other.Holds(largest, at)
  {
    hide Received, Carries, SubscribeWire.Holds, SubscribeRange.Holds, SubscribeWire.WellShaped;
    DeliversExactly(d, r);
    DeliversExactly(e, r);
  }

  lemma Delivered(d: Draft, r: SubscribeRange)
    requires Carries(d, r)
    ensures ReadWire(d, WireBytes(d, ToWire(d, r).value)) == Ok(Some(ToWire(d, r).value))
  {
    hide ReadWire, ToWire;
    var w := ToWire(d, r).value;
    WireRoundTrip(d, r, []);
    assert WireBytes(d, w) + [] == WireBytes(d, w);
  }
}
