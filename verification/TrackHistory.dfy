/** The two numbers kept per track answer the rule over everything the track has ever carried. */
module TrackHistory {
  import opened Bytes
  import opened TrackLocations

  /** One mutation of the record: a produced object, or where a track said it ended. */
  datatype Op = Observe(track: Track, at: Location) | End(track: Track, at: Location)

  function Apply(ts: seq<Record>, op: Op): seq<Record> {
    match op
    case Observe(track, at) => Observed(ts, track, at)
    case End(track, at) => Ended(ts, track, at)
  }

  function Replay(ops: seq<Op>): seq<Record> {
    if ops == [] then [] else Apply(Replay(ops[..|ops| - 1]), ops[|ops| - 1])
  }

  /** The shared record, driven through any run of its two writers, is the replay of that run. */
  method Perform(locations: TrackLocations, ops: seq<Op>)
    requires locations.tracks == []
    modifies locations
    ensures locations.tracks == Replay(ops)
  {
    for i := 0 to |ops|
      invariant locations.tracks == Replay(ops[..i])
    {
      match ops[i] {
        case Observe(track, at) => locations.Observe(track, at);
        case End(track, at) => locations.NoteFinalObject(track, at);
      }
      assert ops[..i + 1][..i] == ops[..i];
    }
    assert ops[..|ops|] == ops;
  }

  ghost predicate Carried(ops: seq<Op>, track: Track, at: Location) {
    Observe(track, at) in ops
  }

  /** The rule an end-of-track object is judged by, over the whole history of its track. */
  ghost predicate EndAllowed(ops: seq<Op>, track: Track, at: Location, form: EndForm) {
    forall seen :: Carried(ops, track, seen) ==>
      match form
      case PastLastGroup => seen.group < at.group
      case LastGroup => seen.group <= at.group && (seen.group == at.group ==> seen.objectId < at.objectId)
  }

  /** The location a track's first end-of-track write named. */
  function FirstEnd(ops: seq<Op>, track: Track): Option<Location> {
    if ops == [] then None
    else
      var before := FirstEnd(ops[..|ops| - 1], track);
      var last := ops[|ops| - 1];
      if before.None? && last.End? && last.track == track then Some(last.at) else before
  }

  /** What the record holds of a track: the greatest Location it carried, and the first end it named. */
  lemma {:induction false} RecordIsSummary(ops: seq<Op>, track: Track)
    ensures Unique(Replay(ops))
    ensures Lookup(Replay(ops), track).finalObject == FirstEnd(ops, track)
    ensures match Lookup(Replay(ops), track).reached
            case None => forall seen :: !Carried(ops, track, seen)
            case Some(r) => Carried(ops, track, r) && forall seen :: Carried(ops, track, seen) ==> seen.AtMost(r)
  {
    if ops != [] {
      var before, op := ops[..|ops| - 1], ops[|ops| - 1];
      RecordIsSummary(before, track);
      ObservedState(Replay(before), op.track, op.at, track);
      EndedState(Replay(before), op.track, op.at, track);
      assert ops == before + [op];
      assert forall seen :: Carried(ops, track, seen) <==> Carried(before, track, seen) || op == Observe(track, seen);
    }
  }

  /** The greatest group, or the greatest object of the greatest group, that the track has carried. */
  ghost predicate ReportIsTrue(ops: seq<Op>, track: Track, at: Location, report: Placement) {
    if report.GroupBehind? then
      && (exists seen :: Carried(ops, track, seen) && seen.group == report.largestGroup)
      && forall seen :: Carried(ops, track, seen) ==> seen.group <= report.largestGroup
    else
      && Carried(ops, track, Location(at.group, report.largestObject))
      && forall seen :: Carried(ops, track, seen) ==>
           seen.group <= at.group && (seen.group == at.group ==> seen.objectId <= report.largestObject)
  }

  /**
   Two numbers are enough. The judgement made from the record is the rule over the whole history, and
   what a refusal reports is the true maximum of that history.
   */
  lemma TwoNumbersSuffice(ops: seq<Op>, track: Track, at: Location, form: EndForm)
    ensures JudgeEnd(Lookup(Replay(ops), track).reached, at, form).Ok? <==> EndAllowed(ops, track, at, form)
    ensures var judged := JudgeEnd(Lookup(Replay(ops), track).reached, at, form);
            judged.Err? ==> ReportIsTrue(ops, track, at, judged.error)
  {
    RecordIsSummary(ops, track);
    var reached := Lookup(Replay(ops), track).reached;
    if reached.Some? {
      var r := reached.value;
      assert r == Location(r.group, r.objectId);
      assert Carried(ops, track, r);
      assert forall seen :: Carried(ops, track, seen) ==>
          seen.group <= r.group && (seen.group == r.group ==> seen.objectId <= r.objectId);
    }
  }
}
