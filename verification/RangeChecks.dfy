/** The checks the codec makes on range fields, before it writes them and after it reads them. */
module RangeChecks {
  import opened Bytes
  import opened Errors
  import TrackLocations

  type Location = TrackLocations.Location

  const LAST_OBJECT: u64 := U64_LIMIT - 1

  /** What four inline fields ask for: an end Object is the last plus one, and 0 the whole Group. */
  predicate InlineHolds(start: Location, end: Location, at: Location) {
    && start.AtMost(at)
    && (at.group < end.group || (at.group == end.group && (end.objectId == 0 || at.objectId < end.objectId)))
  }

  /** What a start and a last Group ask for. */
  predicate GroupHolds(start: Location, endGroup: u64, at: Location) {
    start.AtMost(at) && at.group <= endGroup
  }

  /** Refuses exactly the fields that ask for no Location at all. */
  function CheckLocationRange(start: Location, end: Location): (r: Result<(), CodecError>)
    ensures r.Ok? <==> exists at :: InlineHolds(start, end, at)
  {
    if end.group < start.group
       || (end.group == start.group && end.objectId != 0 && end.objectId <= start.objectId)
    then Err(InvalidRange(start.group, start.objectId, end.group, end.objectId))
    else
      assert InlineHolds(start, end, start);
      Ok(())
  }

  ghost predicate AsksForSome(start: Location, endGroup: u64) {
    exists at :: GroupHolds(start, endGroup, at)
  }

  /** Refuses exactly the Groups that ask for no Location, wherever in its Group the start is. */
  function CheckGroupRange(startGroup: u64, endGroup: u64): (r: Result<(), CodecError>)
    ensures forall start: Location :: start.group == startGroup ==> (r.Ok? <==> AsksForSome(start, endGroup))
  {
    if endGroup < startGroup then Err(InvalidRange(startGroup, 0, endGroup, 0))
    else
      assert forall start: Location :: start.group == startGroup ==> GroupHolds(start, endGroup, start);
      Ok(())
  }

  // -------------------------------------------------------- what is asked for fixes the fields

  /** Inline fields that ask for something are fixed by what they ask for: its first Location, and its last. */
  lemma InlineExact(start: Location, end: Location, start2: Location, end2: Location)
    requires CheckLocationRange(start, end).Ok? && CheckLocationRange(start2, end2).Ok?
    requires forall at :: InlineHolds(start, end, at) <==> InlineHolds(start2, end2, at)
    ensures start == start2 && end == end2
  {
    assert InlineHolds(start, end, start) && InlineHolds(start2, end2, start2);
    var last, last2 := LastInline(end), LastInline(end2);
    assert InlineHolds(start, end, last) && InlineHolds(start2, end2, last2);
  }

  function LastInline(end: Location): Location {
    TrackLocations.Location(end.group, if end.objectId == 0 then LAST_OBJECT else end.objectId - 1)
  }

  /** And so are a start and a last Group. */
  lemma GroupExact(start: Location, endGroup: u64, start2: Location, endGroup2: u64)
    requires AsksForSome(start, endGroup) && AsksForSome(start2, endGroup2)
    requires forall at :: GroupHolds(start, endGroup, at) <==> GroupHolds(start2, endGroup2, at)
    ensures start == start2 && endGroup == endGroup2
  {
    assert GroupHolds(start, endGroup, start) && GroupHolds(start2, endGroup2, start2);
    var last, last2 := TrackLocations.Location(endGroup, LAST_OBJECT), TrackLocations.Location(endGroup2, LAST_OBJECT);
    assert GroupHolds(start, endGroup, last) && GroupHolds(start2, endGroup2, last2);
  }

  /** And so is a start alone. */
  lemma StartExact(start: Location, start2: Location)
    requires forall at :: start.AtMost(at) <==> start2.AtMost(at)
    ensures start == start2
  {
    assert start.AtMost(start) && start2.AtMost(start2);
  }
}
