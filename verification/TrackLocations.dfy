/**
 How far each track's objects have reached and where each track ended: one shared list of records,
 and the handle a stream measures its objects with, one lock section at a time.
 */
module TrackLocations {
  import opened Bytes

  datatype Track = Track(namespace: seq<seq<byte>>, name: seq<byte>)

  /** The drafts' own order on Locations: Group first, Object only where the Groups are equal. */
  datatype Location = Location(group: u64, objectId: u64) {
    predicate Less(other: Location) {
      group < other.group || (group == other.group && objectId < other.objectId)
    }

    predicate AtMost(other: Location) {
      this == other || Less(other)
    }
  }

  datatype EndForm = LastGroup | PastLastGroup

  datatype Placement = GroupBehind(largestGroup: u64) | ObjectBehind(largestObject: u64)

  datatype TrackFault = EndOfTrackOutOfPlace(placement: Placement) | PastFinalObject(end: Location)

  datatype Role = Produced | EndsTrack(form: Option<EndForm>) | Neither

  datatype Record = Record(track: Track, reached: Option<Location>, finalObject: Option<Location>)

  // -------------------------------------------------------------------- the table as a value

  /** What the table says of one track: nothing, until a record says otherwise. */
  datatype State = State(reached: Option<Location>, finalObject: Option<Location>) {
    /** Nothing the track has reached is past its end. */
    predicate WithinEnd() {
      finalObject.Some? && reached.Some? ==> reached.value.AtMost(finalObject.value)
    }
  }

  function IndexOf(ts: seq<Record>, track: Track): (i: nat)
    ensures i <= |ts|
    ensures i < |ts| ==> ts[i].track == track
    ensures forall j :: 0 <= j < i ==> ts[j].track != track
  {
    if ts == [] || ts[0].track == track then 0 else 1 + IndexOf(ts[1..], track)
  }

  function Lookup(ts: seq<Record>, track: Track): State {
    var i := IndexOf(ts, track);
    if i < |ts| then State(ts[i].reached, ts[i].finalObject) else State(None, None)
  }

  function Put(ts: seq<Record>, track: Track, s: State): seq<Record> {
    var i := IndexOf(ts, track);
    var record := Record(track, s.reached, s.finalObject);
    if i < |ts| then ts[i := record] else ts + [record]
  }

  /** At most one record per track. */
  ghost predicate Unique(ts: seq<Record>) {
    forall i, j :: 0 <= i < j < |ts| ==> ts[i].track != ts[j].track
  }

  lemma IndexIs(ts: seq<Record>, track: Track, i: nat)
    requires i < |ts| && ts[i].track == track && forall j :: 0 <= j < i ==> ts[j].track != track
    ensures IndexOf(ts, track) == i
  {
  }

  lemma IndexAbsent(ts: seq<Record>, track: Track)
    requires forall j :: 0 <= j < |ts| ==> ts[j].track != track
    ensures IndexOf(ts, track) == |ts|
  {
  }

  lemma PutLookup(ts: seq<Record>, track: Track, s: State)
    ensures Lookup(Put(ts, track, s), track) == s
    ensures forall other :: other != track ==> Lookup(Put(ts, track, s), other) == Lookup(ts, other)
    ensures Unique(ts) ==> Unique(Put(ts, track, s))
  {
    var put := Put(ts, track, s);
    IndexIs(put, track, IndexOf(ts, track));
    forall other | other != track ensures Lookup(put, other) == Lookup(ts, other) {
      var i := IndexOf(ts, other);
      if i < |ts| {
        IndexIs(put, other, i);
      } else {
        IndexAbsent(put, other);
      }
    }
  }

  /** The later of what was reached and a new object, in Location order. */
  function Later(reached: Option<Location>, at: Location): (r: Location)
    ensures at.AtMost(r) && (reached.Some? ==> reached.value.AtMost(r))
    ensures r == at || reached == Some(r)
  {
    if reached.Some? && at.Less(reached.value) then reached.value else at
  }

  function Observed(ts: seq<Record>, track: Track, at: Location): seq<Record> {
    var s := Lookup(ts, track);
    Put(ts, track, s.(reached := Some(Later(s.reached, at))))
  }

  /** The end of a track is written once. */
  function Ended(ts: seq<Record>, track: Track, at: Location): seq<Record> {
    var s := Lookup(ts, track);
    Put(ts, track, s.(finalObject := Some(s.finalObject.GetOr(at))))
  }

  /** Recording an object raises its own track and touches no other. */
  lemma ObservedState(ts: seq<Record>, track: Track, at: Location, other: Track)
    ensures var s := Lookup(ts, other);
            Lookup(Observed(ts, track, at), other) ==
            if other == track then s.(reached := Some(Later(s.reached, at))) else s
    ensures Unique(ts) ==> Unique(Observed(ts, track, at))
  {
    var s := Lookup(ts, track);
    PutLookup(ts, track, s.(reached := Some(Later(s.reached, at))));
  }

  /** Ending a track settles its own end if none was, and touches no other. */
  lemma EndedState(ts: seq<Record>, track: Track, at: Location, other: Track)
    ensures var s := Lookup(ts, other);
            Lookup(Ended(ts, track, at), other) ==
            if other == track then s.(finalObject := Some(s.finalObject.GetOr(at))) else s
    ensures Unique(ts) ==> Unique(Ended(ts, track, at))
  {
    var s := Lookup(ts, track);
    PutLookup(ts, track, s.(finalObject := Some(s.finalObject.GetOr(at))));
  }

  /** Whether an end-of-track object is behind what its track has reached. */
  function JudgeEnd(reached: Option<Location>, at: Location, form: EndForm): Result<(), Placement> {
    match reached
    case None => Ok(())
    case Some(r) =>
      if at.group < r.group || (form.PastLastGroup? && at.group == r.group) then Err(GroupBehind(r.group))
      else if form.LastGroup? && at.group == r.group && at.objectId <= r.objectId then Err(ObjectBehind(r.objectId))
      else Ok(())
  }

  /** Whether an object is past where its track ended. */
  function JudgePast(end: Option<Location>, at: Location): Result<(), Location> {
    if end.Some? && end.value.Less(at) then Err(end.value) else Ok(())
  }

  // -------------------------------------------------------------- the calls as values

  /** The table after one call made without interruption, and what the call answers. */
  datatype Outcome = Outcome(tracks: seq<Record>, result: Result<(), TrackFault>)

  function NoteSpec(ts: seq<Record>, track: Track, at: Location, role: Role): Outcome {
    match role
    case Produced => Outcome(Observed(ts, track, at), Ok(()))
    case EndsTrack(None) => Outcome(Ended(ts, track, at), Ok(()))
    case EndsTrack(Some(form)) =>
      (match JudgeEnd(Lookup(ts, track).reached, at, form)
       case Ok(_) => Outcome(Ended(ts, track, at), Ok(()))
       case Err(p) => Outcome(ts, Err(EndOfTrackOutOfPlace(p))))
    case Neither => Outcome(ts, Ok(()))
  }

  function NoteWithFinalSpec(ts: seq<Record>, track: Track, at: Location, role: Role): Outcome {
    match JudgePast(Lookup(ts, track).finalObject, at)
    case Err(end) => Outcome(ts, Err(PastFinalObject(end)))
    case Ok(_) => NoteSpec(ts, track, at, role)
  }

  function NotePastFinalSpec(ts: seq<Record>, track: Track, at: Location, role: Role): Outcome {
    match JudgePast(Lookup(ts, track).finalObject, at)
    case Err(end) => Outcome(ts, Err(PastFinalObject(end)))
    case Ok(_) => NoteSpec(ts, track, at, if role.EndsTrack? then EndsTrack(None) else role)
  }

  /** Which of the three entry points a stream uses. */
  datatype Entry = Note | NoteWithFinal | NotePastFinal

  datatype Call = Call(entry: Entry, track: Track, at: Location, role: Role) {
    /** An entry point that looks at the track's end first. */
    predicate Guarded() {
      !entry.Note?
    }

    /** An end-of-track object whose placement is judged. */
    predicate JudgesItself() {
      role.EndsTrack? && role.form.Some? && !entry.NotePastFinal?
    }
  }

  /** What a call does when nothing comes between its sections. */
  function CallSpec(ts: seq<Record>, call: Call): Outcome {
    match call.entry
    case Note => NoteSpec(ts, call.track, call.at, call.role)
    case NoteWithFinal => NoteWithFinalSpec(ts, call.track, call.at, call.role)
    case NotePastFinal => NotePastFinalSpec(ts, call.track, call.at, call.role)
  }

  // -------------------------------------------------------------------------- the record

  class TrackLocations {
    var tracks: seq<Record>

    constructor ()
      ensures tracks == []
    {
      tracks := [];
    }

    method Find(track: Track) returns (found: Option<nat>)
      ensures match found
              case Some(i) => i < |tracks| && i == IndexOf(tracks, track)
              case None => IndexOf(tracks, track) == |tracks|
    {
      for i := 0 to |tracks|
        invariant forall j :: 0 <= j < i ==> tracks[j].track != track
      {
        if tracks[i].track == track {
          IndexIs(tracks, track, i);
          return Some(i);
        }
      }
      return None;
    }

    method Observe(track: Track, at: Location)
      modifies this
      ensures tracks == Observed(old(tracks), track, at)
    {
      var found := Find(track);
      if found.None? {
        tracks := tracks + [Record(track, Some(at), None)];
        return;
      }
      var record := tracks[found.value];
      var reached :=
        match record.reached
        case None => at
        case Some(seen) =>
          if at.group > seen.group then at
          else if at.group == seen.group && at.objectId > seen.objectId then at
          else seen;
      tracks := tracks[found.value := record.(reached := Some(reached))];
    }

    method CheckEndOfTrack(track: Track, at: Location, form: EndForm) returns (r: Result<(), Placement>)
      ensures r == JudgeEnd(Lookup(tracks, track).reached, at, form)
    {
      var found := Find(track);
      if found.None? || tracks[found.value].reached.None? {
        return Ok(());
      }
      var reached := tracks[found.value].reached.value;
      match form
      case PastLastGroup =>
        if at.group <= reached.group {
          return Err(GroupBehind(reached.group));
        }
        return Ok(());
      case LastGroup =>
        if at.group < reached.group {
          return Err(GroupBehind(reached.group));
        } else if at.group > reached.group {
          return Ok(());
        } else if at.objectId <= reached.objectId {
          return Err(ObjectBehind(reached.objectId));
        }
        return Ok(());
    }

    method NoteFinalObject(track: Track, at: Location)
      modifies this
      ensures tracks == Ended(old(tracks), track, at)
    {
      var found := Find(track);
      if found.None? {
        tracks := tracks + [Record(track, None, Some(at))];
        return;
      }
      var record := tracks[found.value];
      if record.finalObject.None? {
        tracks := tracks[found.value := record.(finalObject := Some(at))];
      }
    }

    method CheckNotPastFinal(track: Track, at: Location) returns (r: Result<(), Location>)
      ensures r == JudgePast(Lookup(tracks, track).finalObject, at)
    {
      var found := Find(track);
      if found.None? || tracks[found.value].finalObject.None? {
        return Ok(());
      }
      var end := tracks[found.value].finalObject.value;
      if at.group > end.group || (at.group == end.group && at.objectId > end.objectId) {
        return Err(end);
      }
      return Ok(());
    }
  }

  /** One track's handle on the shared record. Each call below makes its lock sections one after another. */
  class TrackObjects {
    const locations: TrackLocations
    const track: Track
    const alias: u64

    constructor (locations: TrackLocations, track: Track, alias: u64)
      ensures this.locations == locations && this.track == track && this.alias == alias
    {
      this.locations := locations;
      this.track := track;
      this.alias := alias;
    }

    method Note(at: Location, role: Role) returns (r: Result<(), Placement>)
      modifies locations
      ensures var spec := NoteSpec(old(locations.tracks), track, at, role);
              && locations.tracks == spec.tracks
              && spec.result == (if r.Ok? then Ok(()) else Err(EndOfTrackOutOfPlace(r.error)))
    {
      match role
      case Produced =>
        locations.Observe(track, at);
        return Ok(());
      case EndsTrack(form) =>
        if form.Some? {
          var check := locations.CheckEndOfTrack(track, at, form.value);
          if check.Err? {
            return check;
          }
        }
        locations.NoteFinalObject(track, at);
        return Ok(());
      case Neither =>
        return Ok(());
    }

    method NoteWithFinalObject(at: Location, role: Role) returns (r: Result<(), TrackFault>)
      modifies locations
      ensures Outcome(locations.tracks, r) == NoteWithFinalSpec(old(locations.tracks), track, at, role)
    {
      var past := locations.CheckNotPastFinal(track, at);
      if past.Err? {
        return Err(PastFinalObject(past.error));
      }
      var note := Note(at, role);
      if note.Err? {
        return Err(EndOfTrackOutOfPlace(note.error));
      }
      return Ok(());
    }

    method NotePastFinal(at: Location, role: Role) returns (r: Result<(), Location>)
      modifies locations
      ensures var spec := NotePastFinalSpec(old(locations.tracks), track, at, role);
              && locations.tracks == spec.tracks
              && spec.result == (if r.Ok? then Ok(()) else Err(PastFinalObject(r.error)))
    {
      var past := locations.CheckNotPastFinal(track, at);
      if past.Err? {
        return past;
      }
      match role {
        case Produced => locations.Observe(track, at);
        case EndsTrack(_) => locations.NoteFinalObject(track, at);
        case Neither =>
      }
      return Ok(());
    }
  }
}
