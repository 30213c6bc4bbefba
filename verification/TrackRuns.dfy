/** What holds of the record when calls are made one after another, each to its end. */
module TrackRuns {
  import opened Bytes
  import opened TrackLocations

  function Run(ts: seq<Record>, calls: seq<Call>): seq<Record> {
    if calls == [] then ts else CallSpec(Run(ts, calls[..|calls| - 1]), calls[|calls| - 1]).tracks
  }

  /** A call changes at most one field of one track's record, and a refused call changes nothing. */
  lemma StepEffect(ts: seq<Record>, call: Call, track: Track)
    ensures var before, after := Lookup(ts, track), Lookup(CallSpec(ts, call).tracks, track);
            && (CallSpec(ts, call).result.Err? || call.track != track ==> after == before)
            && (CallSpec(ts, call).result.Err? ==> CallSpec(ts, call).tracks == ts)
            && (CallSpec(ts, call).result.Ok? && call.track == track ==>
                  && (call.Guarded() && before.finalObject.Some? ==> call.at.AtMost(before.finalObject.value))
                  && (call.JudgesItself() && before.reached.Some? ==> before.reached.value.Less(call.at))
                  && after == match call.role
                              case Produced => before.(reached := Some(Later(before.reached, call.at)))
                              case EndsTrack(_) => before.(finalObject := Some(before.finalObject.GetOr(call.at)))
                              case Neither => before)
  {
    hide Lookup, Observed, Ended, Later;
    ObservedState(ts, call.track, call.at, track);
    EndedState(ts, call.track, call.at, track);
  }

  /** Exactly when a call is refused, by which of its two checks, and what the refusal reports. */
  lemma Answers(ts: seq<Record>, call: Call)
    ensures var State(reached, end) := Lookup(ts, call.track);
            CallSpec(ts, call).result ==
            if (call.entry == NoteWithFinal || call.entry == NotePastFinal) && end.Some?
               && (call.at.group > end.value.group
                   || (call.at.group == end.value.group && call.at.objectId > end.value.objectId))
            then Err(PastFinalObject(end.value))
            else if (call.entry == Note || call.entry == NoteWithFinal) && call.role == EndsTrack(Some(PastLastGroup))
                    && reached.Some? && call.at.group <= reached.value.group
            then Err(EndOfTrackOutOfPlace(GroupBehind(reached.value.group)))
            else if (call.entry == Note || call.entry == NoteWithFinal) && call.role == EndsTrack(Some(LastGroup))
                    && reached.Some? && call.at.group < reached.value.group
            then Err(EndOfTrackOutOfPlace(GroupBehind(reached.value.group)))
            else if (call.entry == Note || call.entry == NoteWithFinal) && call.role == EndsTrack(Some(LastGroup))
                    && reached.Some? && call.at.group == reached.value.group
                    && call.at.objectId <= reached.value.objectId
            then Err(EndOfTrackOutOfPlace(ObjectBehind(reached.value.objectId)))
            else Ok(())
  {
    hide Lookup, Observed, Ended;
    var state := Lookup(ts, call.track);
    assert JudgePast(state.finalObject, call.at).Err? ==> state.finalObject.Some?;
    if call.role.EndsTrack? && call.role.form.Some? {
      var form := call.role.form.value;
      assert call.role == EndsTrack(Some(form)) && (form == LastGroup || form == PastLastGroup);
    }
  }

  /** An end once written never moves, whichever entry points later objects come through. */
  lemma {:induction false} EndNeverMoves(ts: seq<Record>, calls: seq<Call>, track: Track)
    requires Lookup(ts, track).finalObject.Some?
    ensures Lookup(Run(ts, calls), track).finalObject == Lookup(ts, track).finalObject
  {
    hide CallSpec, Lookup;
    if calls != [] {
      EndNeverMoves(ts, calls[..|calls| - 1], track);
      StepEffect(Run(ts, calls[..|calls| - 1]), calls[|calls| - 1], track);
    }
  }

  /** Every call goes through an entry point that looks at the track's end first. */
  predicate AllGuarded(calls: seq<Call>) {
    forall i :: 0 <= i < |calls| ==> calls[i].Guarded()
  }

  /**
   Once a track has ended, whatever its later objects are, whether it has reached past its end is
   settled: it has exactly when it already had.
   */
  lemma {:induction false} EndDecides(ts: seq<Record>, calls: seq<Call>, track: Track)
    requires AllGuarded(calls) && Lookup(ts, track).finalObject.Some?
    ensures Lookup(Run(ts, calls), track).WithinEnd() <==> Lookup(ts, track).WithinEnd()
  {
    hide CallSpec, Lookup;
    if calls != [] {
      var init := calls[..|calls| - 1];
      EndNeverMoves(ts, init, track);
      EndDecides(ts, init, track);
      StepEffect(Run(ts, init), calls[|calls| - 1], track);
    }
  }

  /**
   The call that ends a track settles it for good: the track stays within its end through every later run
   exactly when nothing past the end had been reached as the end was written.
   */
  lemma EndingSettles(ts: seq<Record>, call: Call, more: seq<Call>)
    requires call.role.EndsTrack? && CallSpec(ts, call).result.Ok? && Lookup(ts, call.track).finalObject.None?
    requires AllGuarded(more)
    ensures Lookup(Run(CallSpec(ts, call).tracks, more), call.track).WithinEnd() <==>
            (Lookup(ts, call.track).reached.Some? ==> Lookup(ts, call.track).reached.value.AtMost(call.at))
  {
    hide CallSpec, Lookup, Run;
    StepEffect(ts, call, call.track);
    EndDecides(CallSpec(ts, call).tracks, more, call.track);
  }

  /** The `k`th call writes the track's end, behind what the track has by then reached. */
  predicate EndsBehind(calls: seq<Call>, k: nat, track: Track)
    requires k < |calls|
  {
    var ts, call := Run([], calls[..k]), calls[k];
    var before := Lookup(ts, track);
    && call.track == track && call.role.EndsTrack? && CallSpec(ts, call).result.Ok?
    && before.finalObject.None? && before.reached.Some? && call.at.Less(before.reached.value)
  }

  /** A sequential run leaves a track within its end exactly when no call wrote the end behind what was reached. */
  lemma {:induction false} RunWithinEndExactly(calls: seq<Call>, track: Track)
    requires AllGuarded(calls)
    ensures Lookup(Run([], calls), track).WithinEnd() <==>
            forall k :: 0 <= k < |calls| ==> !EndsBehind(calls, k, track)
  {
    hide CallSpec, Lookup, EndsBehind, Run;
    if calls == [] {
      Nothing(track);
    } else {
      var init := calls[..|calls| - 1];
      RunWithinEndExactly(init, track);
      LastCall(calls, track);
      forall k | 0 <= k < |init|
        ensures EndsBehind(calls, k, track) <==> EndsBehind(init, k, track)
      {
        SamePrefix(calls, k, track);
      }
    }
  }

  lemma LastCall(calls: seq<Call>, track: Track)
    requires calls != [] && AllGuarded(calls)
    ensures Lookup(Run([], calls), track).WithinEnd() <==>
            Lookup(Run([], calls[..|calls| - 1]), track).WithinEnd() && !EndsBehind(calls, |calls| - 1, track)
  {
    hide CallSpec, Lookup;
    StepEffect(Run([], calls[..|calls| - 1]), calls[|calls| - 1], track);
  }

  lemma SamePrefix(calls: seq<Call>, k: nat, track: Track)
    requires k < |calls| - 1
    ensures EndsBehind(calls, k, track) <==> EndsBehind(calls[..|calls| - 1], k, track)
  {
    hide CallSpec, Lookup, Run;
    assert calls[..|calls| - 1][..k] == calls[..k];
  }

  lemma Nothing(track: Track)
    ensures Lookup([], track) == State(None, None) && Run([], []) == []
  {
  }

  /** Every call looks at the track's end first, and every end-of-track object is one whose placement is judged. */
  predicate AllJudged(calls: seq<Call>) {
    forall i :: 0 <= i < |calls| ==> calls[i].Guarded() && (calls[i].role.EndsTrack? ==> calls[i].JudgesItself())
  }

  /**
   The run invariant of the drafts that judge an end's placement: in any sequential run, no track has
   reached past its end.
   */
  lemma JudgedRunWithinEnd(calls: seq<Call>, track: Track)
    requires AllJudged(calls)
    ensures Lookup(Run([], calls), track).WithinEnd()
  {
    hide CallSpec, Lookup, Run;
    forall k | 0 <= k < |calls|
      ensures !EndsBehind(calls, k, track)
    {
      StepEffect(Run([], calls[..k]), calls[k], track);
    }
    RunWithinEndExactly(calls, track);
  }

  /**
   The whole run, seen from any point after the end was written: the end has not moved, later objects
   were accepted only at or below it, and a refused one left the record as it was.
   */
  lemma AfterTheEnd(calls: seq<Call>, more: seq<Call>, call: Call)
    requires AllJudged(calls + more) && call.Guarded()
    requires Lookup(Run([], calls), call.track).finalObject.Some?
    ensures var end := Lookup(Run([], calls), call.track).finalObject.value;
            var ts := Run([], calls + more);
            && Lookup(ts, call.track).finalObject == Some(end)
            && (Lookup(ts, call.track).reached.Some? ==> Lookup(ts, call.track).reached.value.AtMost(end))
            && (CallSpec(ts, call).result.Ok? ==> call.at.AtMost(end))
            && (CallSpec(ts, call).result.Err? ==> CallSpec(ts, call).tracks == ts)
  {
    hide CallSpec, Lookup, Run;
    RunRun(calls, more);
    EndNeverMoves(Run([], calls), more, call.track);
    JudgedRunWithinEnd(calls + more, call.track);
    StepEffect(Run([], calls + more), call, call.track);
  }

  lemma {:induction false} RunRun(calls: seq<Call>, more: seq<Call>)
    ensures Run([], calls + more) == Run(Run([], calls), more)
  {
    hide CallSpec;
    if more == [] {
      assert calls + more == calls;
    } else {
      assert (calls + more)[..|calls + more| - 1] == calls + more[..|more| - 1];
      RunRun(calls, more[..|more| - 1]);
    }
  }

  /** Judging placements is what the invariant rests on: an unjudged end may be behind what was carried. */
  lemma UnjudgedEndMayBeBehind(track: Track)
    ensures !Lookup(Run([], [Call(NoteWithFinal, track, Location(5, 0), Produced),
                             Call(NoteWithFinal, track, Location(3, 0), EndsTrack(None))]), track).WithinEnd()
  {
    hide CallSpec, Lookup;
    var first := Call(NoteWithFinal, track, Location(5, 0), Produced);
    var calls := [first, Call(NoteWithFinal, track, Location(3, 0), EndsTrack(None))];
    assert calls[..1] == [first] && [first][..0] == [];
    assert Run([], [first]) == CallSpec([], first).tracks;
    Nothing(track);
    Accepted([], first);
    StepEffect([], first, track);
    Accepted(Run([], [first]), calls[1]);
    assert EndsBehind(calls, 1, track);
    RunWithinEndExactly(calls, track);
  }

  lemma Accepted(ts: seq<Record>, call: Call)
    requires call.entry.NoteWithFinal? && !call.JudgesItself() && Lookup(ts, call.track).finalObject.None?
    ensures CallSpec(ts, call).result.Ok?
  {
  }
}
