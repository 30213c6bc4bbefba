/**
 Many streams measuring objects against one record. Each call takes the lock once per section, so the
 sections of different streams interleave freely; what follows holds of every interleaving.
 */
module TrackInterleaving {
  import opened Bytes
  import opened TrackLocations

  /** The lock section a stream will take next. */
  datatype Section = Checking | Judging(form: EndForm) | Observing | Settling

  /** A call under way, and where in the log its own past-the-end check and placement judgement ran. */
  datatype Stream = Stream(call: Call, section: Section, checkedAt: Option<nat>, judgedAt: Option<nat>)

  /** One lock section, by the stream that took it. */
  datatype Event =
    | Checked(id: nat, call: Call, past: Result<(), Location>)
    | Judged(id: nat, call: Call, placement: Result<(), Placement>)
    | Recorded(id: nat, call: Call, checkedAt: Option<nat>)
    | Settled(id: nat, call: Call, judgedAt: Option<nat>)

  datatype World = World(tracks: seq<Record>, streams: map<nat, Stream>, log: seq<Event>)

  const START := World([], map[], [])

  /** The section a call's object is for, once any past-the-end check is behind it. */
  function RoleSection(call: Call): Option<Section> {
    match call.role
    case Produced => Some(Observing)
    case EndsTrack(form) => if call.JudgesItself() then Some(Judging(form.value)) else Some(Settling)
    case Neither => None
  }

  function FirstSection(call: Call): Option<Section> {
    if call.Guarded() then Some(Checking) else RoleSection(call)
  }

  /** One lock section of one stream, from taking the lock to releasing it. */
  function TakeSection(w: World, id: nat): World
    requires id in w.streams
  {
    var stream := w.streams[id];
    var call := stream.call;
    var state := Lookup(w.tracks, call.track);
    match stream.section
    case Checking =>
      var past, next := JudgePast(state.finalObject, call.at), RoleSection(call);
      World(w.tracks,
            if past.Ok? && next.Some? then
              w.streams[id := stream.(section := next.value, checkedAt := Some(|w.log|))]
            else w.streams - {id},
            w.log + [Checked(id, call, past)])
    case Judging(form) =>
      var placement := JudgeEnd(state.reached, call.at, form);
      World(w.tracks,
            if placement.Ok? then w.streams[id := stream.(section := Settling, judgedAt := Some(|w.log|))]
            else w.streams - {id},
            w.log + [Judged(id, call, placement)])
    case Observing =>
      World(Observed(w.tracks, call.track, call.at), w.streams - {id}, w.log + [Recorded(id, call, stream.checkedAt)])
    case Settling =>
      World(Ended(w.tracks, call.track, call.at), w.streams - {id}, w.log + [Settled(id, call, stream.judgedAt)])
  }

  /** A scheduler's choice: start a call on an idle stream, or let a busy one take its next section. */
  datatype Choice = Begin(id: nat, call: Call) | Advance(id: nat)

  function Exec(w: World, choice: Choice): World {
    match choice
    case Begin(id, call) =>
      if id in w.streams || FirstSection(call).None? then w
      else w.(streams := w.streams[id := Stream(call, FirstSection(call).value, None, None)])
    case Advance(id) =>
      if id in w.streams then TakeSection(w, id) else w
  }

  function Run(w: World, choices: seq<Choice>): World {
    if choices == [] then w else Exec(Run(w, choices[..|choices| - 1]), choices[|choices| - 1])
  }

  // --------------------------------------------------------------- reading the log

  /** The greatest Location the log records for a track. */
  function ReachedIn(log: seq<Event>, track: Track): Option<Location> {
    if log == [] then None
    else
      var before := ReachedIn(log[..|log| - 1], track);
      var last := log[|log| - 1];
      if last.Recorded? && last.call.track == track then Some(Later(before, last.call.at)) else before
  }

  /** The location of the first section that wrote a track's end. */
  function FirstSettled(log: seq<Event>, track: Track): Option<Location> {
    if log == [] then None
    else
      var before := FirstSettled(log[..|log| - 1], track);
      var last := log[|log| - 1];
      if before.None? && last.Settled? && last.call.track == track then Some(last.call.at) else before
  }

  predicate RecordsAt(log: seq<Event>, k: int, track: Track, at: Location) {
    0 <= k < |log| && log[k].Recorded? && log[k].call.track == track && log[k].call.at == at
  }

  /** The section that wrote a track's end. */
  predicate SettlesAt(log: seq<Event>, s: int, track: Track) {
    0 <= s < |log| && log[s].Settled? && log[s].call.track == track && FirstSettled(log[..s], track) == None
  }

  /** A Location recorded for the track, and none past it. */
  ghost predicate Reaches(log: seq<Event>, track: Track, r: Location) {
    && (exists k :: RecordsAt(log, k, track, r))
    && forall k, at :: RecordsAt(log, k, track, at) ==> at.AtMost(r)
  }

  lemma {:induction false} ReachedIsGreatest(log: seq<Event>, track: Track)
    ensures ReachedIn(log, track).None? ==> forall k, at :: !RecordsAt(log, k, track, at)
    ensures ReachedIn(log, track).Some? ==> Reaches(log, track, ReachedIn(log, track).value)
  {
    if log != [] {
      var init, last := log[..|log| - 1], log[|log| - 1];
      ReachedIsGreatest(init, track);
      forall k, at
        ensures RecordsAt(log, k, track, at) <==>
                RecordsAt(init, k, track, at)
                || (k == |init| && last.Recorded? && last.call.track == track && last.call.at == at)
      {
      }
      var r := ReachedIn(log, track);
      if r.Some? {
        if last.Recorded? && last.call.track == track && last.call.at == r.value {
          assert log[|init|] == last && RecordsAt(log, |init|, track, r.value);
        } else {
          var k :| RecordsAt(init, k, track, r.value);
          assert RecordsAt(log, k, track, r.value);
        }
      }
    }
  }

  lemma {:induction false} SettledStays(log: seq<Event>, k: nat, track: Track)
    requires k <= |log| && FirstSettled(log[..k], track).Some?
    ensures FirstSettled(log, track) == FirstSettled(log[..k], track)
  {
    if k < |log| {
      assert log[..|log| - 1][..k] == log[..k];
      SettledStays(log[..|log| - 1], k, track);
    } else {
      assert log[..k] == log;
    }
  }

  /** A track whose end is written has one section that wrote it. */
  lemma {:induction false} SettlerExists(log: seq<Event>, track: Track) returns (s: nat)
    requires FirstSettled(log, track).Some?
    ensures SettlesAt(log, s, track) && FirstSettled(log, track) == Some(log[s].call.at)
  {
    var init := log[..|log| - 1];
    if FirstSettled(init, track).Some? {
      s := SettlerExists(init, track);
      assert log[..s] == init[..s];
    } else {
      s := |init|;
    }
  }

  // --------------------------------------------------------------- the invariant

  /** The check a call made, if its entry point makes one, is in the log where the call says. */
  predicate CheckBehind(id: nat, call: Call, checkedAt: Option<nat>, log: seq<Event>, now: nat) {
    call.Guarded() ==>
      checkedAt.Some? && checkedAt.value < now <= |log| && log[checkedAt.value] == Checked(id, call, Ok(()))
  }

  /** And so is the judgement an end-of-track object passed. */
  predicate JudgementBehind(id: nat, call: Call, judgedAt: Option<nat>, log: seq<Event>, now: nat) {
    call.JudgesItself() ==>
      judgedAt.Some? && judgedAt.value < now <= |log| && log[judgedAt.value] == Judged(id, call, Ok(()))
  }

  /** What each section saw was the record as the sections before it had left it. */
  predicate EventOk(log: seq<Event>, k: nat)
    requires k < |log|
  {
    match log[k]
    case Checked(_, call, past) => past == JudgePast(FirstSettled(log[..k], call.track), call.at)
    case Judged(_, call, placement) =>
      call.JudgesItself() && placement == JudgeEnd(ReachedIn(log[..k], call.track), call.at, call.role.form.value)
    case Recorded(id, call, checkedAt) => CheckBehind(id, call, checkedAt, log, k)
    case Settled(id, call, judgedAt) => JudgementBehind(id, call, judgedAt, log, k)
  }

  predicate StreamOk(id: nat, stream: Stream, log: seq<Event>) {
    && (!stream.section.Checking? ==> CheckBehind(id, stream.call, stream.checkedAt, log, |log|))
    && match stream.section
       case Judging(form) => RoleSection(stream.call) == Some(Judging(form))
       case Settling => JudgementBehind(id, stream.call, stream.judgedAt, log, |log|)
       case _ => true
  }

  ghost predicate Inv(w: World) {
    && Unique(w.tracks)
    && (forall track :: Lookup(w.tracks, track) == State(ReachedIn(w.log, track), FirstSettled(w.log, track)))
    && (forall k :: 0 <= k < |w.log| ==> EventOk(w.log, k))
    && (forall id :: id in w.streams ==> StreamOk(id, w.streams[id], w.log))
  }

  lemma EventsStay(log: seq<Event>, e: Event)
    requires forall k :: 0 <= k < |log| ==> EventOk(log, k)
    ensures forall k :: 0 <= k < |log| ==> EventOk(log + [e], k)
  {
    forall k | 0 <= k < |log| ensures EventOk(log + [e], k) {
      assert (log + [e])[..k] == log[..k];
      assert EventOk(log, k);
    }
  }

  /** The part of the invariant that speaks of the record, over one section. */
  lemma TablePreserved(w: World, id: nat, track: Track)
    requires Inv(w) && id in w.streams
    ensures var v := TakeSection(w, id);
            && Unique(v.tracks)
            && Lookup(v.tracks, track) == State(ReachedIn(v.log, track), FirstSettled(v.log, track))
  {
    hide Lookup, Observed, Ended, RoleSection, EventOk, StreamOk;
    var call, v := w.streams[id].call, TakeSection(w, id);
    ObservedState(w.tracks, call.track, call.at, track);
    EndedState(w.tracks, call.track, call.at, track);
    assert v.log[..|w.log|] == w.log;
  }

  /** The section just taken saw what it should have, and its stream goes on as it should. */
  lemma SectionOk(w: World, id: nat)
    requires Inv(w) && id in w.streams
    ensures var v := TakeSection(w, id);
            && |v.log| == |w.log| + 1 && v.log[..|w.log|] == w.log && EventOk(v.log, |w.log|)
            && (id in v.streams ==> StreamOk(id, v.streams[id], v.log))
            && v.streams - {id} == w.streams - {id}
  {
    hide Lookup, Observed, Ended, ReachedIn, FirstSettled;
    var v := TakeSection(w, id);
    assert v.log[..|w.log|] == w.log;
    assert StreamOk(id, w.streams[id], w.log);
  }

  lemma StreamStays(id: nat, stream: Stream, log: seq<Event>, e: Event)
    requires StreamOk(id, stream, log)
    ensures StreamOk(id, stream, log + [e])
  {
  }

  lemma SectionPreserves(w: World, id: nat)
    requires Inv(w) && id in w.streams
    ensures Inv(TakeSection(w, id))
  {
    hide TakeSection, Lookup, EventOk, StreamOk, ReachedIn, FirstSettled;
    var v := TakeSection(w, id);
    SectionOk(w, id);
    var e := v.log[|w.log|];
    forall track
      ensures Lookup(v.tracks, track) == State(ReachedIn(v.log, track), FirstSettled(v.log, track))
    {
      TablePreserved(w, id, track);
    }
    TablePreserved(w, id, w.streams[id].call.track);
    assert v.log == w.log + [e];
    EventsStay(w.log, e);
    forall other | other in v.streams
      ensures StreamOk(other, v.streams[other], v.log)
    {
      if other != id {
        assert other in v.streams - {id} && (v.streams - {id})[other] == (w.streams - {id})[other];
        StreamStays(other, w.streams[other], w.log, e);
      }
    }
  }

  /** Every run, however its streams' sections interleave, keeps the invariant. */
  lemma {:induction false} EveryInterleaving(choices: seq<Choice>)
    ensures Inv(Run(START, choices))
  {
    hide TakeSection, Inv;
    if choices == [] {
      StartOk();
    } else {
      var w, choice := Run(START, choices[..|choices| - 1]), choices[|choices| - 1];
      EveryInterleaving(choices[..|choices| - 1]);
      if choice.Advance? {
        if choice.id in w.streams {
          SectionPreserves(w, choice.id);
        }
      } else {
        BeginPreserves(w, choice);
      }
    }
  }

  lemma StartOk()
    ensures Inv(START)
  {
  }

  lemma BeginPreserves(w: World, choice: Choice)
    requires Inv(w) && choice.Begin?
    ensures Inv(Exec(w, choice))
  {
    hide Lookup, EventOk, ReachedIn, FirstSettled;
  }

  // --------------------------------------------------------------- what it means

  /** Whatever the interleaving, `reached` is the greatest Location recorded, and `final` the first written. */
  lemma RecordUnderInterleaving(choices: seq<Choice>, track: Track)
    ensures var w := Run(START, choices);
            && Unique(w.tracks)
            && Lookup(w.tracks, track).finalObject == FirstSettled(w.log, track)
            && match Lookup(w.tracks, track).reached
               case None => forall k, at :: !RecordsAt(w.log, k, track, at)
               case Some(r) => Reaches(w.log, track, r)
  {
    hide Run, Lookup, RecordsAt, Reaches;
    EveryInterleaving(choices);
    ReachedIsGreatest(Run(START, choices).log, track);
  }

  lemma {:induction false} LogGrows(w: World, choices: seq<Choice>)
    ensures |w.log| <= |Run(w, choices).log| && Run(w, choices).log[..|w.log|] == w.log
  {
    if choices != [] {
      LogGrows(w, choices[..|choices| - 1]);
    } else {
      assert w.log[..|w.log|] == w.log;
    }
  }

  lemma {:induction false} RunRun(w: World, first: seq<Choice>, more: seq<Choice>)
    ensures Run(w, first + more) == Run(Run(w, first), more)
  {
    if more == [] {
      assert first + more == first;
    } else {
      assert (first + more)[..|first + more| - 1] == first + more[..|more| - 1];
      RunRun(w, first, more[..|more| - 1]);
    }
  }

  /** The end of a track is write-once: no later interleaving moves it. */
  lemma EndWrittenOnce(first: seq<Choice>, more: seq<Choice>, track: Track)
    requires Lookup(Run(START, first).tracks, track).finalObject.Some?
    ensures Lookup(Run(START, first + more).tracks, track).finalObject ==
            Lookup(Run(START, first).tracks, track).finalObject
  {
    hide Run, Inv;
    var w, v := Run(START, first), Run(START, first + more);
    RecordUnderInterleaving(first, track);
    RecordUnderInterleaving(first + more, track);
    RunRun(START, first, more);
    LogGrows(w, more);
    SettledStays(v.log, |w.log|, track);
  }

  /** Every past-the-end report for one track, on every stream, names the same Location: its end. */
  lemma ReportsAgree(choices: seq<Choice>, k: nat)
    requires var log := Run(START, choices).log; k < |log| && log[k].Checked? && log[k].past.Err?
    ensures var w := Run(START, choices);
            && Lookup(w.tracks, w.log[k].call.track).finalObject == Some(w.log[k].past.error)
            && w.log[k].past.error.Less(w.log[k].call.at)
  {
    hide Run;
    var w := Run(START, choices);
    EveryInterleaving(choices);
    assert EventOk(w.log, k);
    SettledStays(w.log, k, w.log[k].call.track);
  }

  /** A recorded object whose own check passed, on its own stream, before any section had written its track's end. */
  predicate CheckedInTime(log: seq<Event>, k: nat)
    requires k < |log| && log[k].Recorded?
  {
    && log[k].checkedAt.Some?
    && var i := log[k].checkedAt.value;
       i < k && log[i] == Checked(log[k].id, log[k].call, Ok(())) && FirstSettled(log[..i], log[k].call.track) == None
  }

  /**
   An object past its track's end gets into the record only through a race it had already entered: its
   own check ran, and passed, before any section wrote the end.
   */
  lemma OnlyRacersPass(choices: seq<Choice>, k: nat)
    requires var log := Run(START, choices).log; k < |log| && log[k].Recorded? && log[k].call.Guarded()
    requires var w := Run(START, choices); var end := Lookup(w.tracks, w.log[k].call.track).finalObject;
             end.Some? && end.value.Less(w.log[k].call.at)
    ensures CheckedInTime(Run(START, choices).log, k)
  {
    hide Run;
    var w := Run(START, choices);
    EveryInterleaving(choices);
    assert EventOk(w.log, k);
    var call, i := w.log[k].call, w.log[k].checkedAt.value;
    assert EventOk(w.log, i);
    if FirstSettled(w.log[..i], call.track).Some? {
      SettledStays(w.log, i, call.track);
    }
  }

  /**
   Two calls under way at once: the recorded object was checked before the end was written, and recorded
   after the end's own placement had been judged.
   */
  predicate Overlap(log: seq<Event>, k: nat, s: nat)
    requires k < |log| && log[k].Recorded? && s < |log| && log[s].Settled?
  {
    && CheckedInTime(log, k) && log[k].checkedAt.value < s
    && log[s].judgedAt.Some?
    && var j := log[s].judgedAt.value;
       j < s && j < k && log[j] == Judged(log[s].id, log[s].call, Ok(()))
  }

  /** An object past a judged end overlapped the call that wrote the end. */
  lemma OnlyOverlapsPass(choices: seq<Choice>, k: nat, s: nat)
    requires var log := Run(START, choices).log;
             && k < |log| && log[k].Recorded? && log[k].call.Guarded()
             && SettlesAt(log, s, log[k].call.track) && log[s].call.JudgesItself()
             && log[s].call.at.Less(log[k].call.at)
    ensures Overlap(Run(START, choices).log, k, s)
  {
    hide Run, ReachedIn;
    var w := Run(START, choices);
    var log, call := w.log, w.log[k].call;
    EveryInterleaving(choices);
    assert log[..s + 1][..s] == log[..s];
    SettledStays(log, s + 1, call.track);
    OnlyRacersPass(choices, k);
    var i := log[k].checkedAt.value;
    if s < i {
      assert log[..i][..s + 1] == log[..s + 1];
      SettledStays(log[..i], s + 1, call.track);
    }
    assert EventOk(log, s);
    var j := log[s].judgedAt.value;
    assert EventOk(log, j);
    if k < j {
      assert RecordsAt(log[..j], k, call.track, call.at);
      ReachedIsGreatest(log[..j], call.track);
    }
  }

  /**
   How a track can have reached past its end at all: by an entry point that does not look at the end, by
   an end whose placement was not judged, or by two overlapping calls.
   */
  lemma PastTheEndMeansRaced(choices: seq<Choice>, track: Track)
    requires !Lookup(Run(START, choices).tracks, track).WithinEnd()
    ensures var w := Run(START, choices); var state := Lookup(w.tracks, track);
            exists k, s ::
              && RecordsAt(w.log, k, track, state.reached.value) && SettlesAt(w.log, s, track)
              && state.finalObject == Some(w.log[s].call.at)
              && (!w.log[k].call.Guarded() || !w.log[s].call.JudgesItself() || Overlap(w.log, k, s))
  {
    hide Run, Overlap;
    var w := Run(START, choices);
    RecordUnderInterleaving(choices, track);
    var at := Lookup(w.tracks, track).reached.value;
    var k :| RecordsAt(w.log, k, track, at);
    var s := SettlerExists(w.log, track);
    if w.log[k].call.Guarded() && w.log[s].call.JudgesItself() {
      OnlyOverlapsPass(choices, k, s);
    }
    assert RecordsAt(w.log, k, track, at) && SettlesAt(w.log, s, track);
  }

  // --------------------------------------------------- staying within the end, exactly

  /** Every call a schedule starts looks at the track's end first. */
  predicate AllGuarded(choices: seq<Choice>) {
    forall k :: 0 <= k < |choices| && choices[k].Begin? ==> choices[k].call.Guarded()
  }

  /** A stream of the track about to record an object past an end. */
  predicate Threatens(stream: Stream, track: Track, end: Location) {
    stream.call.track == track && stream.section.Observing? && end.Less(stream.call.at)
  }

  /** The track has ended, lies within its end, and no stream is about to record past it. */
  ghost predicate Safe(w: World, track: Track) {
    && Lookup(w.tracks, track).finalObject.Some?
    && Lookup(w.tracks, track).WithinEnd()
    && forall id :: id in w.streams ==> !Threatens(w.streams[id], track, Lookup(w.tracks, track).finalObject.value)
  }

  lemma SafeStep(w: World, choice: Choice, track: Track)
    requires Safe(w, track) && (choice.Begin? ==> choice.call.Guarded())
    ensures Safe(Exec(w, choice), track)
    ensures Lookup(Exec(w, choice).tracks, track).finalObject == Lookup(w.tracks, track).finalObject
  {
    hide Lookup, Observed, Ended;
    if choice.Advance? && choice.id in w.streams {
      var call := w.streams[choice.id].call;
      ObservedState(w.tracks, call.track, call.at, track);
      EndedState(w.tracks, call.track, call.at, track);
    }
  }

  lemma {:induction false} SafeRun(w: World, choices: seq<Choice>, track: Track)
    requires Safe(w, track) && AllGuarded(choices)
    ensures Safe(Run(w, choices), track)
  {
    hide Exec, Safe;
    if choices != [] {
      var init := choices[..|choices| - 1];
      assert AllGuarded(init);
      SafeRun(w, init, track);
      SafeStep(Run(w, init), choices[|choices| - 1], track);
    }
  }

  /**
   Once a track has ended, every later schedule keeps it within its end if and only if it is there now and
   no stream has passed its check with an object past the end that it has yet to record.
   */
  lemma StaysWithinExactly(w: World, track: Track)
    requires Lookup(w.tracks, track).finalObject.Some?
    ensures (forall choices :: AllGuarded(choices) ==> Lookup(Run(w, choices).tracks, track).WithinEnd()) <==>
            Safe(w, track)
  {
    hide Lookup, Observed, Run;
    if Safe(w, track) {
      forall choices | AllGuarded(choices)
        ensures Lookup(Run(w, choices).tracks, track).WithinEnd()
      {
        SafeRun(w, choices, track);
      }
    } else if Lookup(w.tracks, track).WithinEnd() {
      var id :| id in w.streams && Threatens(w.streams[id], track, Lookup(w.tracks, track).finalObject.value);
      OneChoice(w, Advance(id));
      ObservedState(w.tracks, track, w.streams[id].call.at, track);
      assert AllGuarded([Advance(id)]);
    } else {
      OneChoice(w, Advance(0));
      assert AllGuarded([]);
    }
  }

  lemma OneChoice(w: World, choice: Choice)
    ensures Run(w, []) == w && Run(w, [choice]) == Exec(w, choice)
  {
    hide Exec;
    assert [choice][..0] == [];
  }

  // ----------------------------------------------------- sections and whole calls

  /** What a call answers its caller: the refusal its sections met, if they met one. */
  function Answer(events: seq<Event>): Result<(), TrackFault> {
    if events == [] then Ok(())
    else if Verdict(events[0]).Err? then Verdict(events[0])
    else Answer(events[1..])
  }

  function Verdict(e: Event): Result<(), TrackFault> {
    if e.Checked? && e.past.Err? then Err(PastFinalObject(e.past.error))
    else if e.Judged? && e.placement.Err? then Err(EndOfTrackOutOfPlace(e.placement.error))
    else Ok(())
  }

  lemma ShortAnswers(e: Event, f: Event)
    ensures Answer([e]) == Verdict(e)
    ensures Answer([e, f]) == if Verdict(e).Err? then Verdict(e) else Verdict(f)
  {
    assert [f][1..] == [] && [e][1..] == [] && [e, f][1..] == [f];
  }

  /** Sections taken one after another make the call the entry point's specification describes, and its answer. */
  lemma UninterruptedIsTheCall(w: World, id: nat, call: Call)
    requires id !in w.streams
    ensures var v := Exec(Exec(Exec(Exec(w, Begin(id, call)), Advance(id)), Advance(id)), Advance(id));
            && |w.log| <= |v.log| && v.log[..|w.log|] == w.log
            && Outcome(v.tracks, Answer(v.log[|w.log|..])) == CallSpec(w.tracks, call)
            && v.streams == w.streams
  {
    hide TakeSection, RoleSection, CallSpec, RoleSpec, Answer;
    SlotReused(w.streams, id);
    CallIsRole(w.tracks, call);
    var first := FirstSection(call);
    var w1 := Exec(w, Begin(id, call));
    if first.None? {
      NothingAnswered(w);
    } else if first == Some(Checking) {
      CheckingSection(w, w1, id, call);
      var w2 := TakeSection(w1, id);
      if id in w2.streams {
        var more := RoleSections(w2, id, call, w.streams);
        Passed(w.log, w2.log[|w.log|], more);
      } else {
        Refused(w.log, w2.log[|w.log|]);
      }
    } else {
      var more := RoleSections(w1, id, call, w.streams);
      assert (w.log + more)[|w.log|..] == more;
    }
  }

  lemma NothingAnswered(w: World)
    ensures w.log[..|w.log|] == w.log && Answer(w.log[|w.log|..]) == Ok(())
  {
  }

  lemma Passed(log: seq<Event>, e: Event, more: seq<Event>)
    ensures e.Checked? && e.past.Ok? ==> Answer((log + [e] + more)[|log|..]) == Answer(more)
  {
    assert (log + [e] + more)[|log|..] == [e] + more;
    assert ([e] + more)[1..] == more;
  }

  lemma Refused(log: seq<Event>, e: Event)
    ensures e.Checked? ==>
              Answer((log + [e])[|log|..]) == if e.past.Ok? then Ok(()) else Err(PastFinalObject(e.past.error))
  {
    assert (log + [e])[|log|..] == [e];
    assert [e][1..] == [];
  }

  /** What a call does past its check. */
  function RoleSpec(ts: seq<Record>, call: Call): Outcome {
    NoteSpec(ts, call.track, call.at,
             if call.entry.NotePastFinal? && call.role.EndsTrack? then EndsTrack(None) else call.role)
  }

  lemma CallIsRole(ts: seq<Record>, call: Call)
    ensures CallSpec(ts, call) ==
            var past := JudgePast(Lookup(ts, call.track).finalObject, call.at);
            if call.Guarded() && past.Err? then Outcome(ts, Err(PastFinalObject(past.error))) else RoleSpec(ts, call)
    ensures RoleSection(call).None? ==> RoleSpec(ts, call) == Outcome(ts, Ok(()))
    ensures RoleSection(call) != Some(Checking)
  {
    hide Observed, Ended;
  }

  lemma CheckingSection(w: World, w1: World, id: nat, call: Call)
    requires id !in w.streams && w1 == w.(streams := w.streams[id := Stream(call, Checking, None, None)])
    ensures var w2 := TakeSection(w1, id); var past := JudgePast(Lookup(w.tracks, call.track).finalObject, call.at);
            && w2.tracks == w.tracks && w2.log == w.log + [Checked(id, call, past)]
            && w2.streams == if past.Ok? && RoleSection(call).Some?
                             then w.streams[id := Stream(call, RoleSection(call).value, Some(|w.log|), None)]
                             else w.streams
  {
    SlotReused(w.streams, id);
  }

  lemma RoleSections(w: World, id: nat, call: Call, others: map<nat, Stream>) returns (events: seq<Event>)
    requires id !in others && RoleSection(call).Some? && id in w.streams
    requires w.streams == others[id := w.streams[id]]
    requires w.streams[id].call == call && w.streams[id].section == RoleSection(call).value
    ensures var v := Exec(Exec(w, Advance(id)), Advance(id));
            && Outcome(v.tracks, Answer(events)) == RoleSpec(w.tracks, call)
            && v.log == w.log + events && v.streams == others
  {
    hide Observed, Ended, Lookup, Answer;
    SlotReused(others, id);
    var v1 := TakeSection(w, id);
    var one := v1.log[|w.log|];
    ShortAnswers(one, one);
    if id in v1.streams {
      var two := TakeSection(v1, id).log[|w.log| + 1];
      assert w.log + [one] + [two] == w.log + [one, two];
      ShortAnswers(one, two);
      events := [one, two];
    } else {
      events := [one];
    }
  }

  lemma SlotReused(streams: map<nat, Stream>, id: nat)
    requires id !in streams
    ensures streams - {id} == streams
    ensures forall s {:trigger streams[id := s]} :: streams[id := s] - {id} == streams
    ensures forall s, t {:trigger streams[id := s][id := t]} :: streams[id := s][id := t] == streams[id := t]
  {
    assert streams - {id} == streams;
    forall s: Stream {:trigger streams[id := s]} ensures streams[id := s] - {id} == streams {
      assert streams[id := s] - {id} == streams;
    }
  }

  /** The schedule of the race below: an object is checked, the track ends, the object is recorded. */
  function Race(track: Track): seq<Choice> {
    var late := Call(NoteWithFinal, track, Location(5, 0), Produced);
    var end := Call(NoteWithFinal, track, Location(3, 0), EndsTrack(Some(LastGroup)));
    [Begin(0, late), Advance(0), Begin(1, end), Advance(1), Advance(1), Advance(1), Advance(0)]
  }

  /** Interleaved, even judged ends do not keep a track within its end; uninterrupted calls do. */
  lemma RaceReachesPastTheEnd(track: Track)
    ensures Lookup(Run(START, Race(track)).tracks, track) == State(Some(Location(5, 0)), Some(Location(3, 0)))
  {
    hide Exec, Run;
    var late := Call(NoteWithFinal, track, Location(5, 0), Produced);
    var end := Call(NoteWithFinal, track, Location(3, 0), EndsTrack(Some(LastGroup)));
    var c := Race(track);
    var w2 := Exec(Exec(START, c[0]), c[1]);
    var w5 := Exec(Exec(Exec(w2, c[2]), c[3]), c[4]);
    var w7 := Exec(Exec(w5, c[5]), c[6]);
    assert w2 == World([], map[0 := Stream(late, Observing, Some(0), None)], [Checked(0, late, Ok(()))]) by {
      CheckedFirst(track);
    }
    RaceMiddle(track, w2);
    RaceEnd(track, w5);
    RunSeven(c);
  }

  lemma CheckedFirst(track: Track)
    ensures var late := Race(track)[0].call;
            Exec(Exec(START, Race(track)[0]), Race(track)[1]) ==
            World([], map[0 := Stream(late, Observing, Some(0), None)], [Checked(0, late, Ok(()))])
  {
  }

  lemma RaceMiddle(track: Track, w2: World)
    requires w2.tracks == [] && w2.streams == map[0 := Stream(Race(track)[0].call, Observing, Some(0), None)]
    ensures var c := Race(track); var w5 := Exec(Exec(Exec(w2, c[2]), c[3]), c[4]);
            && w5.tracks == [] && w5.streams.Keys == {0, 1}
            && w5.streams[0] == Stream(c[0].call, Observing, Some(0), None)
            && w5.streams[1].call == c[2].call && w5.streams[1].section == Settling
  {
  }

  lemma RaceEnd(track: Track, w5: World)
    requires w5.tracks == [] && w5.streams.Keys == {0, 1}
    requires w5.streams[0] == Stream(Race(track)[0].call, Observing, Some(0), None)
    requires w5.streams[1].call == Race(track)[2].call && w5.streams[1].section == Settling
    ensures var c := Race(track);
            Lookup(Exec(Exec(w5, c[5]), c[6]).tracks, track) == State(Some(Location(5, 0)), Some(Location(3, 0)))
  {
    hide Lookup, Observed, Ended;
    EndedState([], track, Location(3, 0), track);
    ObservedState(Ended([], track, Location(3, 0)), track, Location(5, 0), track);
    NothingYet(track);
  }

  lemma NothingYet(track: Track)
    ensures Lookup([], track) == State(None, None)
  {
  }

  lemma RunSeven(c: seq<Choice>)
    requires |c| == 7
    ensures Run(START, c) ==
            Exec(Exec(Exec(Exec(Exec(Exec(Exec(START, c[0]), c[1]), c[2]), c[3]), c[4]), c[5]), c[6])
  {
    hide Exec;
    assert c[..6][..5] == c[..5] && c[..5][..4] == c[..4] && c[..4][..3] == c[..3];
    assert c[..3][..2] == c[..2] && c[..2][..1] == c[..1] && c[..1][..0] == [];
    assert Run(START, c[..1]) == Exec(START, c[0]);
    assert Run(START, c[..3]) == Exec(Exec(Run(START, c[..1]), c[1]), c[2]);
    assert Run(START, c[..5]) == Exec(Exec(Run(START, c[..3]), c[3]), c[4]);
  }
}
