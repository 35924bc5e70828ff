/*
 * The recording state of the Kinect recorder: the per-frame key-event branch
 * of the main loop, the per-frame body sampling and the wrist-to-POI
 * distance rows, as a class whose list fields the methods extend in place.
 */
module KinectRecorder {
  import opened RecorderRows
  import opened Wrappers


  /** How handling one event ends: normally, or with the IndexError that
      reading the last finger point of an empty list raises. */
  datatype Outcome = Handled | IndexError

  /** The sample logs that the body-frame processing extends. */
  datatype SampleLog = SampleLog(
    kinCounter: nat, fullSamples: seq<JointRow>, handSamples: seq<JointRow>,
    fingerPoints: seq<FingerRow>, distances: seq<seq<Cell>>)

  /** Number of tracked bodies in a frame. */
  function TrackedCount(bodies: seq<Body>): nat
  {
    if bodies == [] then 0
    else TrackedCount(bodies[..|bodies| - 1]) + (if bodies[|bodies| - 1].isTracked then 1 else 0)
  }

  /** Every tracked body reports the full joint set. */
  predicate WellFormedFrame(bodies: seq<Body>)
  {
    forall i :: 0 <= i < |bodies| ==> bodies[i].isTracked ==> |bodies[i].joints| == JointCount
  }

  /** Whether some event in the list is of the given type. */
  predicate AnyOfType(evs: seq<Event>, t: int)
  {
    exists i :: 0 <= i < |evs| && evs[i].evType == t
  }

  /** One finger point, one wrist row, one distance row and 25 joint rows
      per sample, each tagged with the counter value of its sample and the
      joint it comes from; no distance row is wider than the distance table. */
  predicate SampleLogValid(s: SampleLog)
  {
    && |s.fingerPoints| == s.kinCounter
    && |s.handSamples| == s.kinCounter
    && |s.distances| == s.kinCounter
    && |s.fullSamples| == JointCount * s.kinCounter
    && (forall i :: 0 <= i < |s.fingerPoints| ==> s.fingerPoints[i].counter == i)
    && (forall i :: 0 <= i < |s.handSamples| ==>
          s.handSamples[i].counter == i && s.handSamples[i].joint == WristRight)
    && (forall j :: 0 <= j < |s.fullSamples| ==>
          s.fullSamples[j].counter == j / JointCount && s.fullSamples[j].joint == j % JointCount)
    && (forall i :: 0 <= i < |s.distances| ==> |s.distances[i]| <= |DistanceColumns|)
  }

  /** Event rows never carry a counter value from the future. */
  predicate EventLogsValid(events: seq<EventRow>, eventsKeys: seq<KeyRow>, counter: nat)
  {
    && (forall i :: 0 <= i < |events| ==> events[i].counter <= counter)
    && (forall i :: 0 <= i < |eventsKeys| ==> eventsKeys[i].counter <= counter)
  }

  /** The logs after sampling one tracked body while `pois` are the current
      POIs: 25 joint rows, the right wrist row, the right hand tip and the
      distance row, all under the old counter value, which then goes up. */
  function SampleBody(s: SampleLog, body: Body, pois: seq<PoiRow>, ts: int): SampleLog
    requires |body.joints| == JointCount
  {
    var c := s.kinCounter;
    SampleLog(
      c + 1,
      s.fullSamples + JointRows(body.joints, c, ts),
      s.handSamples + [JointRow(body.joints[WristRight], WristRight, c, ts)],
      s.fingerPoints + [FingerRow(body.tipX, body.tipY, body.joints[HandTipRight], c, ts)],
      s.distances + [DistanceRow(pois, body.joints[WristRight], ts)])
  }

  /** Sampling a body keeps the logs aligned with the counter. */
  lemma SampleBodyKeepsValid(s: SampleLog, body: Body, pois: seq<PoiRow>, ts: int)
    requires SampleLogValid(s)
    requires |body.joints| == JointCount && |pois| <= 4
    ensures SampleLogValid(SampleBody(s, body, pois, ts))
  {
    FullSamplesTagged(s.fullSamples, JointRows(body.joints, s.kinCounter, ts), s.kinCounter);
    DistanceRowFits(pois, body.joints[WristRight], ts);
  }

  /** A key-down reads the last finger point, which fails on an empty list;
      every other event is handled. */
  function EventOutcome(ev: Event, fingerPoints: seq<FingerRow>): Outcome
  {
    if ev.evType == KeyDown && fingerPoints == [] then IndexError else Handled
  }

  /** The key-log rows one event adds: the pressed key for a key-down that
      got past the finger-point lookup, "none" for a key-up. */
  function KeyRowsOf(ev: Event, fingerPoints: seq<FingerRow>, counter: nat, ts: int): seq<KeyRow>
  {
    if ev.evType == KeyDown && fingerPoints != [] then [KeyRow(KeyDown, ev.unicode, ev.scancode, counter, ts)]
    else if ev.evType == KeyUp then [KeyRow(KeyUp, "none", ev.scancode, counter, ts)]
    else []
  }

  /** The registry after one event: a successful key-down sets the POI of its
      key from the last finger point; nothing else touches the registry. */
  function RegistryAfter(r: Registry, ev: Event, fingerPoints: seq<FingerRow>): Registry
  {
    if ev.evType == KeyDown && fingerPoints != [] then
      SetPoi(r, PoiFrom(ev.unicode, fingerPoints[|fingerPoints| - 1]))
    else r
  }

  /** What the event branch touches: the quit flag, both event logs and the POI registry. */
  datatype EventState = EventState(done: bool, events: seq<EventRow>, eventsKeys: seq<KeyRow>, registry: Registry)

  /** The state after one event at sample counter `counter`. */
  function ApplyEvent(st: EventState, ev: Event, fingerPoints: seq<FingerRow>, counter: nat, ts: int): EventState
  {
    EventState(st.done || ev.evType == Quit,
               st.events + [EventRow(ev.evType, counter, ts)],
               st.eventsKeys + KeyRowsOf(ev, fingerPoints, counter, ts),
               RegistryAfter(st.registry, ev, fingerPoints))
  }

  /** A batch of events handled in order; a failing key-down ends the batch
      after its own event row has been logged. */
  function ApplyEvents(st: EventState, evs: seq<Event>, fingerPoints: seq<FingerRow>, counter: nat, ts: int): (EventState, Outcome)
    decreases |evs|
  {
    if evs == [] then (st, Handled)
    else
      var next := ApplyEvent(st, evs[0], fingerPoints, counter, ts);
      if EventOutcome(evs[0], fingerPoints) == IndexError then (next, IndexError)
      else ApplyEvents(next, evs[1..], fingerPoints, counter, ts)
  }

  /** A batch fails exactly when it holds a key-down and no finger point has
      been sampled yet. */
  lemma {:induction false} ApplyEventsFails(st: EventState, evs: seq<Event>, fingerPoints: seq<FingerRow>, counter: nat, ts: int)
    decreases |evs|
    ensures ApplyEvents(st, evs, fingerPoints, counter, ts).1 == IndexError
            <==> fingerPoints == [] && AnyOfType(evs, KeyDown)
  {
    if evs != [] {
      ApplyEventsFails(ApplyEvent(st, evs[0], fingerPoints, counter, ts), evs[1..], fingerPoints, counter, ts);
      if AnyOfType(evs[1..], KeyDown) {
        var i :| 0 <= i < |evs[1..]| && evs[1..][i].evType == KeyDown;
        assert evs[i + 1].evType == KeyDown;
      }
      if AnyOfType(evs, KeyDown) && evs[0].evType != KeyDown {
        var i :| 0 <= i < |evs| && evs[i].evType == KeyDown;
        assert evs[1..][i - 1].evType == KeyDown;
      }
    }
  }

  /** Once a finger point exists, every event of the batch is logged in
      order at the current counter. */
  /** A batch without events of type `t` starts with another type and its
      rest has none either. */
  lemma NoTypeInTail(evs: seq<Event>, t: int)
    requires evs != [] && !AnyOfType(evs, t)
    ensures evs[0].evType != t && !AnyOfType(evs[1..], t)
  {
    forall i | 0 <= i < |evs[1..]|
      ensures evs[1..][i].evType != t
    {
      assert evs[1..][i] == evs[i + 1];
    }
  }

  lemma {:induction false} ApplyEventsLogsAll(st: EventState, evs: seq<Event>, fingerPoints: seq<FingerRow>, counter: nat, ts: int)
    decreases |evs|
    requires fingerPoints != [] || !AnyOfType(evs, KeyDown)
    ensures var r := ApplyEvents(st, evs, fingerPoints, counter, ts).0;
      && |r.events| == |st.events| + |evs|
      && r.events[..|st.events|] == st.events
      && (forall i :: 0 <= i < |evs| ==> r.events[|st.events| + i] == EventRow(evs[i].evType, counter, ts))
  {
    if evs != [] {
      var next := ApplyEvent(st, evs[0], fingerPoints, counter, ts);
      if !AnyOfType(evs, KeyDown) { NoTypeInTail(evs, KeyDown); }
      ApplyEventsLogsAll(next, evs[1..], fingerPoints, counter, ts);
      var r := ApplyEvents(next, evs[1..], fingerPoints, counter, ts).0;
      assert r == ApplyEvents(st, evs, fingerPoints, counter, ts).0;
      assert r.events[..|st.events|] == next.events[..|st.events|];
      forall i | 0 <= i < |evs|
        ensures r.events[|st.events| + i] == EventRow(evs[i].evType, counter, ts)
      {
        if i == 0 {
          assert r.events[|st.events|] == r.events[..|next.events|][|st.events|];
        } else {
          assert evs[1..][i - 1] == evs[i];
        }
      }
    }
  }

  /** Once a finger point exists, a batch ends the main loop exactly when the
      loop was ending already or the batch holds a QUIT. */
  lemma {:induction false} ApplyEventsQuits(st: EventState, evs: seq<Event>, fingerPoints: seq<FingerRow>, counter: nat, ts: int)
    decreases |evs|
    requires fingerPoints != [] || !AnyOfType(evs, KeyDown)
    ensures ApplyEvents(st, evs, fingerPoints, counter, ts).0.done == (st.done || AnyOfType(evs, Quit))
  {
    if evs != [] {
      if !AnyOfType(evs, KeyDown) { NoTypeInTail(evs, KeyDown); }
      ApplyEventsQuits(ApplyEvent(st, evs[0], fingerPoints, counter, ts), evs[1..], fingerPoints, counter, ts);
      if AnyOfType(evs[1..], Quit) {
        var i :| 0 <= i < |evs[1..]| && evs[1..][i].evType == Quit;
        assert evs[i + 1].evType == Quit;
      }
      if AnyOfType(evs, Quit) && evs[0].evType != Quit {
        var i :| 0 <= i < |evs| && evs[i].evType == Quit;
        assert evs[1..][i - 1].evType == Quit;
      }
    }
  }

  /** Before the first sample no event can set a point of interest. */
  lemma {:induction false} ApplyEventsNoSample(st: EventState, evs: seq<Event>, counter: nat, ts: int)
    decreases |evs|
    ensures ApplyEvents(st, evs, [], counter, ts).0.registry == st.registry
  {
    if evs != [] {
      ApplyEventsNoSample(ApplyEvent(st, evs[0], [], counter, ts), evs[1..], counter, ts);
    }
  }

  /** The logs after sampling every tracked body of a frame in frame order. */
  function SampleFrame(s: SampleLog, bodies: seq<Body>, pois: seq<PoiRow>, ts: int): SampleLog
    requires WellFormedFrame(bodies)
  {
    if bodies == [] then s
    else
      var prev := SampleFrame(s, bodies[..|bodies| - 1], pois, ts);
      var body := bodies[|bodies| - 1];
      if body.isTracked then SampleBody(prev, body, pois, ts) else prev
  }

  /** Sampling a frame advances the counter once per tracked body and keeps
      the logs aligned with it. */
  lemma {:induction false} SampleFrameKeepsValid(s: SampleLog, bodies: seq<Body>, pois: seq<PoiRow>, ts: int)
    requires SampleLogValid(s) && WellFormedFrame(bodies) && |pois| <= 4
    ensures SampleLogValid(SampleFrame(s, bodies, pois, ts))
    ensures SampleFrame(s, bodies, pois, ts).kinCounter == s.kinCounter + TrackedCount(bodies)
  {
    if bodies != [] {
      var prev := SampleFrame(s, bodies[..|bodies| - 1], pois, ts);
      SampleFrameKeepsValid(s, bodies[..|bodies| - 1], pois, ts);
      if bodies[|bodies| - 1].isTracked {
        SampleBodyKeepsValid(prev, bodies[|bodies| - 1], pois, ts);
      }
    }
  }

  /** Every POI ever set is a copy of the finger sample its counter names. */
  predicate PoisFromSamples(r: Registry, fingerPoints: seq<FingerRow>)
  {
    forall i :: 0 <= i < |r.positionsAll| ==>
      var p := r.positionsAll[i];
      p.counter < |fingerPoints| && p == PoiFrom(p.key, fingerPoints[p.counter])
  }

  /** The recorder's invariant over the values of its fields. */
  predicate StateValid(s: SampleLog, events: seq<EventRow>, eventsKeys: seq<KeyRow>, r: Registry)
  {
    && SampleLogValid(s)
    && EventLogsValid(events, eventsKeys, s.kinCounter)
    && RegistryInv(r)
    && PoisFromSamples(r, s.fingerPoints)
  }

  /** A POI copied from the latest finger sample names that sample by its counter. */
  lemma SetPoiFromSample(r: Registry, fingerPoints: seq<FingerRow>, key: string)
    requires PoisFromSamples(r, fingerPoints)
    requires fingerPoints != [] && fingerPoints[|fingerPoints| - 1].counter == |fingerPoints| - 1
    ensures PoisFromSamples(SetPoi(r, PoiFrom(key, fingerPoints[|fingerPoints| - 1])), fingerPoints)
  {
    var row := PoiFrom(key, fingerPoints[|fingerPoints| - 1]);
    SetPoiHistories(r, row);
    var all := SetPoi(r, row).positionsAll;
    forall i | 0 <= i < |all|
      ensures all[i].counter < |fingerPoints| && all[i] == PoiFrom(all[i].key, fingerPoints[all[i].counter])
    {
      if i < |r.positionsAll| {
        assert all[i] == r.positionsAll[i];
      } else {
        assert all[i] == row;
      }
    }
  }

  /** One event adds rows at the current counter only. */
  lemma EventKeepsLogs(events: seq<EventRow>, eventsKeys: seq<KeyRow>, counter: nat, ev: Event, fingerPoints: seq<FingerRow>, ts: int)
    requires EventLogsValid(events, eventsKeys, counter)
    ensures EventLogsValid(events + [EventRow(ev.evType, counter, ts)],
                           eventsKeys + KeyRowsOf(ev, fingerPoints, counter, ts), counter)
  {
    var events' := events + [EventRow(ev.evType, counter, ts)];
    var keys' := eventsKeys + KeyRowsOf(ev, fingerPoints, counter, ts);
    forall i | 0 <= i < |events'| ensures events'[i].counter <= counter {
      if i < |events| { assert events'[i] == events[i]; }
    }
    forall i | 0 <= i < |keys'| ensures keys'[i].counter <= counter {
      if i < |eventsKeys| { assert keys'[i] == eventsKeys[i]; }
    }
  }

  /** One event keeps the registry consistent with its histories and with the finger samples. */
  lemma EventKeepsRegistry(s: SampleLog, r: Registry, ev: Event)
    requires SampleLogValid(s) && RegistryInv(r) && PoisFromSamples(r, s.fingerPoints)
    ensures RegistryInv(RegistryAfter(r, ev, s.fingerPoints))
    ensures PoisFromSamples(RegistryAfter(r, ev, s.fingerPoints), s.fingerPoints)
  {
    if ev.evType == KeyDown && s.fingerPoints != [] {
      var last := |s.fingerPoints| - 1;
      assert s.fingerPoints[last].counter == last;
      SetPoiKeepsInv(r, PoiFrom(ev.unicode, s.fingerPoints[last]));
      SetPoiFromSample(r, s.fingerPoints, ev.unicode);
    }
  }

  /** Handling an event keeps the invariant, whether or not it fails. */
  lemma EventKeepsValid(s: SampleLog, events: seq<EventRow>, eventsKeys: seq<KeyRow>, r: Registry, ev: Event, ts: int)
    requires StateValid(s, events, eventsKeys, r)
    ensures StateValid(s, events + [EventRow(ev.evType, s.kinCounter, ts)],
                       eventsKeys + KeyRowsOf(ev, s.fingerPoints, s.kinCounter, ts),
                       RegistryAfter(r, ev, s.fingerPoints))
  {
    EventKeepsLogs(events, eventsKeys, s.kinCounter, ev, s.fingerPoints, ts);
    EventKeepsRegistry(s, r, ev);
  }

  /** Handling a batch of events keeps the invariant, whether or not it fails. */
  lemma {:induction false} EventsKeepValid(s: SampleLog, st: EventState, evs: seq<Event>, ts: int)
    decreases |evs|
    requires StateValid(s, st.events, st.eventsKeys, st.registry)
    ensures var r := ApplyEvents(st, evs, s.fingerPoints, s.kinCounter, ts).0;
      StateValid(s, r.events, r.eventsKeys, r.registry)
  {
    if evs != [] {
      EventKeepsValid(s, st.events, st.eventsKeys, st.registry, evs[0], ts);
      EventsKeepValid(s, ApplyEvent(st, evs[0], s.fingerPoints, s.kinCounter, ts), evs[1..], ts);
    }
  }

  /** Sampling a frame only appends finger points. */
  lemma {:induction false} SampleFrameExtends(s: SampleLog, bodies: seq<Body>, pois: seq<PoiRow>, ts: int)
    requires WellFormedFrame(bodies)
    ensures s.fingerPoints <= SampleFrame(s, bodies, pois, ts).fingerPoints
  {
    if bodies != [] {
      SampleFrameExtends(s, bodies[..|bodies| - 1], pois, ts);
    }
  }

  /** Sampling a frame keeps the invariant. */
  lemma FrameKeepsValid(s: SampleLog, events: seq<EventRow>, eventsKeys: seq<KeyRow>, r: Registry, bodies: seq<Body>, ts: int)
    requires StateValid(s, events, eventsKeys, r) && WellFormedFrame(bodies)
    ensures StateValid(SampleFrame(s, bodies, r.positionsCurr, ts), events, eventsKeys, r)
  {
    RegistryCounts(r);
    SampleFrameKeepsValid(s, bodies, r.positionsCurr, ts);
    SampleFrameExtends(s, bodies, r.positionsCurr, ts);
  }

  class Recorder {
    var kinCounter: nat
    var done: bool
    var events: seq<EventRow>
    var eventsKeys: seq<KeyRow>
    var fullSamples: seq<JointRow>
    var handSamples: seq<JointRow>
    var fingerPoints: seq<FingerRow>
    var distances: seq<seq<Cell>>
    var positionsCurr: seq<PoiRow>
    var positionsAll: seq<PoiRow>
    var tiresCurr: seq<PoiRow>
    var tiresAll: seq<PoiRow>
    var fieldsCurr: seq<PoiRow>
    var fieldsAll: seq<PoiRow>

    ghost function Pois(): Registry
      reads this`positionsCurr, this`positionsAll, this`tiresCurr, this`tiresAll, this`fieldsCurr, this`fieldsAll
    {
      Registry(positionsCurr, positionsAll, tiresCurr, tiresAll, fieldsCurr, fieldsAll)
    }

    ghost function Samples(): SampleLog
      reads this`kinCounter, this`fullSamples, this`handSamples, this`fingerPoints, this`distances
    {
      SampleLog(kinCounter, fullSamples, handSamples, fingerPoints, distances)
    }

    ghost function EventView(): EventState
      reads this`done, this`events, this`eventsKeys
      reads this`positionsCurr, this`positionsAll, this`tiresCurr, this`tiresAll, this`fieldsCurr, this`fieldsAll
    {
      EventState(done, events, eventsKeys, Pois())
    }

    /** The sample logs are aligned with the counter, no event row is ahead
        of it, and the POI lists are what their histories leave behind. */
    ghost predicate Valid()
      reads this
    {
      StateValid(Samples(), events, eventsKeys, Pois())
    }

    constructor ()
      ensures Valid()
      ensures !done && events == [] && eventsKeys == []
      ensures Samples() == SampleLog(0, [], [], [], [])
      ensures Pois() == EmptyRegistry
    {
      kinCounter := 0;
      done := false;
      events := [];
      eventsKeys := [];
      fullSamples := [];
      handSamples := [];
      fingerPoints := [];
      distances := [];
      positionsCurr := [];
      positionsAll := [];
      tiresCurr := [];
      tiresAll := [];
      fieldsCurr := [];
      fieldsAll := [];
      EmptyRegistryInv();
    }

    /** One pass of the event branch of the main loop for one event: log it,
        stop on QUIT, and for a key-down take the POI for the pressed key from
        the last finger point. */
    method HandleEvent(ev: Event, ts: int) returns (outcome: Outcome)
      modifies this`done, this`events, this`eventsKeys
      modifies this`positionsCurr, this`positionsAll, this`tiresCurr, this`tiresAll, this`fieldsCurr, this`fieldsAll
      ensures outcome == EventOutcome(ev, fingerPoints)
      ensures events == old(events) + [EventRow(ev.evType, kinCounter, ts)]
      ensures done == (old(done) || ev.evType == Quit)
      ensures eventsKeys == old(eventsKeys) + KeyRowsOf(ev, fingerPoints, kinCounter, ts)
      ensures Pois() == RegistryAfter(old(Pois()), ev, fingerPoints)
    {
      LogEvent(ev, ts);
      if ev.evType == KeyDown && |fingerPoints| == 0 {
        // reading the last finger point of an empty list raises
        outcome := IndexError;
      } else {
        outcome := Handled;
        if ev.evType == KeyDown {
          var last := fingerPoints[|fingerPoints| - 1];
          var row := PoiFrom(ev.unicode, last);
          LogKey(KeyRow(ev.evType, ev.unicode, ev.scancode, kinCounter, ts));
          SetPoiRow(row);
        }
        if ev.evType == KeyUp {
          LogKey(KeyRow(ev.evType, "none", ev.scancode, kinCounter, ts));
        }
      }
    }

    /** The event branch of one pass of the main loop: the pending events in
        order, until a key-down finds no finger point and raises. */
    method HandleEvents(evs: seq<Event>, ts: int) returns (outcome: Outcome)
      modifies this`done, this`events, this`eventsKeys
      modifies this`positionsCurr, this`positionsAll, this`tiresCurr, this`tiresAll, this`fieldsCurr, this`fieldsAll
      ensures (EventView(), outcome) == ApplyEvents(old(EventView()), evs, fingerPoints, kinCounter, ts)
    {
      outcome := Handled;
      var i := 0;
      while i < |evs|
        invariant 0 <= i <= |evs| && outcome == Handled
        invariant ApplyEvents(old(EventView()), evs, fingerPoints, kinCounter, ts)
                  == ApplyEvents(EventView(), evs[i..], fingerPoints, kinCounter, ts)
      {
        assert evs[i..][0] == evs[i] && evs[i..][1..] == evs[i + 1..];
        ghost var before := EventView();
        outcome := HandleEvent(evs[i], ts);
        assert EventView() == ApplyEvent(before, evs[i], fingerPoints, kinCounter, ts);
        if outcome == IndexError {
          assert ApplyEvents(before, evs[i..], fingerPoints, kinCounter, ts) == (EventView(), IndexError);
          return;
        }
        i := i + 1;
      }
    }

    /** Every event gets a row in the event log; QUIT also ends the main loop. */
    method LogEvent(ev: Event, ts: int)
      modifies this`done, this`events
      ensures events == old(events) + [EventRow(ev.evType, kinCounter, ts)]
      ensures done == (old(done) || ev.evType == Quit)
    {
      if ev.evType == Quit {
        done := true;
      }
      events := events + [EventRow(ev.evType, kinCounter, ts)];
    }

    /** A row for the key log. */
    method LogKey(row: KeyRow)
      modifies this`eventsKeys
      ensures eventsKeys == old(eventsKeys) + [row]
    {
      eventsKeys := eventsKeys + [row];
    }

    /** The registry writes of a key-down for the POI row `row`. */
    method SetPoiRow(row: PoiRow)
      modifies this`positionsCurr, this`positionsAll, this`tiresCurr, this`tiresAll, this`fieldsCurr, this`fieldsAll
      ensures Pois() == SetPoi(old(Pois()), row)
    {
      if IsTireKey(row.key) {
        tiresCurr := Without(tiresCurr, row.key) + [row];
        tiresAll := tiresAll + [row];
        positionsCurr := Without(positionsCurr, row.key) + [row];
        positionsAll := positionsAll + [row];
      } else if IsFieldKey(row.key) {
        fieldsCurr := Without(fieldsCurr, row.key) + [row];
        fieldsAll := fieldsAll + [row];
        positionsCurr := Without(positionsCurr, row.key) + [row];
        positionsAll := positionsAll + [row];
      }
    }

    /** The distance row of one sample: for every current POI, in list order,
        its key, the squared wrist distance and the timestamp. */
    method CalcDistances(wrist: Pos, ts: int)
      modifies this`distances
      ensures distances == old(distances) + [DistanceRow(positionsCurr, wrist, ts)]
    {
      var row: seq<Cell> := [];
      var i := 0;
      while i < |positionsCurr|
        invariant 0 <= i <= |positionsCurr|
        invariant row == DistanceRow(positionsCurr[..i], wrist, ts)
      {
        var position := positionsCurr[i];
        var diff := SqDist(wrist, position.pos);
        row := row + [KeyCell(position.key), DistanceCell(diff), TimeCell(ts)];
        assert positionsCurr[..i + 1][..i] == positionsCurr[..i];
        i := i + 1;
      }
      assert positionsCurr[..i] == positionsCurr;
      distances := distances + [row];
    }

    /** The joint loop of one tracked body: a row for each of the 25 joints
        into the full log, and the right wrist's row also into the hand log. */
    method SampleJoints(joints: seq<Pos>, ts: int)
      requires |joints| == JointCount
      modifies this`fullSamples, this`handSamples
      ensures fullSamples == old(fullSamples) + JointRows(joints, kinCounter, ts)
      ensures handSamples == old(handSamples) + [JointRow(joints[WristRight], WristRight, kinCounter, ts)]
    {
      ghost var rows := JointRows(joints, kinCounter, ts);
      var x := 0;
      while x < JointCount
        invariant 0 <= x <= JointCount
        invariant fullSamples == old(fullSamples) + rows[..x]
        invariant handSamples == old(handSamples) + (if x > WristRight then [rows[WristRight]] else [])
      {
        var pos := joints[x];
        if x == WristRight {
          handSamples := handSamples + [JointRow(pos, x, kinCounter, ts)];
        }
        fullSamples := fullSamples + [JointRow(pos, x, kinCounter, ts)];
        assert rows[..x + 1] == rows[..x] + [rows[x]];
        x := x + 1;
      }
      assert rows[..JointCount] == rows;
    }

    /** Sampling of one tracked body: all 25 joints, the right wrist, the
        right hand tip, a new counter value and the distance row. */
    method ProcessBody(body: Body, ts: int)
      requires |body.joints| == JointCount
      modifies this`kinCounter, this`fullSamples, this`handSamples, this`fingerPoints, this`distances
      ensures Samples() == SampleBody(old(Samples()), body, positionsCurr, ts)
    {
      SampleJoints(body.joints, ts);
      fingerPoints := fingerPoints + [FingerRow(body.tipX, body.tipY, body.joints[HandTipRight], kinCounter, ts)];
      kinCounter := kinCounter + 1;
      CalcDistances(body.joints[WristRight], ts);
    }

    /** Sampling of a body frame: every tracked body in frame order; no frame
        yet received changes nothing. */
    method ProcessHandPos(frame: Option<seq<Body>>, ts: int)
      requires frame.Some? ==> WellFormedFrame(frame.value)
      modifies this`kinCounter, this`fullSamples, this`handSamples, this`fingerPoints, this`distances
      ensures frame.None? ==> Samples() == old(Samples())
      ensures frame.Some? ==> Samples() == SampleFrame(old(Samples()), frame.value, positionsCurr, ts)
    {
      if frame.None? {
        return;
      }
      var bodies := frame.value;
      var i := 0;
      while i < |bodies|
        invariant 0 <= i <= |bodies|
        invariant Samples() == SampleFrame(old(Samples()), bodies[..i], positionsCurr, ts)
      {
        assert bodies[..i + 1][..i] == bodies[..i];
        var body := bodies[i];
        if body.isTracked {
          ProcessBody(body, ts);
        }
        i := i + 1;
      }
      assert bodies[..i] == bodies;
    }
  }

  /** The 25 joint rows of the sample with counter `c`, appended to a log of
      25 * c tagged rows, keep every row tagged with its sample and joint. */
  lemma FullSamplesTagged(prev: seq<JointRow>, rows: seq<JointRow>, c: nat)
    requires |prev| == JointCount * c
    requires forall j :: 0 <= j < |prev| ==> prev[j].counter == j / JointCount && prev[j].joint == j % JointCount
    requires |rows| == JointCount
    requires forall x :: 0 <= x < JointCount ==> rows[x].counter == c && rows[x].joint == x
    ensures var all := prev + rows;
      forall j :: 0 <= j < |all| ==> all[j].counter == j / JointCount && all[j].joint == j % JointCount
  {
    var all := prev + rows;
    forall j | |prev| <= j < |all|
      ensures all[j].counter == j / JointCount && all[j].joint == j % JointCount
    {
      var x := j - JointCount * c;
      assert j == JointCount * c + x && 0 <= x < JointCount;
      assert j / JointCount == c && j % JointCount == x;
    }
  }
}
