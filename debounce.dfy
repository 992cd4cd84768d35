/** The debounce and global-cooldown gate of GestureApp.update_frame, as transition
    functions over the gate's state. */
module Debounce {
  import opened Types
  import opened HandClassifier
  import opened FaceClassifier

  /** COOLDOWN_SECONDS: the least time between two dispatched actions, from any source. */
  const Cooldown: real := 1.5

  datatype Handedness = Left | Right

  /** The keys of prev_gestures: the two hands and the face. */
  datatype Source = Hand(side: Handedness) | Face

  /** prev_gestures (a missing key is the source's None), last_action_time and
      gesture_start_time. */
  datatype GateState = GateState(
    prevGestures: map<Source, Gesture>,
    lastActionTime: real,
    gestureStartTime: map<Source, real>)

  /** One dispatched action: the row log_gesture appends after perform_action. */
  datatype LogRecord = LogRecord(
    source: Source,
    gesture: Gesture,
    action: Action,
    confidence: real,
    duration: real,
    time: real)

  /** The gate's state part-way through a frame, with the frame's actions_performed list
      and the records dispatched so far in the frame. */
  datatype Progress = Progress(state: GateState, performed: seq<Action>, records: seq<LogRecord>)

  /** The state as the application is constructed. */
  const InitialState: GateState := GateState(map[], 0.0, map[])

  /** Starting the camera moves the last action time one cooldown into the past and
      keeps the previous gestures. */
  function StartSession(s: GateState, now: real): GateState
  {
    s.(lastActionTime := now - Cooldown)
  }

  /** The test both hands and the face go through: a gesture different from the source's
      previous one, strictly more than one cooldown after the last action. */
  predicate GatePasses(s: GateState, src: Source, g: Gesture, now: real)
  {
    (src !in s.prevGestures || s.prevGestures[src] != g) && now - s.lastActionTime > Cooldown
  }

  /** One detected hand. When the gate passes, the hand's previous gesture is overwritten
      whether or not anything is dispatched; an action other than "None" that this frame
      has not dispatched yet is dispatched. */
  function HandStep(p: Progress, side: Handedness, c: Classification, confidence: real, now: real): Progress
  {
    var src := Hand(side);
    var s := p.state;
    if !GatePasses(s, src, c.gesture, now) then p
    else if c.action != NoAction && c.action !in p.performed then
      var duration := if src in s.gestureStartTime then now - s.gestureStartTime[src] else 0.0;
      Progress(
        GateState(s.prevGestures[src := c.gesture], now, s.gestureStartTime[src := now]),
        p.performed + [c.action],
        p.records + [LogRecord(src, c.gesture, c.action, confidence, duration, now)])
    else
      p.(state := s.(prevGestures := s.prevGestures[src := c.gesture]))
  }

  /** The face, after all hands. Its previous gesture and the last action time change only
      when an action is dispatched; the frame's actions_performed list is not consulted.
      The face is logged with confidence 1.0 and duration 0.0. */
  function FaceStep(p: Progress, face: Option<Classification>, now: real): Progress
  {
    if face.Some? && GatePasses(p.state, Face, face.value.gesture, now) && face.value.action != NoAction then
      var c := face.value;
      Progress(
        p.state.(prevGestures := p.state.prevGestures[Face := c.gesture], lastActionTime := now),
        p.performed,
        p.records + [LogRecord(Face, c.gesture, c.action, 1.0, 0.0, now)])
    else
      p
  }

  /** One detected hand as the landmark detector reports it. */
  datatype HandObservation = HandObservation(side: Handedness, score: real, landmarks: seq<Landmark>)

  /** What the detectors report for one camera frame. */
  datatype Frame = Frame(height: nat, face: Option<seq<Landmark>>, hands: seq<HandObservation>)

  predicate HandsWellFormed(hands: seq<HandObservation>)
  {
    forall i :: 0 <= i < |hands| ==> |hands[i].landmarks| >= HandLandmarkCount
  }

  predicate WellFormed(fr: Frame)
  {
    (fr.face.Some? ==> |fr.face.value| >= FaceLandmarkCount) && HandsWellFormed(fr.hands)
  }

  /** The hands of a frame in order, hand i read at clock value times[i]. */
  function HandsFold(s: GateState, hands: seq<HandObservation>, times: seq<real>): Progress
    requires |times| == |hands| && HandsWellFormed(hands)
    decreases |hands|
  {
    if hands == [] then Progress(s, [], [])
    else
      var n := |hands| - 1;
      var h := hands[n];
      HandStep(HandsFold(s, hands[..n], times[..n]), h.side, HandGesture(h.landmarks), h.score, times[n])
  }

  /** One more hand of the frame is one more HandStep. */
  lemma HandsFoldNext(s: GateState, hands: seq<HandObservation>, times: seq<real>, idx: nat)
    requires |times| == |hands| && HandsWellFormed(hands) && idx < |hands|
    ensures HandsWellFormed(hands[..idx]) && HandsWellFormed(hands[..idx + 1])
    ensures HandsFold(s, hands[..idx + 1], times[..idx + 1])
            == HandStep(HandsFold(s, hands[..idx], times[..idx]), hands[idx].side,
                        HandGesture(hands[idx].landmarks), hands[idx].score, times[idx])
  {
    assert hands[..idx + 1][..idx] == hands[..idx];
    assert times[..idx + 1][..idx] == times[..idx];
  }

  /** The face result of a frame: None without a face or without a face gesture. */
  function FaceResult(fr: Frame): Option<Classification>
    requires WellFormed(fr)
  {
    if fr.face.Some? then FaceGesture(fr.face.value, fr.height) else None
  }

  /** One frame: the hands, then the face at clock value faceTime. */
  function FrameStep(s: GateState, fr: Frame, handTimes: seq<real>, faceTime: real): Progress
    requires WellFormed(fr) && |handTimes| == |fr.hands|
  {
    FaceStep(HandsFold(s, fr.hands, handTimes), FaceResult(fr), faceTime)
  }

  /** One camera frame with its clock values. */
  datatype Tick = Tick(frame: Frame, handTimes: seq<real>, faceTime: real)

  predicate TicksWellFormed(ticks: seq<Tick>)
  {
    forall i :: 0 <= i < |ticks| ==> WellFormed(ticks[i].frame) && |ticks[i].handTimes| == |ticks[i].frame.hands|
  }

  /** The gate state and the dispatched records after a run of frames. */
  datatype Session = Session(state: GateState, log: seq<LogRecord>)

  function Run(s: GateState, ticks: seq<Tick>): Session
    requires TicksWellFormed(ticks)
    decreases |ticks|
  {
    if ticks == [] then Session(s, [])
    else
      var n := |ticks| - 1;
      var before := Run(s, ticks[..n]);
      var p := FrameStep(before.state, ticks[n].frame, ticks[n].handTimes, ticks[n].faceTime);
      Session(p.state, before.log + p.records)
  }

  // ---------------------------------------------------------------------------
  // What each step changes

  /** Which fields a hand observation changes, branch by branch. */
  lemma HandStepEffect(p: Progress, side: Handedness, c: Classification, confidence: real, now: real)
    ensures var q := HandStep(p, side, c, confidence, now);
            var src := Hand(side);
            var dispatched := GatePasses(p.state, src, c.gesture, now) && c.action != NoAction && c.action !in p.performed;
            && (!GatePasses(p.state, src, c.gesture, now) ==> q == p)
            && (GatePasses(p.state, src, c.gesture, now) ==> q.state.prevGestures == p.state.prevGestures[src := c.gesture])
            && (dispatched ==>
                  && q.state.lastActionTime == now
                  && q.state.gestureStartTime == p.state.gestureStartTime[src := now]
                  && q.performed == p.performed + [c.action]
                  && q.records == p.records + [LogRecord(src, c.gesture, c.action, confidence,
                       if src in p.state.gestureStartTime then now - p.state.gestureStartTime[src] else 0.0, now)])
            && (!dispatched ==>
                  && q.state.lastActionTime == p.state.lastActionTime
                  && q.state.gestureStartTime == p.state.gestureStartTime
                  && q.performed == p.performed
                  && q.records == p.records)
  {
  }

  /** Which fields a face result changes: all of them stay unless an action is dispatched. */
  lemma FaceStepEffect(p: Progress, face: Option<Classification>, now: real)
    ensures var q := FaceStep(p, face, now);
            var dispatched := face.Some? && GatePasses(p.state, Face, face.value.gesture, now) && face.value.action != NoAction;
            && q.performed == p.performed
            && q.state.gestureStartTime == p.state.gestureStartTime
            && (dispatched ==>
                  && q.state.prevGestures == p.state.prevGestures[Face := face.value.gesture]
                  && q.state.lastActionTime == now
                  && q.records == p.records + [LogRecord(Face, face.value.gesture, face.value.action, 1.0, 0.0, now)])
            && (!dispatched ==> q == p)
  {
  }

  // ---------------------------------------------------------------------------
  // Debounce: an unchanged gesture is not dispatched again

  /** A hand whose previous gesture is c's changes nothing with c, at any time; a hand
      observation that changes anything leaves that hand's previous gesture at c; and the
      other hand and the face never touch it. So after a hand observation that changed
      anything, the same gesture from the same hand is idle whatever happens in between. */
  lemma RepeatedHandGestureIsIdle(p: Progress, side: Handedness, c: Classification,
                                  confidence: real, now: real,
                                  other: Handedness, c': Classification, face: Option<Classification>)
    ensures Hand(side) in p.state.prevGestures && p.state.prevGestures[Hand(side)] == c.gesture ==>
            HandStep(p, side, c, confidence, now) == p
    ensures var q := HandStep(p, side, c, confidence, now);
            q != p ==> Hand(side) in q.state.prevGestures && q.state.prevGestures[Hand(side)] == c.gesture
    ensures other != side ==>
            var q := HandStep(p, other, c', confidence, now);
            (Hand(side) in q.state.prevGestures <==> Hand(side) in p.state.prevGestures)
            && (Hand(side) in p.state.prevGestures ==> q.state.prevGestures[Hand(side)] == p.state.prevGestures[Hand(side)])
    ensures var q := FaceStep(p, face, now);
            (Hand(side) in q.state.prevGestures <==> Hand(side) in p.state.prevGestures)
            && (Hand(side) in p.state.prevGestures ==> q.state.prevGestures[Hand(side)] == p.state.prevGestures[Hand(side)])
  {
  }

  /** After a face gesture was dispatched, the same face gesture changes nothing. */
  lemma RepeatedFaceGestureIsIdle(p: Progress, face: Option<Classification>, now: real, now': real,
                                  side: Handedness, c: Classification, confidence: real)
    ensures var q := FaceStep(p, face, now);
            q != p ==> FaceStep(q, face, now') == q
    ensures face.Some? && Face in p.state.prevGestures && p.state.prevGestures[Face] == face.value.gesture ==>
            FaceStep(p, face, now) == p
    ensures var q := HandStep(p, side, c, confidence, now);
            (Face in q.state.prevGestures <==> Face in p.state.prevGestures)
            && (Face in p.state.prevGestures ==> q.state.prevGestures[Face] == p.state.prevGestures[Face])
  {
  }

  /** A run of frames, each holding the same single hand and no face. */
  predicate SustainedHand(ticks: seq<Tick>, h: HandObservation)
  {
    forall i :: 0 <= i < |ticks| ==> ticks[i].frame.face.None? && ticks[i].frame.hands == [h]
  }

  /** The hand's previous gesture is the sustained one. */
  predicate Settled(st: GateState, h: HandObservation)
    requires |h.landmarks| >= HandLandmarkCount
  {
    Hand(h.side) in st.prevGestures && st.prevGestures[Hand(h.side)] == HandGesture(h.landmarks).gesture
  }

  /** A frame holding only hand h, with no face, is one HandStep. */
  lemma SingleHandFrame(st: GateState, t: Tick, h: HandObservation)
    requires WellFormed(t.frame) && |t.handTimes| == |t.frame.hands|
    requires t.frame.face.None? && t.frame.hands == [h]
    ensures FrameStep(st, t.frame, t.handTimes, t.faceTime)
            == HandStep(Progress(st, [], []), h.side, HandGesture(h.landmarks), h.score, t.handTimes[0])
  {
    assert t.frame.hands[..0] == [] && t.handTimes[..0] == [];
    assert HandsFold(st, t.frame.hands[..0], t.handTimes[..0]) == Progress(st, [], []);
    assert FaceResult(t.frame) == None;
  }

  /** A gesture held by one hand over any number of frames is dispatched at most once:
      until the gate first passes nothing changes, and from then on the hand is settled. */
  lemma {:induction false} SustainedHandDispatchesAtMostOnce(s: GateState, ticks: seq<Tick>, h: HandObservation)
    requires TicksWellFormed(ticks) && SustainedHand(ticks, h) && |h.landmarks| >= HandLandmarkCount
    ensures var r := Run(s, ticks);
            r == Session(s, []) || (Settled(r.state, h) && |r.log| <= 1)
    decreases |ticks|
  {
    if ticks != [] {
      var n := |ticks| - 1;
      assert TicksWellFormed(ticks[..n]) && SustainedHand(ticks[..n], h);
      SustainedHandDispatchesAtMostOnce(s, ticks[..n], h);
      var before := Run(s, ticks[..n]);
      SingleHandFrame(before.state, ticks[n], h);
      assert before.log + [] == before.log;
    }
  }

  /** A frame showing only a settled hand leaves the state alone and dispatches nothing. */
  lemma SettledFrameIsIdle(st: GateState, t: Tick, h: HandObservation)
    requires WellFormed(t.frame) && |t.handTimes| == |t.frame.hands|
    requires |h.landmarks| >= HandLandmarkCount
    requires t.frame.face.None? && t.frame.hands == [h] && Settled(st, h)
    ensures FrameStep(st, t.frame, t.handTimes, t.faceTime) == Progress(st, [], [])
  {
    SingleHandFrame(st, t, h);
    var c := HandGesture(h.landmarks);
    RepeatedHandGestureIsIdle(Progress(st, [], []), h.side, c, h.score, t.handTimes[0], h.side, c, None);
  }

  /** A run whose last frame shows only a hand already settled ends where it was before that frame. */
  lemma SettledLastFrameIsIdle(s: GateState, ticks: seq<Tick>, h: HandObservation)
    requires TicksWellFormed(ticks) && |ticks| >= 1 && |h.landmarks| >= HandLandmarkCount
    requires ticks[|ticks| - 1].frame.face.None? && ticks[|ticks| - 1].frame.hands == [h]
    requires TicksWellFormed(ticks[..|ticks| - 1]) && Settled(Run(s, ticks[..|ticks| - 1]).state, h)
    ensures Run(s, ticks) == Run(s, ticks[..|ticks| - 1])
  {
    var n := |ticks| - 1;
    var before := Run(s, ticks[..n]);
    SettledFrameIsIdle(before.state, ticks[n], h);
    assert before.log + [] == before.log;
  }

  /** Once the hand is settled, further frames of the same hand change nothing. */
  lemma {:induction false} SettledHandIsIdle(s: GateState, ticks: seq<Tick>, h: HandObservation, k: nat)
    requires TicksWellFormed(ticks) && SustainedHand(ticks, h) && |h.landmarks| >= HandLandmarkCount
    requires 1 <= k <= |ticks|
    requires TicksWellFormed(ticks[..k]) && Settled(Run(s, ticks[..k]).state, h)
    ensures Run(s, ticks) == Run(s, ticks[..k])
    decreases |ticks|
  {
    if k < |ticks| {
      var n := |ticks| - 1;
      assert TicksWellFormed(ticks[..n]);
      assert SustainedHand(ticks[..n], h);
      assert ticks[..n][..k] == ticks[..k];
      SettledHandIsIdle(s, ticks[..n], h, k);
      SettledLastFrameIsIdle(s, ticks, h);
    } else {
      assert ticks[..k] == ticks;
    }
  }

  /** The sustained-gesture scenario: when the first frame passes the gate with an action,
      that action is the one dispatch of the whole run, with duration 0.0 if the hand
      never dispatched before. */
  lemma SustainedHandDispatchesOnce(s: GateState, ticks: seq<Tick>, h: HandObservation)
    requires TicksWellFormed(ticks) && SustainedHand(ticks, h) && |h.landmarks| >= HandLandmarkCount
    requires |ticks| >= 1
    requires GatePasses(s, Hand(h.side), HandGesture(h.landmarks).gesture, ticks[0].handTimes[0])
    requires HandGesture(h.landmarks).action != NoAction
    ensures var log := Run(s, ticks).log;
            && |log| == 1
            && log[0].action == HandGesture(h.landmarks).action
            && log[0].time == ticks[0].handTimes[0]
            && (Hand(h.side) !in s.gestureStartTime ==> log[0].duration == 0.0)
  {
    assert TicksWellFormed(ticks[..1]) && ticks[..1][..0] == [];
    SingleHandFrame(s, ticks[0], h);
    assert Run(s, ticks[..1]).log == [] + FrameStep(s, ticks[0].frame, ticks[0].handTimes, ticks[0].faceTime).records;
    SettledHandIsIdle(s, ticks, h, 1);
  }

  /** A run of frames, each holding no hand and the same face landmarks. */
  predicate SustainedFace(ticks: seq<Tick>, lm: seq<Landmark>)
  {
    forall i :: 0 <= i < |ticks| ==> ticks[i].frame.hands == [] && ticks[i].frame.face == Some(lm)
  }

  /** A frame holding only the face lm, with no hand, is one FaceStep. */
  lemma FaceOnlyFrame(st: GateState, t: Tick, lm: seq<Landmark>)
    requires WellFormed(t.frame) && |t.handTimes| == |t.frame.hands|
    requires t.frame.hands == [] && t.frame.face == Some(lm)
    ensures FrameStep(st, t.frame, t.handTimes, t.faceTime)
            == FaceStep(Progress(st, [], []), FaceGesture(lm, 0), t.faceTime)
  {
    FaceGestureIgnoresFrameHeight(lm, t.frame.height, 0);
  }

  /** A face gesture held with no hands over any number of frames (a held blink, say) is
      dispatched at most once: until it is first dispatched nothing changes, and from then
      on the face's previous gesture is the held one. */
  lemma {:induction false} SustainedFaceDispatchesAtMostOnce(s: GateState, ticks: seq<Tick>, lm: seq<Landmark>)
    requires TicksWellFormed(ticks) && SustainedFace(ticks, lm) && |lm| >= FaceLandmarkCount
    ensures var r := Run(s, ticks);
            r == Session(s, [])
            || (FaceGesture(lm, 0).Some? && Face in r.state.prevGestures
                && r.state.prevGestures[Face] == FaceGesture(lm, 0).value.gesture && |r.log| == 1)
    decreases |ticks|
  {
    if ticks != [] {
      var n := |ticks| - 1;
      assert TicksWellFormed(ticks[..n]) && SustainedFace(ticks[..n], lm);
      SustainedFaceDispatchesAtMostOnce(s, ticks[..n], lm);
      var before := Run(s, ticks[..n]);
      FaceOnlyFrame(before.state, ticks[n], lm);
      assert before.log + [] == before.log;
    }
  }

  /** At session start the cooldown has just run out: any later moment passes it. */
  lemma ReadyAtSessionStart(s: GateState, start: real, src: Source, g: Gesture, now: real)
    requires now > start
    requires src !in s.prevGestures || s.prevGestures[src] != g
    ensures GatePasses(StartSession(s, start), src, g, now)
  {
  }

  // ---------------------------------------------------------------------------
  // actions_performed: within a frame no action is dispatched twice by the hands

  /** The frame's actions_performed list is exactly the actions of the hand records, with
      no repeats and never "None". */
  predicate PerformedMatchesRecords(p: Progress)
  {
    && |p.performed| == |p.records|
    && (forall i :: 0 <= i < |p.records| ==> p.performed[i] == p.records[i].action && p.records[i].source.Hand?)
    && (forall i, j :: 0 <= i < j < |p.performed| ==> p.performed[i] != p.performed[j])
    && NoAction !in p.performed
  }

  lemma HandStepPerformed(p: Progress, side: Handedness, c: Classification, confidence: real, now: real)
    requires PerformedMatchesRecords(p)
    ensures PerformedMatchesRecords(HandStep(p, side, c, confidence, now))
  {
  }

  lemma {:induction false} HandsFoldPerformed(s: GateState, hands: seq<HandObservation>, times: seq<real>)
    requires |times| == |hands| && HandsWellFormed(hands)
    ensures PerformedMatchesRecords(HandsFold(s, hands, times))
    decreases |hands|
  {
    if hands != [] {
      var n := |hands| - 1;
      assert HandsWellFormed(hands[..n]);
      HandsFoldPerformed(s, hands[..n], times[..n]);
      var h := hands[n];
      HandStepPerformed(HandsFold(s, hands[..n], times[..n]), h.side, HandGesture(h.landmarks), h.score, times[n]);
    }
  }

  /** Every record in `records` carries an action other than "None". */
  predicate AllDispatched(records: seq<LogRecord>)
  {
    forall i :: 0 <= i < |records| ==> records[i].action != NoAction
  }

  /** Every record one frame dispatches carries an action other than "None". */
  lemma FrameRecordsHaveActions(s: GateState, fr: Frame, handTimes: seq<real>, faceTime: real)
    requires WellFormed(fr) && |handTimes| == |fr.hands|
    ensures AllDispatched(FrameStep(s, fr, handTimes, faceTime).records)
  {
    var hp := HandsFold(s, fr.hands, handTimes);
    HandsFoldPerformed(s, fr.hands, handTimes);
    assert forall i :: 0 <= i < |hp.records| ==> hp.records[i].action == hp.performed[i];
    FaceStepEffect(hp, FaceResult(fr), faceTime);
  }

  /** Every record a run dispatches carries an action other than "None". */
  lemma {:induction false} RunRecordsHaveActions(s: GateState, ticks: seq<Tick>)
    requires TicksWellFormed(ticks)
    ensures AllDispatched(Run(s, ticks).log)
    decreases |ticks|
  {
    if ticks != [] {
      var n := |ticks| - 1;
      assert TicksWellFormed(ticks[..n]);
      RunRecordsHaveActions(s, ticks[..n]);
      var before := Run(s, ticks[..n]);
      FrameRecordsHaveActions(before.state, ticks[n].frame, ticks[n].handTimes, ticks[n].faceTime);
      var recs := FrameStep(before.state, ticks[n].frame, ticks[n].handTimes, ticks[n].faceTime).records;
      assert Run(s, ticks).log == before.log + recs;
      AppendDispatched(before.log, recs);
    }
  }

  lemma AppendDispatched(a: seq<LogRecord>, b: seq<LogRecord>)
    requires AllDispatched(a) && AllDispatched(b)
    ensures AllDispatched(a + b)
  {
    forall i | 0 <= i < |a + b| ensures (a + b)[i].action != NoAction {
      if i < |a| { assert (a + b)[i] == a[i]; } else { assert (a + b)[i] == b[i - |a|]; }
    }
  }

  // ---------------------------------------------------------------------------
  // The global cooldown

  /** Every record lies at or before the last action time, and any two records are more
      than one cooldown apart. */
  predicate CooldownRespected(s: GateState, log: seq<LogRecord>)
  {
    && (forall i :: 0 <= i < |log| ==> log[i].time <= s.lastActionTime)
    && (forall i, j :: 0 <= i < j < |log| ==> log[j].time - log[i].time > Cooldown)
  }

  /** Appending a record that passed the cooldown test keeps the invariant. */
  lemma DispatchKeepsCooldown(s: GateState, log: seq<LogRecord>, s': GateState, r: LogRecord)
    requires CooldownRespected(s, log)
    requires r.time - s.lastActionTime > Cooldown && s'.lastActionTime == r.time
    ensures CooldownRespected(s', log + [r])
  {
    var log' := log + [r];
    forall i, j | 0 <= i < j < |log'| ensures log'[j].time - log'[i].time > Cooldown {
      if j == |log| {
        assert log'[i] == log[i];
      }
    }
  }

  lemma HandStepKeepsCooldown(log: seq<LogRecord>, p: Progress, side: Handedness, c: Classification,
                              confidence: real, now: real)
    requires CooldownRespected(p.state, log + p.records)
    ensures var q := HandStep(p, side, c, confidence, now);
            CooldownRespected(q.state, log + q.records)
  {
    var q := HandStep(p, side, c, confidence, now);
    if q.records != p.records {
      assert log + q.records == (log + p.records) + [q.records[|p.records|]];
      DispatchKeepsCooldown(p.state, log + p.records, q.state, q.records[|p.records|]);
    }
  }

  lemma FaceStepKeepsCooldown(log: seq<LogRecord>, p: Progress, face: Option<Classification>, now: real)
    requires CooldownRespected(p.state, log + p.records)
    ensures var q := FaceStep(p, face, now);
            CooldownRespected(q.state, log + q.records)
  {
    var q := FaceStep(p, face, now);
    if q != p {
      assert log + q.records == (log + p.records) + [q.records[|p.records|]];
      DispatchKeepsCooldown(p.state, log + p.records, q.state, q.records[|p.records|]);
    }
  }

  /** The hands of a frame keep the cooldown invariant over the whole history. */
  lemma {:induction false} HandsFoldKeepsCooldown(log: seq<LogRecord>, s: GateState,
                                                  hands: seq<HandObservation>, times: seq<real>)
    requires |times| == |hands| && HandsWellFormed(hands)
    requires CooldownRespected(s, log)
    ensures var r := HandsFold(s, hands, times);
            CooldownRespected(r.state, log + r.records)
    decreases |hands|
  {
    if hands == [] {
      assert log + [] == log;
    } else {
      var n := |hands| - 1;
      assert HandsWellFormed(hands[..n]);
      HandsFoldKeepsCooldown(log, s, hands[..n], times[..n]);
      var h := hands[n];
      HandStepKeepsCooldown(log, HandsFold(s, hands[..n], times[..n]), h.side, HandGesture(h.landmarks), h.score, times[n]);
    }
  }

  /** A whole frame keeps the cooldown invariant over the whole history. */
  lemma FrameKeepsCooldown(log: seq<LogRecord>, s: GateState, fr: Frame, handTimes: seq<real>, faceTime: real)
    requires WellFormed(fr) && |handTimes| == |fr.hands|
    requires CooldownRespected(s, log)
    ensures var r := FrameStep(s, fr, handTimes, faceTime);
            CooldownRespected(r.state, log + r.records)
  {
    HandsFoldKeepsCooldown(log, s, fr.hands, handTimes);
    FaceStepKeepsCooldown(log, HandsFold(s, fr.hands, handTimes), FaceResult(fr), faceTime);
  }

  /** A run of frames keeps the cooldown invariant. */
  lemma {:induction false} RunKeepsCooldown(s: GateState, ticks: seq<Tick>)
    requires TicksWellFormed(ticks)
    requires CooldownRespected(s, [])
    ensures CooldownRespected(Run(s, ticks).state, Run(s, ticks).log)
    decreases |ticks|
  {
    if ticks != [] {
      var n := |ticks| - 1;
      assert TicksWellFormed(ticks[..n]);
      RunKeepsCooldown(s, ticks[..n]);
      var before := Run(s, ticks[..n]);
      FrameKeepsCooldown(before.log, before.state, ticks[n].frame, ticks[n].handTimes, ticks[n].faceTime);
    }
  }

  /** In a session, whatever the sources and whatever the clock does, any two dispatched
      actions are more than one cooldown apart. */
  lemma SessionDispatchesSpaced(s: GateState, start: real, ticks: seq<Tick>)
    requires TicksWellFormed(ticks)
    ensures var log := Run(StartSession(s, start), ticks).log;
            forall i, j :: 0 <= i < j < |log| ==> log[j].time - log[i].time > Cooldown
  {
    RunKeepsCooldown(StartSession(s, start), ticks);
  }

  /** Every record carries a clock value between lo and hi. */
  predicate RecordsWithin(records: seq<LogRecord>, lo: real, hi: real)
  {
    forall i :: 0 <= i < |records| ==> lo <= records[i].time <= hi
  }

  lemma HandStepTimes(p: Progress, side: Handedness, c: Classification, confidence: real, now: real, lo: real, hi: real)
    requires RecordsWithin(p.records, lo, hi) && lo <= now <= hi
    ensures RecordsWithin(HandStep(p, side, c, confidence, now).records, lo, hi)
  {
  }

  /** Every record of a frame carries one of the frame's clock values, so lies in any
      interval that holds them all. */
  lemma {:induction false} HandsFoldTimes(s: GateState, hands: seq<HandObservation>, times: seq<real>, lo: real, hi: real)
    requires |times| == |hands| && HandsWellFormed(hands)
    requires forall k :: 0 <= k < |times| ==> lo <= times[k] <= hi
    ensures RecordsWithin(HandsFold(s, hands, times).records, lo, hi)
    decreases |hands|
  {
    if hands != [] {
      var n := |hands| - 1;
      assert HandsWellFormed(hands[..n]);
      HandsFoldTimes(s, hands[..n], times[..n], lo, hi);
      var h := hands[n];
      HandStepTimes(HandsFold(s, hands[..n], times[..n]), h.side, HandGesture(h.landmarks), h.score, times[n], lo, hi);
    }
  }

  lemma FrameTimes(s: GateState, fr: Frame, handTimes: seq<real>, faceTime: real, lo: real, hi: real)
    requires WellFormed(fr) && |handTimes| == |fr.hands|
    requires forall k :: 0 <= k < |handTimes| ==> lo <= handTimes[k] <= hi
    requires lo <= faceTime <= hi
    ensures RecordsWithin(FrameStep(s, fr, handTimes, faceTime).records, lo, hi)
  {
    HandsFoldTimes(s, fr.hands, handTimes, lo, hi);
  }

  /** The first two records of a log that keeps the cooldown, in terms of a window
      holding all its clock values. */
  lemma FirstTwoRecords(s: GateState, log: seq<LogRecord>, lo: real, hi: real)
    requires CooldownRespected(s, log) && RecordsWithin(log, lo, hi)
    ensures |log| >= 2 ==> log[1].time - log[0].time > Cooldown && lo <= log[0].time && log[1].time <= hi
  {
  }

  /** A frame whose clock values lie within one cooldown of each other dispatches at most
      one action, from whichever source. */
  lemma AtMostOneDispatchPerFrame(s: GateState, fr: Frame, handTimes: seq<real>, faceTime: real, lo: real)
    requires WellFormed(fr) && |handTimes| == |fr.hands|
    requires forall k :: 0 <= k < |handTimes| ==> lo <= handTimes[k] <= lo + Cooldown
    requires lo <= faceTime <= lo + Cooldown
    ensures |FrameStep(s, fr, handTimes, faceTime).records| <= 1
  {
    var r := FrameStep(s, fr, handTimes, faceTime);
    FrameKeepsCooldown([], s, fr, handTimes, faceTime);
    FrameTimes(s, fr, handTimes, faceTime, lo, lo + Cooldown);
    assert [] + r.records == r.records;
    FirstTwoRecords(r.state, r.records, lo, lo + Cooldown);
  }
}
