/** The state GestureApp keeps between camera frames and the per-frame decision logic of
    update_frame. */
module App {
  import opened Types
  import opened HandClassifier
  import opened FaceClassifier
  import opened Debounce

  class GestureApp {
    var running: bool
    var lastActionTime: real
    var prevGestures: map<Source, Gesture>
    var gestureStartTime: map<Source, real>
    /** The actions dispatched so far, one record per perform_action / log_gesture pair. */
    var log: seq<LogRecord>
    /** Where the current camera session begins in the log. */
    ghost var sessionStart: nat

    function State(): GateState
      reads this
    {
      GateState(prevGestures, lastActionTime, gestureStartTime)
    }

    /** The global cooldown holds over the records of the current session. */
    ghost predicate Valid()
      reads this
    {
      sessionStart <= |log| && CooldownRespected(State(), log[sessionStart..])
    }

    constructor ()
      ensures Valid() && !running
      ensures State() == InitialState && log == []
    {
      running := false;
      lastActionTime := 0.0;
      prevGestures := map[];
      gestureStartTime := map[];
      log := [];
      sessionStart := 0;
    }

    /** Starting the camera at clock value `now`; nothing happens when it cannot be opened. */
    method StartCamera(cameraOpened: bool, now: real)
      requires Valid()
      modifies this
      ensures Valid() && log == old(log)
      ensures sessionStart == if cameraOpened then |log| else old(sessionStart)
      ensures cameraOpened ==> running && State() == StartSession(old(State()), now)
      ensures !cameraOpened ==> running == old(running) && State() == old(State())
    {
      if !cameraOpened {
        return;
      }
      running := true;
      lastActionTime := now - Cooldown;
      sessionStart := |log|;
    }

    method StopCamera()
      requires Valid()
      modifies this
      ensures Valid() && !running && sessionStart == old(sessionStart)
      ensures State() == old(State()) && log == old(log)
    {
      running := false;
    }

    /** The gate for one detected hand, read at clock value `now`; `performed` is the
        frame's actions_performed list and `records` the frame's records so far, which the
        log ends with. */
    method GateHand(side: Handedness, c: Classification, confidence: real, now: real, performed: seq<Action>,
                    ghost earlier: seq<LogRecord>, ghost records: seq<LogRecord>)
      returns (performed': seq<Action>)
      requires log == earlier + records
      modifies this
      ensures running == old(running) && sessionStart == old(sessionStart)
      ensures var q := HandStep(Progress(old(State()), performed, records), side, c, confidence, now);
              State() == q.state && performed' == q.performed && log == earlier + q.records
    {
      performed' := performed;
      var src := Hand(side);
      if (src !in prevGestures || prevGestures[src] != c.gesture) && now - lastActionTime > Cooldown {
        if c.action != NoAction {
          if c.action !in performed {
            var duration := 0.0;
            if src in gestureStartTime {
              duration := now - gestureStartTime[src];
            }
            log := log + [LogRecord(src, c.gesture, c.action, confidence, duration, now)];
            performed' := performed + [c.action];
            lastActionTime := now;
            gestureStartTime := gestureStartTime[src := now];
          }
        }
        prevGestures := prevGestures[src := c.gesture];
      }
    }

    /** The loop over the detected hands of one frame, hand i read at clock value times[i],
        with a fresh actions_performed list. */
    method GateHands(hands: seq<HandObservation>, times: seq<real>)
      requires HandsWellFormed(hands) && |times| == |hands|
      modifies this
      ensures running == old(running) && sessionStart == old(sessionStart)
      ensures var p := HandsFold(old(State()), hands, times);
              State() == p.state && log == old(log) + p.records
    {
      ghost var s0, log0 := State(), log;
      var actionsPerformed: seq<Action> := [];
      for idx := 0 to |hands|
        invariant running == old(running) && sessionStart == old(sessionStart)
        invariant HandsWellFormed(hands[..idx])
        invariant var p := HandsFold(s0, hands[..idx], times[..idx]);
                  State() == p.state && actionsPerformed == p.performed && log == log0 + p.records
      {
        ghost var p := HandsFold(s0, hands[..idx], times[..idx]);
        HandsFoldNext(s0, hands, times, idx);
        var hand := hands[idx];
        var c := DetectGesture(hand.landmarks);
        actionsPerformed := GateHand(hand.side, c, hand.score, times[idx], actionsPerformed, log0, p.records);
      }
      assert hands[..|hands|] == hands && times[..|times|] == times;
    }

    /** The gate for the face result, read at clock value `now`; the log ends with the
        frame's records so far. */
    method GateFace(face: Option<Classification>, now: real, ghost performed: seq<Action>,
                    ghost earlier: seq<LogRecord>, ghost records: seq<LogRecord>)
      requires log == earlier + records
      modifies this
      ensures running == old(running) && sessionStart == old(sessionStart)
      ensures var q := FaceStep(Progress(old(State()), performed, records), face, now);
              State() == q.state && log == earlier + q.records
    {
      if face.Some? {
        var g, a := face.value.gesture, face.value.action;
        if (Face !in prevGestures || prevGestures[Face] != g) && now - lastActionTime > Cooldown {
          if a != NoAction {
            log := log + [LogRecord(Face, g, a, 1.0, 0.0, now)];
            prevGestures := prevGestures[Face := g];
            lastActionTime := now;
          }
        }
      }
    }

    /** One timer tick. `frame` is None when no frame could be read; handTimes[i] is the
        clock value read for hand i and faceTime the one read for the face. */
    method UpdateFrame(frame: Option<Frame>, handTimes: seq<real>, faceTime: real)
      requires Valid()
      requires frame.Some? ==> WellFormed(frame.value) && |handTimes| == |frame.value.hands|
      modifies this
      ensures Valid() && running == old(running) && sessionStart == old(sessionStart)
      ensures old(running) && frame.Some? ==>
                var p := FrameStep(old(State()), frame.value, handTimes, faceTime);
                State() == p.state && log == old(log) + p.records
      ensures !(old(running) && frame.Some?) ==> State() == old(State()) && log == old(log)
    {
      if !running || frame.None? {
        return;
      }
      var fr := frame.value;
      var faceResult: Option<Classification> := None;
      if fr.face.Some? {
        faceResult := FaceGesture(fr.face.value, fr.height);
      }
      ghost var s0, log0 := State(), log;
      GateHands(fr.hands, handTimes);
      ghost var hp := HandsFold(s0, fr.hands, handTimes);
      GateFace(faceResult, faceTime, hp.performed, log0, hp.records);
      ghost var p := FrameStep(s0, fr, handTimes, faceTime);
      assert State() == p.state && log == log0 + p.records;
      FrameKeepsCooldown(log0[sessionStart..], s0, fr, handTimes, faceTime);
      assert log[sessionStart..] == log0[sessionStart..] + p.records;
    }
  }
}
