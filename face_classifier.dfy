/** The face-gesture classifier of GestureApp.detect_face_gesture. */
module FaceClassifier {
  import opened Types

  /** The face mesh must report the landmarks up to id 386 (the right upper eyelid). */
  const FaceLandmarkCount: nat := 387

  /** Both eyelid gaps below this mean a blink (normalised frame height). */
  const BlinkThreshold: real := 0.012

  /** A lip gap above this means an open mouth (normalised frame height). */
  const MouthThreshold: real := 0.04

  function Abs(r: real): (a: real)
    ensures a >= 0.0 && (a == r || a == -r)
  {
    if r < 0.0 then -r else r
  }

  /** Blink wins over an open mouth; no gesture is None. The frame height is read by the
      source and never used, so it is a parameter that the result ignores. */
  function FaceGesture(lm: seq<Landmark>, frameHeight: nat): Option<Classification>
    requires |lm| >= FaceLandmarkCount
  {
    var leftEyeDist := Abs(lm[159].y - lm[145].y);
    var rightEyeDist := Abs(lm[386].y - lm[374].y);
    var mouthOpenDist := Abs(lm[13].y - lm[14].y);
    if leftEyeDist < BlinkThreshold && rightEyeDist < BlinkThreshold then
      Some(Classification(Blink, PlayPauseMedia))
    else if mouthOpenDist > MouthThreshold then
      Some(Classification(MouthOpen, MuteVolume))
    else
      None
  }

  /** Whether two vertical positions lie strictly closer than `bound`. */
  predicate Within(a: real, b: real, bound: real) {
    b - bound < a < b + bound
  }

  /** The three outcomes stated on the raw landmark positions: a blink exactly when both
      eyelid pairs are closer than the blink threshold, whatever the mouth does; otherwise
      an open mouth exactly when the lips are farther apart than the mouth threshold;
      otherwise nothing. */
  lemma FaceGestureCases(lm: seq<Landmark>, frameHeight: nat)
    requires |lm| >= FaceLandmarkCount
    ensures var blink := Within(lm[159].y, lm[145].y, BlinkThreshold) && Within(lm[386].y, lm[374].y, BlinkThreshold);
            var open := lm[13].y - lm[14].y > MouthThreshold || lm[14].y - lm[13].y > MouthThreshold;
            && (FaceGesture(lm, frameHeight) == Some(Classification(Blink, PlayPauseMedia)) <==> blink)
            && (FaceGesture(lm, frameHeight) == Some(Classification(MouthOpen, MuteVolume)) <==> !blink && open)
            && (FaceGesture(lm, frameHeight) == None <==> !blink && !open)
  {
  }

  /** A face gesture, when there is one, always carries a real action. */
  lemma FaceGestureHasAction(lm: seq<Landmark>, frameHeight: nat)
    requires |lm| >= FaceLandmarkCount
    ensures FaceGesture(lm, frameHeight).Some? ==> FaceGesture(lm, frameHeight).value.action != NoAction
    ensures FaceGesture(lm, frameHeight).Some? ==> FaceGesture(lm, frameHeight).value.gesture in {Blink, MouthOpen}
  {
  }

  /** The frame height never affects the result. */
  lemma FaceGestureIgnoresFrameHeight(lm: seq<Landmark>, h1: nat, h2: nat)
    requires |lm| >= FaceLandmarkCount
    ensures FaceGesture(lm, h1) == FaceGesture(lm, h2)
  {
  }

  /** Moving the whole face leaves the classification unchanged. */
  lemma FaceGestureTranslationInvariant(lm: seq<Landmark>, frameHeight: nat, dx: real, dy: real)
    requires |lm| >= FaceLandmarkCount
    ensures FaceGesture(Translate(lm, dx, dy), frameHeight) == FaceGesture(lm, frameHeight)
  {
  }
}
