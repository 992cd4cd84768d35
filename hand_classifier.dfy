/** The hand-gesture classifier of GestureApp.detect_gesture. */
module HandClassifier {
  import opened Types

  /** MediaPipe's hand model reports 21 landmarks. */
  const HandLandmarkCount: nat := 21

  /** Landmark ids of the five fingertips, thumb first. */
  const TipIds: seq<nat> := [4, 8, 12, 16, 20]

  /** The five "finger extended" flags, thumb first: the thumb tip (4) lies left of the
      joint below it (3); every other tip lies above the joint two below it. */
  function FingerFlags(lm: seq<Landmark>): (f: seq<bool>)
    requires |lm| >= HandLandmarkCount
    ensures |f| == 5
  {
    [ lm[4].x < lm[3].x,
      lm[8].y < lm[6].y,
      lm[12].y < lm[10].y,
      lm[16].y < lm[14].y,
      lm[20].y < lm[18].y ]
  }

  /** The number of extended fingers (the list's count of 1). */
  function CountExtended(f: seq<bool>): (n: nat)
    ensures n <= |f|
    ensures n == 0 <==> forall i :: 0 <= i < |f| ==> !f[i]
    ensures n == |f| <==> forall i :: 0 <= i < |f| ==> f[i]
  {
    if f == [] then 0
    else
      assert forall i :: 1 <= i < |f| ==> f[i] == f[1..][i - 1];
      (if f[0] then 1 else 0) + CountExtended(f[1..])
  }

  /** The count agrees with the list's count of true flags, its multiplicity in the multiset. */
  lemma {:induction false} CountExtendedIsMultiplicity(f: seq<bool>)
    ensures CountExtended(f) == multiset(f)[true]
  {
    if f != [] {
      assert f == [f[0]] + f[1..];
      CountExtendedIsMultiplicity(f[1..]);
    }
  }

  /** The ordered decision table on the finger vector. */
  function ClassifyFingers(f: seq<bool>): Classification
    requires |f| == 5
  {
    var total := CountExtended(f);
    if total == 0 then Classification(Fist, MinimizeAll)
    else if total == 5 then Classification(OpenPalm, PlayPauseMedia)
    else if total == 1 && f[1] then Classification(Point, VolumeUp)
    else if total == 2 && f[1] && f[2] then Classification(Peace, VolumeDown)
    else if f == [true, false, false, false, false] then Classification(ThumbsUp, IncreaseBrightness)
    else if f == [false, false, false, false, true] then Classification(ThumbsDown, DecreaseBrightness)
    else Classification(Fingers(total), NoAction)
  }

  /** The classification of one hand's landmarks. */
  function HandGesture(lm: seq<Landmark>): Classification
    requires |lm| >= HandLandmarkCount
  {
    ClassifyFingers(FingerFlags(lm))
  }

  /** The fingertip ids past the thumb are 8, 12, 16 and 20. */
  lemma TipIdAt(id: nat)
    requires 1 <= id < 5
    ensures TipIds[id] == 4 * id + 4
  {
  }

  /** The classifier as the source runs it: the flags are built by a loop over the fingers. */
  method DetectGesture(lm: seq<Landmark>) returns (r: Classification)
    requires |lm| >= HandLandmarkCount
    ensures r == HandGesture(lm)
  {
    var fingers := [lm[TipIds[0]].x < lm[TipIds[0] - 1].x];
    for id := 1 to 5
      invariant |fingers| == id
      invariant forall k :: 0 <= k < id ==> fingers[k] == FingerFlags(lm)[k]
    {
      TipIdAt(id);
      fingers := fingers + [lm[TipIds[id]].y < lm[TipIds[id] - 2].y];
    }
    assert fingers == FingerFlags(lm);
    r := ClassifyFingers(fingers);
  }

  /** The count of a five-flag vector, written out flag by flag. */
  lemma {:induction false} CountOfFive(f: seq<bool>)
    requires |f| == 5
    ensures CountExtended(f) == (if f[0] then 1 else 0) + (if f[1] then 1 else 0) + (if f[2] then 1 else 0)
                                + (if f[3] then 1 else 0) + (if f[4] then 1 else 0)
  {
    var f1, f2, f3, f4 := f[1..], f[2..], f[3..], f[4..];
    assert f1[1..] == f2 && f2[1..] == f3 && f3[1..] == f4 && f4[1..] == [];
    assert CountExtended(f) == (if f[0] then 1 else 0) + CountExtended(f1);
    assert CountExtended(f1) == (if f[1] then 1 else 0) + CountExtended(f2);
    assert CountExtended(f2) == (if f[2] then 1 else 0) + CountExtended(f3);
    assert CountExtended(f3) == (if f[3] then 1 else 0) + CountExtended(f4);
    assert CountExtended(f4) == (if f[4] then 1 else 0) + CountExtended([]);
  }

  /** The six finger vectors the decision table names. */
  predicate NamedPattern(f: seq<bool>) {
    || f == [false, false, false, false, false]
    || f == [true, true, true, true, true]
    || f == [false, true, false, false, false]
    || f == [false, true, true, false, false]
    || f == [true, false, false, false, false]
    || f == [false, false, false, false, true]
  }

  /** The decision table written directly on the finger vector: a named pattern
      selects its row, every other vector is "{count} Fingers" with no action. */
  function PatternTable(f: seq<bool>): Classification
    requires |f| == 5
  {
    if f == [false, false, false, false, false] then Classification(Fist, MinimizeAll)
    else if f == [true, true, true, true, true] then Classification(OpenPalm, PlayPauseMedia)
    else if f == [false, true, false, false, false] then Classification(Point, VolumeUp)
    else if f == [false, true, true, false, false] then Classification(Peace, VolumeDown)
    else if f == [true, false, false, false, false] then Classification(ThumbsUp, IncreaseBrightness)
    else if f == [false, false, false, false, true] then Classification(ThumbsDown, DecreaseBrightness)
    else Classification(Fingers(CountExtended(f)), NoAction)
  }

  /** The ordered, count-based decision table agrees with the pattern table. */
  lemma ClassifyFingersIsPatternTable(f: seq<bool>)
    requires |f| == 5
    ensures ClassifyFingers(f) == PatternTable(f)
  {
    CountOfFive(f);
    var n := CountExtended(f);
    if n == 0 {
      assert f == [false, false, false, false, false];
    } else if n == 5 {
      assert f == [true, true, true, true, true];
    } else if n == 1 && f[1] {
      assert f == [false, true, false, false, false];
    } else if n == 2 && f[1] && f[2] {
      assert f == [false, true, true, false, false];
    }
  }

  /** An action is produced exactly for the six named patterns; any other vector is
      labelled with its count, which is then between 1 and 4. */
  lemma ClassifyFingersNoAction(f: seq<bool>)
    requires |f| == 5
    ensures ClassifyFingers(f).action == NoAction <==> !NamedPattern(f)
    ensures ClassifyFingers(f).action == NoAction ==>
      ClassifyFingers(f).gesture == Fingers(CountExtended(f)) && 1 <= CountExtended(f) <= 4
  {
    ClassifyFingersIsPatternTable(f);
    CountOfFive(f);
  }

  /** Only the x of landmarks 3 and 4 and the y of landmarks 6, 8, 10, 12, 14, 16, 18
      and 20 affect the classification. */
  lemma HandGestureLocal(lm1: seq<Landmark>, lm2: seq<Landmark>)
    requires |lm1| >= HandLandmarkCount && |lm2| >= HandLandmarkCount
    requires lm1[3].x == lm2[3].x && lm1[4].x == lm2[4].x
    requires forall k :: k in {6, 8, 10, 12, 14, 16, 18, 20} ==> lm1[k].y == lm2[k].y
    ensures FingerFlags(lm1) == FingerFlags(lm2)
    ensures HandGesture(lm1) == HandGesture(lm2)
  {
  }

  /** Moving the whole hand changes neither the finger flags nor the classification. */
  lemma HandGestureTranslationInvariant(lm: seq<Landmark>, dx: real, dy: real)
    requires |lm| >= HandLandmarkCount
    ensures FingerFlags(Translate(lm, dx, dy)) == FingerFlags(lm)
    ensures HandGesture(Translate(lm, dx, dy)) == HandGesture(lm)
  {
  }
}
