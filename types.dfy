/** Values shared by the classifiers and the debounce gate. */
module Types {

  datatype Option<T> = None | Some(value: T)

  /** A landmark position as the landmark detector reports it, normalised to the frame. */
  datatype Landmark = Landmark(x: real, y: real)

  /** The gesture labels the classifiers produce (the emoji decorations are dropped). */
  datatype Gesture =
    | Fist
    | OpenPalm
    | Point
    | Peace
    | ThumbsUp
    | ThumbsDown
    | Fingers(count: nat)   // the catch-all label "{count} Fingers"
    | Blink
    | MouthOpen

  /** The action names; NoAction is the string "None" the hand classifier returns. */
  datatype Action =
    | MinimizeAll
    | PlayPauseMedia
    | VolumeUp
    | VolumeDown
    | IncreaseBrightness
    | DecreaseBrightness
    | MuteVolume
    | NoAction

  /** A (label, action) pair as returned by the classifiers. */
  datatype Classification = Classification(gesture: Gesture, action: Action)

  /** Every landmark moved by the same offset. */
  function Translate(lm: seq<Landmark>, dx: real, dy: real): (t: seq<Landmark>)
    ensures |t| == |lm|
    ensures forall i :: 0 <= i < |lm| ==> t[i] == Landmark(lm[i].x + dx, lm[i].y + dy)
  {
    seq(|lm|, i requires 0 <= i < |lm| => Landmark(lm[i].x + dx, lm[i].y + dy))
  }
}
