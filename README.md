# Gesture Control Pro: gesture classification and dispatch gate

Gesture Control Pro watches a webcam, and MediaPipe reports landmarks for up to two
hands and one face in every frame. The application maps these landmarks to operating-system
key presses: media play/pause, volume and brightness keys, and show-desktop. This project
models the rule logic of `main.py` in Dafny and proves properties of it:

- **Hand classifier** (`GestureApp.detect_gesture`, module `HandClassifier`). Five
  "finger extended" flags come from strict comparisons between a fingertip and a lower
  joint. An ordered decision table on the flags and their count then gives a
  (gesture, action) pair.
- **Face classifier** (`GestureApp.detect_face_gesture`, module `FaceClassifier`). The
  eyelid and lip gaps are compared against the thresholds 0.012 and 0.04. A blink wins over
  an open mouth.
- **Key lookup** (`GestureApp.perform_action`, module `ActionKeys`). Each action name maps
  to the keys it presses.
- **Debounce and global-cooldown gate** (the decision logic of `GestureApp.update_frame`).
  Module `Debounce` states it as pure transition functions over the gate state
  (`prev_gestures`, `last_action_time`, `gesture_start_time`, and the frame's
  `actions_performed` list). Module `App` has the class `GestureApp` with the same fields.
  Its methods update them in place and are proved equal to those transition functions. The
  class invariant `Valid()` is the global cooldown over the current camera session: any two
  actions dispatched in a session are more than `COOLDOWN_SECONDS` = 1.5 s apart.

The model's conventions:
- Coordinates and clock values are `real`s.
- Each `time.time()` call of a frame is a parameter: one clock value per hand and one for
  the face.
- A dispatched action (the `perform_action` call and the `log_gesture` row that follow it)
  is a `LogRecord` appended to the `log` field.
- A key missing from the `prev_gestures` map stands for the source's `None`.
- The finger flags are `bool`s where the source appends the integers 1 and 0.

Three behaviours of the code that the model keeps as written:
- Session start. `start_camera` (main.py:87-97) only moves `last_action_time` to one
  cooldown before the start. It does not reset `prev_gestures` or `gesture_start_time`.
  So the cooldown invariant is stated per session: a dispatch just before a stop and one
  just after the next start can be closer than 1.5 s.
- Hand gesture update. A hand's previous gesture is overwritten whenever the
  "different gesture and cooldown elapsed" test passes (main.py:152-163), even when the
  action is "None" or was already dispatched in this frame. The face's previous gesture
  changes only on a dispatch (main.py:172-177).
- Per-frame deduplication. Only the hands consult `actions_performed`; the face does not.
  Under the global cooldown this only matters for a frame that takes longer than 1.5 s.

## Model

| member | source | states |
|---|---|---|
| HandClassifier.CountExtended | main.py:210 | the finger count is at most the number of flags; it is 0 exactly when no finger is extended and equals the number of flags exactly when all are |
| HandClassifier.CountExtendedIsMultiplicity | main.py:210 | the count is the list's count of extended flags (the multiplicity of `true` in the flags) |
| HandClassifier.DetectGesture | main.py:203-224 | the loop that appends one flag per finger builds exactly the five flags (thumb by x of landmark 4 against 3, fingers by y of tips 8/12/16/20 against 6/10/14/18), and the result is the decision table applied to them |
| HandClassifier.ClassifyFingersIsPatternTable | main.py:210-224 | the ordered, count-based table gives Fist/Minimize All for no finger, Open Palm/Play-Pause for all five, Point/Volume Up for the index alone, Peace/Volume Down for index and middle alone, Thumbs Up/Increase Brightness for the thumb alone, Thumbs Down/Decrease Brightness for the pinky alone |
| HandClassifier.ClassifyFingersNoAction | main.py:210-224 | the action is "None" exactly when the flags are none of the six named patterns, and then the label is "{count} Fingers" with a count from 1 to 4 |
| HandClassifier.HandGestureLocal | main.py:204-209 | two hands that agree on the x of landmarks 3 and 4 and the y of landmarks 6-20 (even ids) get the same flags and the same classification: no other landmark matters |
| HandClassifier.HandGestureTranslationInvariant | main.py:205-224 | moving every landmark by the same offset changes neither the flags nor the classification |
| FaceClassifier.FaceGestureCases | main.py:229-244 | Blink/Play-Pause exactly when both eyelid pairs (159/145, 386/374) are closer than 0.012, whatever the mouth does; otherwise Mouth Open/Mute Volume exactly when the lips (13/14) are farther apart than 0.04; otherwise no gesture |
| FaceClassifier.FaceGestureHasAction | main.py:240-244 | a face gesture, when there is one, is Blink or Mouth Open and carries an action other than "None" |
| FaceClassifier.FaceGestureIgnoresFrameHeight | main.py:226-228 | the frame height read from the frame shape never affects the result |
| FaceClassifier.FaceGestureTranslationInvariant | main.py:235-244 | moving the whole face by the same offset leaves the result unchanged |
| ActionKeys.KeysForInjective | main.py:246-261 | every action except "None" presses keys, "None" presses none, and no two actions press the same keys |
| ActionKeys.DispatchedActionsHaveKeys | main.py:246-261 | every action a run dispatches presses at least one key |
| Debounce.HandStepEffect | main.py:151-163 | a hand whose gesture equals its previous one, or that comes within the cooldown, changes nothing; otherwise its previous gesture becomes the new one; it dispatches exactly when the action is not "None" and not yet in the frame's list, and then the last action time and its start time become now, the action joins the list and the record's duration is the time since that hand's previous dispatch, or 0.0 for its first |
| Debounce.FaceStepEffect | main.py:167-178 | the face never touches the start times or the frame's action list; unless it dispatches it changes nothing, and when it dispatches its previous gesture and the last action time are updated and it is logged with confidence 1.0 and duration 0.0 |
| Debounce.RepeatedHandGestureIsIdle | main.py:152-177 | once a hand's previous gesture equals its current gesture, that hand's step changes nothing at any time; a step of that hand that changes anything leaves the gesture as its previous gesture; and the other hand's step and the face step never touch it, so the same gesture stays idle whatever happens in between |
| Debounce.RepeatedFaceGestureIsIdle | main.py:152-177 | once the face's previous gesture equals the current face gesture, the face step changes nothing at any clock value (in particular right after it was dispatched), and no hand step ever touches the face's previous gesture, so the same face gesture stays idle in every later frame |
| Debounce.SustainedHandDispatchesAtMostOnce | main.py:151-163 | over any run of frames showing one hand with the same gesture and no face, either nothing changes at all or the hand's previous gesture is that gesture and at most one action was dispatched |
| Debounce.SettledHandIsIdle | main.py:152 | once the hand's previous gesture is the sustained gesture, every further frame of that hand leaves the state and the log as they are |
| Debounce.SustainedHandDispatchesOnce | main.py:151-163 | when the first frame of a sustained gesture passes the gate with an action, that action at that frame's time is the only dispatch of the run, with duration 0.0 if the hand never dispatched before |
| Debounce.SustainedFaceDispatchesAtMostOnce | main.py:167-178 | over any run of frames showing the same face landmarks and no hand, either nothing changes at all or the face gesture is a named one, it is the face's previous gesture, and exactly one action was dispatched |
| Debounce.ReadyAtSessionStart | main.py:96 | after a session starts at time t, any gesture different from its source's previous one passes the cooldown at every time after t |
| Debounce.HandsFoldPerformed | main.py:133-163 | within a frame the hands never dispatch the same action twice, never "None", and the frame's actions_performed list is exactly the actions of the hand records in order |
| Debounce.FrameRecordsHaveActions | main.py:153-177 | every record one frame logs carries an action other than "None" |
| Debounce.RunRecordsHaveActions | main.py:153-177 | every record of a whole run's log carries an action other than "None" |
| Debounce.DispatchKeepsCooldown | main.py:152-161 | a record that passed the cooldown test, with the last action time set to its time, keeps every pair of records more than 1.5 s apart |
| Debounce.HandsFoldKeepsCooldown | main.py:135-163 | the hands of a frame keep the global cooldown invariant over the whole history |
| Debounce.FrameKeepsCooldown | main.py:135-178 | a whole frame (hands, then face) keeps the global cooldown invariant |
| Debounce.RunKeepsCooldown | main.py:111-178 | any run of frames keeps the global cooldown invariant |
| Debounce.SessionDispatchesSpaced | main.py:96 | in a session started at any time, any two dispatched actions, from any sources, are more than 1.5 s apart, whatever the clock values |
| Debounce.AtMostOneDispatchPerFrame | main.py:151-177 | a frame whose clock values lie within 1.5 s of each other dispatches at most one action in all |
| App.GestureApp.constructor | main.py:75-79 | the application starts stopped, with last action time 0, no previous gestures, no start times and an empty log |
| App.GestureApp.StartCamera | main.py:87-97 | if the camera opens, the application runs and the last action time becomes one cooldown before now, the rest kept, and the session starts at the current end of the log; if not, nothing changes |
| App.GestureApp.StopCamera | main.py:99-101 | the application stops, the gate state, the log and the session's start kept |
| App.GestureApp.GateHand | main.py:151-163 | the in-place gate for one hand equals the hand transition on the current state, the frame's list and the log |
| App.GestureApp.GateHands | main.py:133-165 | the loop over the detected hands leaves the state and the log as the hand transitions applied in order |
| App.GestureApp.GateFace | main.py:167-178 | the in-place gate for the face equals the face transition |
| App.GestureApp.UpdateFrame | main.py:111-179 | a tick that is not running or reads no frame changes nothing; otherwise the state and the log are those of the frame transition; the session's start in the log is unchanged and the global cooldown over the records since the session started is kept |

## Left out

- The Qt window, buttons, labels, the 30 ms `QTimer` loop and the pixmap rendering
  (main.py:19-64, 181-201) are user interface. The head-up text and the cooldown countdown
  text are left out with them.
- The OpenCV capture, flip, colour conversion and overlay drawing (main.py:87-121, 137-149,
  168-170) are I/O and rendering. Whether the camera opens is the `cameraOpened`
  parameter of `StartCamera`. A frame that cannot be read is `None`. The 0.2 s sleep is
  left out.
- The MediaPipe hand and face-mesh inference (main.py:66-70, 121, 131) is an external
  model. Its output is given as landmark sequences of at least 21 points per hand and 387
  for the face. Hands are labelled Left or Right, MediaPipe's two labels.
- The `pyautogui` calls and the exceptions they swallow (main.py:246-263) are foreign
  calls. The keys are modelled as a lookup, and a dispatch is a record in the log. A
  failing key press changes no state of the application.
- The CSV log file (main.py:81-85, 265-273): creating it, writing the header, formatting
  the `datetime` timestamp and swallowing write errors are file I/O. Each row is a
  `LogRecord`. `LogRecord.time` is the `time.time()` value that the gate tested
  (main.py:151, 171). It is not the CSV Timestamp column: log_gesture reads that separately
  with `datetime.now()` (main.py:266), at one-second resolution, after perform_action has run.
  `SessionDispatchesSpaced` is about `LogRecord.time`, not about that column.
- Floating-point rounding is left out: durations and confidences are rounded to two
  decimals, and coordinates and clock values are `real`s.
- The emoji in the labels are left out; labels are datatype constructors.
- Debounce.AtMostOneDispatchPerFrame: it assumes that a frame's clock values span at most
  1.5 s. main.py puts no bound on the time between a frame's clock reads, and
  `perform_action` and `log_gesture` run between the reads of two hands. So a frame
  whose reads span more than 1.5 s can dispatch twice.
- Pressing Start while already running cannot happen, because the button is disabled.
  The model lets a second successful `StartCamera` start a new session.
