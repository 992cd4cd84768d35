/** The key simulation chosen by GestureApp.perform_action for each action name. */
module ActionKeys {
  import opened Types
  import opened Debounce

  /** A single key press, or several keys held together. */
  datatype KeyStroke = Press(key: string) | Hotkey(keys: seq<string>)

  /** The keys sent for an action; None when the action name matches no branch. */
  function KeysFor(a: Action): Option<KeyStroke>
  {
    match a
    case MinimizeAll => Some(Hotkey(["win", "d"]))
    case PlayPauseMedia => Some(Press("playpause"))
    case VolumeUp => Some(Press("volumeup"))
    case VolumeDown => Some(Press("volumedown"))
    case IncreaseBrightness => Some(Hotkey(["fn", "brightnessup"]))
    case DecreaseBrightness => Some(Hotkey(["fn", "brightnessdown"]))
    case MuteVolume => Some(Press("volumemute"))
    case NoAction => None
  }

  /** Every action but "None" sends keys, and no two actions send the same keys. */
  lemma KeysForInjective(a: Action, b: Action)
    ensures KeysFor(a).None? <==> a == NoAction
    ensures KeysFor(a) == KeysFor(b) ==> a == b
  {
  }

  /** Every action the gate dispatches in a run of frames presses keys. */
  lemma DispatchedActionsHaveKeys(s: GateState, ticks: seq<Tick>)
    requires TicksWellFormed(ticks)
    ensures var log := Run(s, ticks).log;
            forall i :: 0 <= i < |log| ==> KeysFor(log[i].action).Some?
  {
    RunRecordsHaveActions(s, ticks);
  }
}
