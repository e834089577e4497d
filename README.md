# Playback slider: mode state machine

A Dafny model of the `Slider` widget of QKan_GanglinienHE (`slider.py`), a
horizontal slider that controls an animation's playback. Besides its position
(0 to 50) the widget keeps two fields: `mode`, one of `Pause`, `Forward` and
`Backward`, and `last_mode`, the direction to resume in when unpausing. A right
mouse click toggles the pause, a right click with exactly Control held flips the
direction (the one to resume in while paused, the current one otherwise), and
`reset` puts the widget back to "paused, will resume forward" at position 0.
After each change of mode the groove is restyled (grey, blue or red) and the
position is announced on the value-changed signal.

The project has three modules:

- `Modes` (`modes.dfy`): the three modes, Python's `None` as `Option.None`, the
  colour schemes and `StyleFor`, and the mouse buttons and keyboard modifiers.
- `Playback` (`playback.dfy`): the pair (mode, last mode) as a value, each
  transition as a function, the dispatch of a mouse release, runs of operations,
  and the lemmas: two direction clicks give back the state they started from;
  two pause toggles give a paused state back and restore a moving state's mode
  (the overwritten direction to resume in is never observable); every operation
  keeps the invariant; and the reachable states are exactly the well-formed ones.
- `SliderWidget` (`slider.dfy`): class `Slider`, whose methods assign the fields
  in place as the widget does, each proved to move its mode pair as the
  matching `Playback` function does, to restyle after the mode, to record the
  announced value, and to keep the widget invariant `Valid()`.

Both mode fields have type `Option<SliderMode>`. The constructor sets
`last_mode` to `None` before its first `set_paused`, and `set_paused` copies
`last_mode` into `mode` when resuming. So no method needs a precondition, and
the invariant `WellFormed` (mode is `Pause`, `Forward` or `Backward`; last mode
is `Forward` or `Backward`) is a proved fact rather than an assumption.

The docstring of `ctrl_click` (slider.py:76) speaks of the Control key. The
comparison at slider.py:65 demands the modifiers be Control *exactly*, so
Control together with Shift or any other modifier toggles the pause instead
(`Playback.ControlWithOtherModifierTogglesPause`).

## Model

| member | source | states |
|---|---|---|
| `Modes.StyleFor` | slider.py:97-143 | Forward is drawn blue, Backward red, and anything else (Pause, None) grey, each as an if-and-only-if; the toolkit default never comes back |
| `Playback.Flipped` | slider.py:78-81 | the flip always yields a direction: Forward becomes Backward, Backward becomes Forward, and Pause or None becomes Backward |
| `Playback.Initial` | slider.py:23-25 | construction leaves the slider paused with Forward as the direction to resume in, a well-formed state |
| `Playback.SetPaused` | slider.py:89-93 | on a well-formed state the toggle keeps the invariant and turns paused into moving and moving into paused |
| `Playback.CtrlClick` | slider.py:78-81 | the direction click never changes whether the slider is paused, and keeps the invariant |
| `Playback.Reset` | slider.py:149-150 | from any state the result is paused with Forward to resume in, a well-formed state |
| `Playback.Release` | slider.py:65-72 | a release of a button other than the right one leaves the state as it was; every release keeps the invariant |
| `Playback.Dispatch` | slider.py:65-72 | a right release with modifiers exactly {Control} is a direction click, any other right release a pause toggle, any other button neither (each an if-and-only-if) |
| `Playback.ReleaseRules` | slider.py:65-72 | the state after a release: the direction click's, the pause toggle's, or unchanged for other buttons |
| `Playback.ControlWithOtherModifierTogglesPause` | slider.py:65-70 | Control together with any other modifier is not a direction click: the release toggles the pause |
| `Playback.StyleShowsPause` | slider.py:97-143 | on a well-formed state the groove is grey exactly while paused and blue or red exactly while moving |
| `Playback.SetPausedFromMoving` | slider.py:89-93 | pausing a moving slider stores its mode as the direction to resume in and pauses it |
| `Playback.SetPausedFromPaused` | slider.py:89-90 | resuming sets the mode to the stored direction, which is never Pause or None, and keeps that stored direction |
| `Playback.SetPausedTwiceFromMoving` | slider.py:89-93 | pausing then resuming a moving slider restores its mode, and that mode overwrites the old direction to resume in |
| `Playback.LastModeUnobservedWhileMoving` | slider.py:89-93 | two states that agree on a moving mode go through the same modes under every sequence of operations, so the direction to resume in that pausing twice overwrites is never observed |
| `Playback.SetPausedTwiceFromPaused` | slider.py:89-93 | resuming then pausing any paused slider gives back the same state |
| `Playback.CtrlClickWhilePaused` | slider.py:78-79 | while paused the direction click keeps the pause and swaps the direction to resume in |
| `Playback.CtrlClickWhileMoving` | slider.py:80-81 | while moving the direction click swaps the mode between Forward and Backward and keeps the direction to resume in |
| `Playback.CtrlClickTwice` | slider.py:78-81 | two direction clicks in a row give back the starting well-formed state |
| `Playback.ResetFromAny` | slider.py:145-150 | from any state reset ends paused with Forward to resume in, the state construction leaves |
| `Playback.ApplyKeepsWellFormed` | slider.py:74-95 | pause toggle, direction click and reset each keep the invariant: mode a real mode, last mode a direction |
| `Playback.ReleaseKeepsWellFormed` | slider.py:57-72 | every mouse release keeps the invariant |
| `Playback.RunKeepsWellFormed` | slider.py:74-152 | any sequence of operations keeps the invariant |
| `Playback.ReachableAfterApply` | slider.py:74-152 | a state reachable from construction stays reachable after any further operation |
| `Playback.ReachableIsWellFormed` | slider.py:85-93 | every state reachable from construction is well-formed, so resuming never yields Pause or None |
| `Playback.WellFormedIsReachable` | slider.py:74-93 | every well-formed state is reached from construction by some sequence of operations |
| `Playback.ReachableIffWellFormed` | slider.py:74-95 | the reachable states are exactly the well-formed ones |
| `SliderWidget.Slider.constructor` | slider.py:9-25 | a new slider is valid, paused, resumes Forward, is drawn grey, sits at 0 and has announced 0 once |
| `SliderWidget.Slider.UpdateStyle` | slider.py:97-143 | the stylesheet becomes the scheme of the current mode |
| `SliderWidget.Slider.EmitValueChanged` | slider.py:95 | the current value is appended to the announced values |
| `SliderWidget.Slider.CtrlClick` | slider.py:74-83 | the mode pair moves as `Playback.CtrlClick`, the style follows the mode, the value is announced once, and validity is kept |
| `SliderWidget.Slider.SetPaused` | slider.py:85-95 | the mode pair moves as `Playback.SetPaused`, the style follows the mode, the value is announced once, and validity is kept |
| `SliderWidget.Slider.MouseReleaseEvent` | slider.py:57-72 | the mode pair moves as `Playback.Release`; a right release restyles and announces, other buttons change nothing; validity is kept |
| `SliderWidget.Slider.Reset` | slider.py:145-152 | from any state the slider ends valid, paused, resuming Forward, grey, at value 0, having announced its old value once |

## Left out

- `paintEvent` (the end labels "0x" and "50x"): toolkit painting with pixel and font metrics.
- The stylesheet texts: each is modelled only as the colour scheme it selects.
- The enumeration module `Enums` is not part of this model; only the three mode names are assumed.
- The toolkit's slider behaviour: range, single step, page step, tick interval and height settings, dragging and clamping. The position is a plain integer field that starts at the range minimum 0.
- `SliderWidget.Slider.MouseReleaseEvent`: a release of a button other than the right one goes to the toolkit's own handler, which is not modelled; the model leaves every field unchanged there, including the position.
- `SliderWidget.Slider.Reset`: `setValue(0)` is modelled as assigning 0 (which lies in the range 0..50, so clamping cannot apply); the value-changed signal the toolkit emits from `setValue` itself is not recorded.
- The signal's receivers: an emission is recorded as the announced value and nothing more.
