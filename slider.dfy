/**
  The slider widget itself: an object whose mode fields its event handlers
  update in place, restyling the groove and announcing its value after each
  change of mode.
 */
module SliderWidget {
  import opened Modes
  import Playback

  /** The range the widget is given when constructed. */
  const Minimum: int := 0
  const Maximum: int := 50

  class Slider {
    var mode: Option<SliderMode>
    var lastMode: Option<SliderMode>
    /** The colour scheme of the current stylesheet. */
    var style: Scheme
    /** The slider position. */
    var value: int
    /** The values announced on the value-changed signal, oldest first. */
    var emitted: seq<int>

    /** The two mode fields as a value of the state machine. */
    function State(): Playback.State
      reads this
    {
      Playback.State(mode, lastMode)
    }

    /** The widget invariant: a well-formed mode pair, drawn in the scheme of its mode, with a value in range. */
    ghost predicate Valid()
      reads this
    {
      Playback.WellFormed(State()) && style == StyleFor(mode) && Minimum <= value <= Maximum
    }

    /** A new slider is paused, will resume forward, is drawn grey and sits at the start of its range. */
    constructor ()
      ensures Valid()
      ensures State() == Playback.Initial()
      ensures mode == Some(Pause) && lastMode == Some(Forward)
      ensures style == Grey && value == Minimum && emitted == [Minimum]
    {
      mode := Some(Forward);
      lastMode := None;
      style := ToolkitDefault;
      value := Minimum;
      emitted := [];
      new;
      SetPaused();
    }

    /** Restyles the groove after the current mode. */
    method UpdateStyle()
      modifies this`style
      ensures style == StyleFor(mode)
    {
      if mode == Some(Forward) {
        style := Blue;
      } else if mode == Some(Backward) {
        style := Red;
      } else {
        style := Grey;
      }
    }

    /** Announces the current value on the value-changed signal. */
    method EmitValueChanged()
      modifies this`emitted
      ensures emitted == old(emitted) + [value]
    {
      emitted := emitted + [value];
    }

    /** A right click with exactly Control held: flips the direction, then restyles and announces. */
    method CtrlClick()
      modifies this`mode, this`lastMode, this`style, this`emitted
      ensures State() == Playback.CtrlClick(old(State()))
      ensures style == StyleFor(mode)
      ensures emitted == old(emitted) + [value]
      ensures old(Valid()) ==> Valid()
    {
      if mode == Some(Pause) {
        lastMode := if lastMode == Some(Backward) then Some(Forward) else Some(Backward);
      } else {
        mode := if mode == Some(Backward) then Some(Forward) else Some(Backward);
      }
      UpdateStyle();
      EmitValueChanged();
      if old(Playback.WellFormed(State())) {
        Playback.ApplyKeepsWellFormed(old(State()), Playback.CtrlClickOp);
      }
    }

    /** Pauses a moving slider, remembering its mode, or resumes a paused one; then restyles and announces. */
    method SetPaused()
      modifies this`mode, this`lastMode, this`style, this`emitted
      ensures State() == Playback.SetPaused(old(State()))
      ensures style == StyleFor(mode)
      ensures emitted == old(emitted) + [value]
      ensures old(Valid()) ==> Valid()
    {
      if mode == Some(Pause) {
        mode := lastMode;
      } else {
        lastMode := mode;
        mode := Some(Pause);
      }
      UpdateStyle();
      EmitValueChanged();
      if old(Playback.WellFormed(State())) {
        Playback.ApplyKeepsWellFormed(old(State()), Playback.SetPausedOp);
      }
    }

    /**
      A mouse release: a right click with exactly Control held flips the direction,
      any other right click toggles the pause, and other buttons change no mode
      (they are handed to the toolkit's own handler).
     */
    method MouseReleaseEvent(button: MouseButton, modifiers: set<Modifier>)
      modifies this`mode, this`lastMode, this`style, this`emitted
      ensures State() == Playback.Release(old(State()), button, modifiers)
      ensures button == RightButton ==> style == StyleFor(mode) && emitted == old(emitted) + [value]
      ensures button != RightButton ==> style == old(style) && emitted == old(emitted)
      ensures old(Valid()) ==> Valid()
    {
      var ctrl := modifiers == {ControlModifier};
      if button == RightButton {
        if ctrl {
          CtrlClick();
        } else {
          SetPaused();
        }
      }
    }

    /** Puts the slider back to how construction leaves it, from any state, and moves it to 0. */
    method Reset()
      modifies this
      ensures Valid()
      ensures State() == Playback.Reset(old(State())) == Playback.Initial()
      ensures mode == Some(Pause) && lastMode == Some(Forward)
      ensures style == Grey && value == 0
      ensures emitted == old(emitted) + [old(value)]
    {
      mode := Some(Forward);
      SetPaused();
      UpdateStyle();
      value := 0;
    }
  }
}
