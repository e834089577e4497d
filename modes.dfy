/**
  The values the playback slider works with: the three playback modes, the
  colour schemes its groove is drawn in, and the mouse input it reacts to.
 */
module Modes {

  /** The three playback modes of the slider. */
  datatype SliderMode = Pause | Forward | Backward

  /** Python's `None` next to a value; the mode fields of the widget can hold it. */
  datatype Option<T> = None | Some(value: T)

  /** A mode slot holds a playback direction: `Forward` or `Backward`, never `Pause` or `None`. */
  predicate IsDirection(m: Option<SliderMode>) {
    m == Some(Forward) || m == Some(Backward)
  }

  /**
    The stylesheet the widget carries. `ToolkitDefault` is the toolkit's own look,
    which a freshly created widget has before its first restyling; the other three
    are the groove gradients chosen per mode.
   */
  datatype Scheme = ToolkitDefault | Grey | Blue | Red

  /** The colour scheme for a mode: blue forward, red backward, grey for everything else. */
  function StyleFor(mode: Option<SliderMode>): (c: Scheme)
    ensures c == Blue <==> mode == Some(Forward)
    ensures c == Red <==> mode == Some(Backward)
    ensures c == Grey <==> !IsDirection(mode)
    ensures c != ToolkitDefault
  {
    if mode == Some(Forward) then Blue
    else if mode == Some(Backward) then Red
    else Grey
  }

  /** The mouse buttons a release event can report. */
  datatype MouseButton = LeftButton | RightButton | MiddleButton | OtherButton

  /** The keyboard modifiers a mouse event can carry; an event carries a set of them. */
  datatype Modifier = ShiftModifier | ControlModifier | AltModifier | MetaModifier | KeypadModifier | GroupSwitchModifier
}
