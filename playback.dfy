/**
  The playback-mode state machine of the slider as values: the pair
  (mode, last mode), the transitions the widget performs on it, the
  dispatch of mouse releases onto those transitions, and what holds of
  every state reachable from a newly constructed slider.
 */
module Playback {
  import opened Modes

  /** The two mode fields of the widget. `lastMode` is the direction to resume in. */
  datatype State = State(mode: Option<SliderMode>, lastMode: Option<SliderMode>)

  /** The invariant of a constructed slider: paused or moving in a direction, and a direction to resume in. */
  predicate WellFormed(s: State) {
    (s.mode == Some(Pause) || IsDirection(s.mode)) && IsDirection(s.lastMode)
  }

  /** The slider is paused. */
  predicate Paused(s: State) {
    s.mode == Some(Pause)
  }

  /** The direction the widget switches to: `Forward` from `Backward`, `Backward` from anything else. */
  function Flipped(m: Option<SliderMode>): (d: Option<SliderMode>)
    ensures IsDirection(d)
    ensures m == Some(Forward) ==> d == Some(Backward)
    ensures m == Some(Backward) ==> d == Some(Forward)
    ensures !IsDirection(m) ==> d == Some(Backward)
  {
    if m == Some(Backward) then Some(Forward) else Some(Backward)
  }

  /** Toggles between paused and moving: pausing remembers the mode, resuming restores it. */
  function SetPaused(s: State): (r: State)
    ensures WellFormed(s) ==> WellFormed(r) && (Paused(r) <==> !Paused(s))
  {
    if s.mode == Some(Pause) then State(s.lastMode, s.lastMode)
    else State(Some(Pause), s.mode)
  }

  /** Flips the direction: the one to resume in while paused, the current one otherwise. */
  function CtrlClick(s: State): (r: State)
    ensures Paused(r) == Paused(s)
    ensures WellFormed(s) ==> WellFormed(r)
  {
    if s.mode == Some(Pause) then State(s.mode, Flipped(s.lastMode))
    else State(Flipped(s.mode), s.lastMode)
  }

  /** Forces the mode to `Forward`, then pauses. */
  function Reset(s: State): (r: State)
    ensures Paused(r) && r.lastMode == Some(Forward)
    ensures WellFormed(r)
  {
    SetPaused(State(Some(Forward), s.lastMode))
  }

  /** The state the constructor leaves: `Forward` with no last mode, then paused. */
  function Initial(): (s: State)
    ensures Paused(s) && s.lastMode == Some(Forward)
    ensures WellFormed(s)
  {
    SetPaused(State(Some(Forward), None))
  }

  /** The state-changing operations of the widget. */
  datatype Op = SetPausedOp | CtrlClickOp | ResetOp

  function Apply(s: State, op: Op): State {
    match op
    case SetPausedOp => SetPaused(s)
    case CtrlClickOp => CtrlClick(s)
    case ResetOp => Reset(s)
  }

  /**
    Which operation a mouse release triggers: a right click carrying exactly the
    Control modifier flips the direction, any other right click toggles pause,
    and other buttons trigger none (they go to the toolkit's own handler).
   */
  function Dispatch(button: MouseButton, modifiers: set<Modifier>): (op: Option<Op>)
    ensures op == Some(CtrlClickOp) <==> button == RightButton && modifiers == {ControlModifier}
    ensures op == Some(SetPausedOp) <==> button == RightButton && modifiers != {ControlModifier}
    ensures op == None <==> button != RightButton
  {
    var ctrl := modifiers == {ControlModifier};
    if button == RightButton then
      if ctrl then Some(CtrlClickOp) else Some(SetPausedOp)
    else
      None
  }

  /** The state after a mouse release. */
  function Release(s: State, button: MouseButton, modifiers: set<Modifier>): (r: State)
    ensures button != RightButton ==> r == s
    ensures WellFormed(s) ==> WellFormed(r)
  {
    match Dispatch(button, modifiers)
    case Some(op) => Apply(s, op)
    case None => s
  }

  /** The state after performing `ops` in order. */
  function Run(s: State, ops: seq<Op>): State
    decreases |ops|
  {
    if ops == [] then s else Run(Apply(s, ops[0]), ops[1..])
  }

  /** A state some sequence of operations reaches from a new slider. */
  ghost predicate Reachable(s: State) {
    exists ops :: Run(Initial(), ops) == s
  }

  // ---- mouse release ----

  /** A right release with exactly Control flips, any other right release toggles the pause, other buttons change nothing. */
  lemma ReleaseRules(s: State, button: MouseButton, modifiers: set<Modifier>)
    ensures button == RightButton && modifiers == {ControlModifier} ==> Release(s, button, modifiers) == CtrlClick(s)
    ensures button == RightButton && modifiers != {ControlModifier} ==> Release(s, button, modifiers) == SetPaused(s)
    ensures button != RightButton ==> Release(s, button, modifiers) == s
  {
  }

  /** Control together with any other modifier does not count as a Control click: the right release toggles the pause. */
  lemma ControlWithOtherModifierTogglesPause(s: State, modifiers: set<Modifier>)
    requires ControlModifier in modifiers && modifiers != {ControlModifier}
    ensures Dispatch(RightButton, modifiers) == Some(SetPausedOp)
    ensures Release(s, RightButton, modifiers) == SetPaused(s)
  {
  }

  // ---- update_style ----

  /** On a well-formed state the groove is grey exactly while paused, blue or red exactly while moving. */
  lemma StyleShowsPause(s: State)
    requires WellFormed(s)
    ensures StyleFor(s.mode) == Grey <==> Paused(s)
    ensures StyleFor(s.mode) in {Blue, Red} <==> !Paused(s)
  {
  }

  // ---- set_paused ----

  /** Pausing a moving slider stores its mode as the one to resume in. */
  lemma SetPausedFromMoving(s: State)
    requires !Paused(s)
    ensures Paused(SetPaused(s))
    ensures SetPaused(s).lastMode == s.mode
  {
  }

  /** Unpausing resumes in the stored direction, and never yields `Pause` or `None`. */
  lemma SetPausedFromPaused(s: State)
    requires Paused(s) && WellFormed(s)
    ensures SetPaused(s).mode == s.lastMode
    ensures SetPaused(s).lastMode == s.lastMode
    ensures IsDirection(SetPaused(s).mode) && !Paused(SetPaused(s))
  {
  }

  /** Pausing and resuming a moving slider restores its mode; the old direction to resume in is overwritten by it. */
  lemma SetPausedTwiceFromMoving(s: State)
    requires !Paused(s)
    ensures SetPaused(SetPaused(s)) == State(s.mode, s.mode)
    ensures !Paused(SetPaused(SetPaused(s)))
  {
  }

  /**
    While the slider moves, the direction it would resume in cannot be observed:
    two states that agree on a moving mode go through the same modes under any
    sequence of operations. So pausing and resuming a moving slider, which
    overwrites that direction, changes nothing a user can see.
   */
  lemma {:induction false} LastModeUnobservedWhileMoving(s: State, t: State, ops: seq<Op>)
    requires s == t || (s.mode == t.mode && !Paused(s))
    ensures Run(s, ops).mode == Run(t, ops).mode
    decreases |ops|
  {
    if ops != [] {
      LastModeUnobservedWhileMoving(Apply(s, ops[0]), Apply(t, ops[0]), ops[1..]);
    }
  }

  /** Resuming and pausing a paused slider gives back the same state. */
  lemma SetPausedTwiceFromPaused(s: State)
    requires Paused(s)
    ensures SetPaused(SetPaused(s)) == s
  {
  }

  // ---- ctrl_click ----

  /** While paused, the direction click keeps the pause and swaps the direction to resume in. */
  lemma CtrlClickWhilePaused(s: State)
    requires Paused(s) && WellFormed(s)
    ensures Paused(CtrlClick(s))
    ensures IsDirection(CtrlClick(s).lastMode) && CtrlClick(s).lastMode != s.lastMode
  {
  }

  /** While moving, the direction click swaps the mode and leaves the direction to resume in alone. */
  lemma CtrlClickWhileMoving(s: State)
    requires WellFormed(s) && !Paused(s)
    ensures IsDirection(CtrlClick(s).mode) && CtrlClick(s).mode != s.mode
    ensures CtrlClick(s).lastMode == s.lastMode
  {
  }

  /** Two direction clicks in a row give back the starting state. */
  lemma CtrlClickTwice(s: State)
    requires WellFormed(s)
    ensures CtrlClick(CtrlClick(s)) == s
  {
  }

  // ---- reset ----

  /** Whatever the prior state, reset leaves the slider as construction does. */
  lemma ResetFromAny(s: State)
    ensures Reset(s) == Initial()
    ensures Paused(Reset(s)) && Reset(s).lastMode == Some(Forward)
  {
  }

  // ---- the invariant ----

  /** Every operation keeps a well-formed state well-formed. */
  lemma ApplyKeepsWellFormed(s: State, op: Op)
    requires WellFormed(s)
    ensures WellFormed(Apply(s, op))
  {
  }

  /** Every mouse release keeps a well-formed state well-formed. */
  lemma ReleaseKeepsWellFormed(s: State, button: MouseButton, modifiers: set<Modifier>)
    requires WellFormed(s)
    ensures WellFormed(Release(s, button, modifiers))
  {
  }

  /** Any sequence of operations keeps a well-formed state well-formed. */
  lemma {:induction false} RunKeepsWellFormed(s: State, ops: seq<Op>)
    requires WellFormed(s)
    ensures WellFormed(Run(s, ops))
    decreases |ops|
  {
    if ops != [] {
      ApplyKeepsWellFormed(s, ops[0]);
      RunKeepsWellFormed(Apply(s, ops[0]), ops[1..]);
    }
  }

  /** Performing `ops` and then `more` is performing `ops + more`. */
  lemma {:induction false} RunAppend(s: State, ops: seq<Op>, more: seq<Op>)
    ensures Run(s, ops + more) == Run(Run(s, ops), more)
    decreases |ops|
  {
    if ops == [] {
      assert ops + more == more;
    } else {
      assert (ops + more)[0] == ops[0];
      assert (ops + more)[1..] == ops[1..] + more;
      RunAppend(Apply(s, ops[0]), ops[1..], more);
    }
  }

  /** A reachable state stays reachable after any further operation. */
  lemma ReachableAfterApply(s: State, op: Op)
    requires Reachable(s)
    ensures Reachable(Apply(s, op))
  {
    var ops :| Run(Initial(), ops) == s;
    RunAppend(Initial(), ops, [op]);
    assert Run(Initial(), ops + [op]) == Apply(s, op);
  }

  /** Every reachable state is well-formed; in particular resuming never yields `Pause` or `None`. */
  lemma ReachableIsWellFormed(s: State)
    requires Reachable(s)
    ensures WellFormed(s)
    ensures Paused(s) ==> IsDirection(SetPaused(s).mode)
  {
    var ops :| Run(Initial(), ops) == s;
    RunKeepsWellFormed(Initial(), ops);
  }

  /** The invariant is exact: every well-formed state is reached by some sequence of operations. */
  lemma WellFormedIsReachable(s: State)
    requires WellFormed(s)
    ensures Reachable(s)
  {
    var ops :=
      match s
      case State(Some(Pause), Some(Forward)) => []
      case State(Some(Pause), _) => [CtrlClickOp]
      case State(Some(Forward), Some(Forward)) => [SetPausedOp]
      case State(Some(Forward), _) => [CtrlClickOp, SetPausedOp, CtrlClickOp]
      case State(_, Some(Backward)) => [CtrlClickOp, SetPausedOp]
      case State(_, _) => [SetPausedOp, CtrlClickOp];
    var t := Initial();
    if |ops| >= 1 {
      t := Apply(t, ops[0]);
      assert Run(Initial(), ops) == Run(t, ops[1..]);
    }
    if |ops| >= 2 {
      t := Apply(t, ops[1]);
      assert Run(Initial(), ops) == Run(t, ops[2..]);
    }
    if |ops| == 3 {
      t := Apply(t, ops[2]);
      assert Run(Initial(), ops) == Run(t, ops[3..]);
    }
    assert Run(Initial(), ops) == s;
  }

  /** A state is reachable from a new slider exactly when it is well-formed. */
  lemma ReachableIffWellFormed(s: State)
    ensures Reachable(s) <==> WellFormed(s)
  {
    if Reachable(s) {
      ReachableIsWellFormed(s);
    }
    if WellFormed(s) {
      WellFormedIsReachable(s);
    }
  }
}
