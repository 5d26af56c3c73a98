/** The mouse device (Mouse in InputMouse.cpp). It keeps the previous and
    the current sample and derives button edges from the two directly,
    without the edge state machine. Its names differ from the keyboard's:
    "Held" means pressed in this frame only, "Pushed" means still pressed. */
module MouseInput {
  import opened Common
  import opened Buttons

  /** DIMOUSESTATE carries four button bytes. */
  const MouseButtonBytes := 4

  datatype MouseButton = Left | Right | Center

  function ButtonIndex(b: MouseButton): (i: nat)
    ensures i < 3
  {
    match b
    case Left => 0
    case Right => 1
    case Center => 2
  }

  /** The parts of a DIMOUSESTATE sample: relative axes and button bytes. */
  datatype MouseSample = MouseSample(lX: int, lY: int, lZ: int, buttons: seq<bv8>)
  {
    predicate Valid()
    {
      |buttons| == MouseButtonBytes
    }
  }

  datatype Mouse = Mouse(attached: bool, prev: MouseSample, current: MouseSample)
  {
    predicate Valid()
    {
      prev.Valid() && current.Valid()
    }
  }

  predicate DownIn(s: MouseSample, b: MouseButton)
    requires s.Valid()
  {
    IsDown(s.buttons[ButtonIndex(b)])
  }

  /** Mouse::IsButtonHeld: up in the previous sample, down in the current one. */
  predicate IsButtonHeld(m: Mouse, b: MouseButton)
    requires m.Valid()
  {
    !DownIn(m.prev, b) && DownIn(m.current, b)
  }

  /** Mouse::IsButtonPushed: down in both samples. */
  predicate IsButtonPushed(m: Mouse, b: MouseButton)
    requires m.Valid()
  {
    DownIn(m.prev, b) && DownIn(m.current, b)
  }

  /** Mouse::IsButtonReleased: down in the previous sample, up in the current one. */
  predicate IsButtonReleased(m: Mouse, b: MouseButton)
    requires m.Valid()
  {
    DownIn(m.prev, b) && !DownIn(m.current, b)
  }

  /** At most one edge holds; none holds for a button up in both samples;
      and one of them holds whenever the button is down in either. */
  lemma EdgesPartition(m: Mouse, b: MouseButton)
    requires m.Valid()
    ensures !(IsButtonHeld(m, b) && IsButtonPushed(m, b))
    ensures !(IsButtonHeld(m, b) && IsButtonReleased(m, b))
    ensures !(IsButtonPushed(m, b) && IsButtonReleased(m, b))
    ensures IsButtonHeld(m, b) || IsButtonPushed(m, b) || IsButtonReleased(m, b)
      <==> DownIn(m.prev, b) || DownIn(m.current, b)
  {
  }

  /** One frame of Mouse::Update. `first` is the first GetDeviceState,
      `retry` the one after re-acquiring; a failed read leaves the sample
      buffer as it was. The cursor position is not modelled. */
  function Update(m: Mouse, first: Option<MouseSample>, retry: Option<MouseSample>): (r: Mouse)
    requires m.Valid()
    requires first.Some? ==> first.value.Valid()
    requires retry.Some? ==> retry.value.Valid()
    ensures r.Valid() && r.attached == m.attached
    ensures !m.attached ==> r == m
    ensures m.attached ==> r.prev == m.current
    ensures m.attached && first.Some? ==> r.current == first.value
    ensures m.attached && first.Nothing? && retry.Some? ==> r.current == retry.value
    ensures m.attached && first.Nothing? && retry.Nothing? ==> r.current == m.current
  {
    if !m.attached then m
    else
      var sample := if first.Some? then first.value else if retry.Some? then retry.value else m.current;
      Mouse(m.attached, m.current, sample)
  }

  /** After a frame that read `s`, the edges compare the sample before it with `s`. */
  lemma EdgesAfterUpdate(m: Mouse, s: MouseSample, b: MouseButton)
    requires m.Valid() && s.Valid() && m.attached
    ensures IsButtonHeld(Update(m, Some(s), Nothing), b) <==> !DownIn(m.current, b) && DownIn(s, b)
    ensures IsButtonPushed(Update(m, Some(s), Nothing), b) <==> DownIn(m.current, b) && DownIn(s, b)
    ensures IsButtonReleased(Update(m, Some(s), Nothing), b) <==> DownIn(m.current, b) && !DownIn(s, b)
  {
  }

  /** Where the keyboard and gamepad report Pushed, the mouse's samples of
      the same two frames report IsButtonHeld. Buttons.RepressSkipsPushed
      shows the converse does not hold. */
  lemma {:induction false} StateMachinePushedIsMouseHeld(start: ButtonState, presses: seq<bool>, m: Mouse, b: MouseButton)
    requires m.Valid() && |presses| >= 2
    requires DownIn(m.prev, b) == presses[|presses| - 2]
    requires DownIn(m.current, b) == presses[|presses| - 1]
    ensures Run(start, presses) == Pushed ==> IsButtonHeld(m, b)
  {
    PushedIsFreshPress(start, presses);
  }

  /** Where the keyboard and gamepad report Released, the mouse reports
      IsButtonReleased. Buttons.TapNeverReleased shows the converse does not hold. */
  lemma {:induction false} StateMachineReleasedIsMouseReleased(start: ButtonState, presses: seq<bool>, m: Mouse, b: MouseButton)
    requires m.Valid() && |presses| >= 2
    requires DownIn(m.prev, b) == presses[|presses| - 2]
    requires DownIn(m.current, b) == presses[|presses| - 1]
    ensures Run(start, presses) == Released ==> IsButtonReleased(m, b)
  {
    ReleasedFollowsPress(start, presses);
  }
}
