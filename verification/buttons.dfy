/** The per-frame button edge state machine shared by the keyboard and the
    gamepad (Input::UpdateButtonState), and the DirectInput "button is down"
    bit test used by every device. */
module Buttons {

  /** State of one button after a frame. The enumeration's trailing
      `ButtonStateMax` is a count, not a state, so it has no constructor. */
  datatype ButtonState = None | Pushed | Held | Released

  /** DirectInput sets this bit in a key or button byte while it is down. */
  const TriggerBit: bv8 := 0x80

  predicate IsDown(b: bv8)
  {
    b & TriggerBit != 0
  }

  /** The bit test reads as "the byte is at least 128". */
  lemma IsDownIffHighHalf(b: bv8)
    ensures IsDown(b) <==> b as int >= 128
  {
  }

  /** Next state of a button from its previous state and whether it is down now. */
  function UpdateButtonState(isPush: bool, state: ButtonState): (r: ButtonState)
    ensures r.Pushed? || r.Held? <==> isPush
    ensures r.Pushed? <==> isPush && state.None?
    ensures r.Released? <==> !isPush && state.Held?
  {
    if isPush then
      if state == None then Pushed else Held
    else
      if state == Held then Released else None
  }

  /** The state reached from `start` after one frame per entry of `presses`,
      oldest frame first. */
  function Run(start: ButtonState, presses: seq<bool>): ButtonState
    decreases |presses|
  {
    if |presses| == 0 then start
    else UpdateButtonState(presses[|presses| - 1], Run(start, presses[..|presses| - 1]))
  }

  /** `n` frames with the same input. */
  function Steady(down: bool, n: nat): (s: seq<bool>)
    ensures |s| == n && forall i :: 0 <= i < n ==> s[i] == down
  {
    seq(n, _ => down)
  }

  /** Held and None are the fixed points of pressing and of releasing. */
  lemma FixedPoints()
    ensures UpdateButtonState(true, Held) == Held
    ensures UpdateButtonState(false, None) == None
  {
  }

  /** Keeping a button down reaches Held within two frames, from any state. */
  lemma HoldingConverges(start: ButtonState, n: nat)
    requires n >= 2
    ensures Run(start, Steady(true, n)) == Held
  {
    // The last two frames decide: no induction over the earlier ones is needed.
  }

  /** Keeping a button up reaches None within two frames, from any state. */
  lemma ReleasingConverges(start: ButtonState, n: nat)
    requires n >= 2
    ensures Run(start, Steady(false, n)) == None
  {
    // The last two frames decide: no induction over the earlier ones is needed.
  }

  /** Whatever the history, the state says "down" exactly when the last frame was down. */
  lemma DownIffLastPressed(start: ButtonState, presses: seq<bool>)
    requires |presses| > 0
    ensures Run(start, presses).Pushed? || Run(start, presses).Held? <==> presses[|presses| - 1]
  {
  }

  /** Pushed is only reported on a fresh press: down now, up in the frame before. */
  lemma {:induction false} PushedIsFreshPress(start: ButtonState, presses: seq<bool>)
    requires |presses| >= 2
    ensures Run(start, presses) == Pushed ==> presses[|presses| - 1] && !presses[|presses| - 2]
  {
    var n := |presses|;
    var before := presses[..n - 1];
    assert before[..n - 2] == presses[..n - 2];
    assert Run(start, before) == UpdateButtonState(presses[n - 2], Run(start, presses[..n - 2]));
  }

  /** Released is only reported after a press: up now, down in the frame before. */
  lemma {:induction false} ReleasedFollowsPress(start: ButtonState, presses: seq<bool>)
    requires |presses| >= 2
    ensures Run(start, presses) == Released ==> !presses[|presses| - 1] && presses[|presses| - 2]
  {
    var n := |presses|;
    var before := presses[..n - 1];
    assert before[..n - 2] == presses[..n - 2];
    assert Run(start, before) == UpdateButtonState(presses[n - 2], Run(start, presses[..n - 2]));
  }

  /** The converse of PushedIsFreshPress fails: a press in the frame right
      after Released goes straight back to Held, although the button was up
      in the frame before. */
  lemma RepressSkipsPushed()
    ensures Run(None, [true, true, false, true]) == Held
  {
    assert [true, true, false, true][..3] == [true, true, false];
    assert [true, true, false][..2] == [true, true];
    assert [true, true][..1] == [true];
    assert [true][..0] == [];
  }

  /** The converse of ReleasedFollowsPress fails: a one-frame tap never reports Released. */
  lemma TapNeverReleased()
    ensures Run(None, [true, false]) == None
  {
    assert [true, false][..1] == [true];
    assert [true][..0] == [];
  }

  /** One frame for every button: each state advances with its own input. */
  method StepAll(states: seq<ButtonState>, pressed: seq<bool>) returns (r: seq<ButtonState>)
    requires |pressed| == |states|
    ensures |r| == |states|
    ensures forall i :: 0 <= i < |states| ==> r[i] == UpdateButtonState(pressed[i], states[i])
  {
    r := states;
    var i := 0;
    while i < |states|
      invariant 0 <= i <= |states| && |r| == |states|
      invariant forall j :: 0 <= j < i ==> r[j] == UpdateButtonState(pressed[j], states[j])
      invariant forall j :: i <= j < |states| ==> r[j] == states[j]
    {
      r := r[i := UpdateButtonState(pressed[i], r[i])];
      i := i + 1;
    }
  }
}
