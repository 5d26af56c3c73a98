/** The keyboard device (Keyboard in InputKeyboard.cpp): 256 key states
    advanced once per frame from the device's key bytes. */
module KeyboardInput {
  import opened Buttons

  /** MaxKeyNum: one state per DirectInput key code. */
  const MaxKeyNum := 256

  /** `attached` is whether the device pointer is non-null. */
  datatype Keyboard = Keyboard(attached: bool, states: seq<ButtonState>)
  {
    predicate Valid()
    {
      |states| == MaxKeyNum
    }
  }

  /** What GetDeviceState produced this frame: all 256 key bytes, or a
      failure, which may be DIERR_INPUTLOST (answered by re-acquiring). */
  datatype KeyRead = KeysRead(keys: seq<bv8>) | ReadFailed(inputLost: bool)
  {
    predicate Valid()
    {
      KeysRead? ==> |keys| == MaxKeyNum
    }
  }

  /** One frame of Keyboard::Update. */
  method Update(kb: Keyboard, read: KeyRead) returns (r: Keyboard)
    requires kb.Valid() && read.Valid()
    ensures r.Valid() && r.attached == kb.attached
    ensures !kb.attached || read.ReadFailed? ==> r == kb
    ensures kb.attached && read.KeysRead? ==>
      forall i :: 0 <= i < MaxKeyNum ==> r.states[i] == UpdateButtonState(IsDown(read.keys[i]), kb.states[i])
  {
    if !kb.attached {
      return kb;
    }
    match read
    case ReadFailed(_) =>
      // Re-acquiring after DIERR_INPUTLOST touches only the device.
      r := kb;
    case KeysRead(keys) =>
      var pressed := seq(MaxKeyNum, i requires 0 <= i < MaxKeyNum => IsDown(keys[i]));
      var states := StepAll(kb.states, pressed);
      r := kb.(states := states);
  }

  predicate IsHeld(kb: Keyboard, keyCode: nat)
    requires kb.Valid() && keyCode < MaxKeyNum
  {
    kb.states[keyCode] == Held
  }

  predicate IsPushed(kb: Keyboard, keyCode: nat)
    requires kb.Valid() && keyCode < MaxKeyNum
  {
    kb.states[keyCode] == Pushed
  }

  predicate IsReleased(kb: Keyboard, keyCode: nat)
    requires kb.Valid() && keyCode < MaxKeyNum
  {
    kb.states[keyCode] == Released
  }

  /** At most one of the three queries holds for a key. */
  lemma QueriesExclusive(kb: Keyboard, keyCode: nat)
    requires kb.Valid() && keyCode < MaxKeyNum
    ensures !(IsHeld(kb, keyCode) && IsPushed(kb, keyCode))
    ensures !(IsHeld(kb, keyCode) && IsReleased(kb, keyCode))
    ensures !(IsPushed(kb, keyCode) && IsReleased(kb, keyCode))
  {
  }

  /** After a frame in which the key's byte was `b`, the queries report the
      edge between the key's previous state and `b`. */
  lemma QueriesAfterUpdate(kb: Keyboard, keyCode: nat, previous: ButtonState, b: bv8)
    requires kb.Valid() && keyCode < MaxKeyNum
    requires kb.states[keyCode] == UpdateButtonState(IsDown(b), previous)
    ensures IsPushed(kb, keyCode) <==> IsDown(b) && previous == None
    ensures IsHeld(kb, keyCode) <==> IsDown(b) && previous != None
    ensures IsReleased(kb, keyCode) <==> !IsDown(b) && previous == Held
  {
  }
}
