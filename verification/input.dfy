/** The input hub (Input in Input.cpp): initialises the three devices with
    its failure policy and updates them once per frame. */
module InputSystem {
  import opened Common
  import Buttons
  import KeyboardInput
  import MouseInput
  import GamePadInput

  /** `interface` is whether the DirectInput interface pointer is non-null. */
  datatype Input = Input(
    interface: bool,
    keyboard: KeyboardInput.Keyboard,
    mouse: MouseInput.Mouse,
    pad: GamePadInput.GamePad)
  {
    predicate Valid()
    {
      keyboard.Valid() && mouse.Valid() && pad.Valid()
    }
  }

  /** Input::Release: every device pointer and the interface become null;
      no button state is touched. */
  function Release(inp: Input): (r: Input)
    ensures !r.interface && !r.keyboard.attached && !r.mouse.attached && !r.pad.attached
    ensures r.keyboard.states == inp.keyboard.states && r.pad.states == inp.pad.states
    ensures r.mouse.prev == inp.mouse.prev && r.mouse.current == inp.mouse.current
  {
    Input(false, inp.keyboard.(attached := false), inp.mouse.(attached := false), inp.pad.(attached := false))
  }

  /** What the gamepad's device enumeration, over gamepads and then
      joysticks, finds. */
  function PadEnumeration(inp: Input, gamepads: seq<GamePadInput.DeviceSetup>, joysticks: seq<GamePadInput.DeviceSetup>): GamePadInput.Enumeration
  {
    GamePadInput.Enumerate(GamePadInput.Enumerate(GamePadInput.Enumeration(0, inp.pad.attached), gamepads), joysticks)
  }

  /** Input::Initialize. `interfaceOk`, `keyboardOk` and `mouseOk` are the
      results of DirectInput8Create and of the keyboard and mouse set-up;
      the gamepad is described as GamePadInput.Initialize takes it. */
  method Initialize(
    inp: Input, interfaceOk: bool, keyboardOk: bool, mouseOk: bool,
    gamepads: seq<GamePadInput.DeviceSetup>, joysticks: seq<GamePadInput.DeviceSetup>, startOk: nat -> bool)
    returns (ok: bool, r: Input)
    requires inp.Valid()
    ensures r.Valid()
    ensures ok <==> interfaceOk && keyboardOk && mouseOk
    ensures !interfaceOk ==> r == inp
    ensures interfaceOk && !ok ==>
      !r.interface && !r.keyboard.attached && !r.mouse.attached && !r.pad.attached
    ensures ok ==> r.interface && r.keyboard.attached && r.mouse.attached
    ensures ok ==> r.pad.attached == PadEnumeration(inp, gamepads, joysticks).attached
    ensures r.keyboard.states == inp.keyboard.states
    ensures r.mouse.prev == inp.mouse.prev && r.mouse.current == inp.mouse.current
    ensures !ok || PadEnumeration(inp, gamepads, joysticks).found == 0 ==> r.pad.states == inp.pad.states
    ensures ok && PadEnumeration(inp, gamepads, joysticks).found > 0 ==>
      forall i :: 0 <= i < GamePadInput.KindCount ==> r.pad.states[i] == Buttons.None
  {
    if !interfaceOk {
      return false, inp;
    }
    var withInterface := inp.(interface := true);
    if !keyboardOk || !mouseOk {
      return false, Release(withInterface);
    }
    var padOk, pad, _ := GamePadInput.Initialize(inp.pad, gamepads, joysticks, startOk);
    // A missing gamepad is not a failure: padOk is deliberately ignored.
    ok := true;
    r := Input(true, inp.keyboard.(attached := true), inp.mouse.(attached := true), pad);
  }

  /** The gamepad's own outcome never decides the result: two runs that
      differ only in the gamepads and joysticks present agree on success. */
  method GamePadNeverFailsInitialize(
    inp: Input, interfaceOk: bool, keyboardOk: bool, mouseOk: bool,
    pads1: seq<GamePadInput.DeviceSetup>, joysticks1: seq<GamePadInput.DeviceSetup>,
    pads2: seq<GamePadInput.DeviceSetup>, joysticks2: seq<GamePadInput.DeviceSetup>, startOk: nat -> bool)
    returns (ok1: bool, ok2: bool)
    requires inp.Valid()
    ensures ok1 == ok2
    ensures ok1 <==> interfaceOk && keyboardOk && mouseOk
  {
    var r1, r2;
    ok1, r1 := Initialize(inp, interfaceOk, keyboardOk, mouseOk, pads1, joysticks1, startOk);
    ok2, r2 := Initialize(inp, interfaceOk, keyboardOk, mouseOk, pads2, joysticks2, startOk);
  }

  /** What each device produced this frame. */
  datatype FrameReads = FrameReads(
    keys: KeyboardInput.KeyRead,
    mouseFirst: Option<MouseInput.MouseSample>,
    mouseRetry: Option<MouseInput.MouseSample>,
    pad: GamePadInput.PadRead)
  {
    predicate Valid()
    {
      && keys.Valid() && pad.Valid()
      && (mouseFirst.Some? ==> mouseFirst.value.Valid())
      && (mouseRetry.Some? ==> mouseRetry.value.Valid())
    }
  }

  /** Input::Update: keyboard, then mouse, then gamepad; each device sees
      only its own read. */
  method Update(inp: Input, frame: FrameReads) returns (r: Input)
    requires inp.Valid() && frame.Valid()
    ensures r.Valid() && r.interface == inp.interface
    ensures r.keyboard.attached == inp.keyboard.attached && r.pad.attached == inp.pad.attached
    ensures r.mouse == MouseInput.Update(inp.mouse, frame.mouseFirst, frame.mouseRetry)
    ensures inp.keyboard.attached && frame.keys.KeysRead? ==>
      forall i :: 0 <= i < KeyboardInput.MaxKeyNum ==>
        r.keyboard.states[i] == Buttons.UpdateButtonState(Buttons.IsDown(frame.keys.keys[i]), inp.keyboard.states[i])
    ensures !inp.keyboard.attached || frame.keys.ReadFailed? ==> r.keyboard == inp.keyboard
    ensures inp.pad.attached && frame.pad.PadRead? ==>
      forall i :: 0 <= i < GamePadInput.KindCount ==>
        r.pad.states[i] == Buttons.UpdateButtonState(GamePadInput.PressedFlags(frame.pad.joy, frame.pad.hat)[i], inp.pad.states[i])
    ensures !inp.pad.attached ==> r.pad == inp.pad
    ensures inp.pad.attached && frame.pad.ReadFailed? && frame.pad.reacquired ==> r.pad == inp.pad
    ensures inp.pad.attached && frame.pad.ReadFailed? && !frame.pad.reacquired ==>
      forall i :: 0 <= i < GamePadInput.KindCount ==> r.pad.states[i] == Buttons.None
  {
    var kb := KeyboardInput.Update(inp.keyboard, frame.keys);
    var mouse := MouseInput.Update(inp.mouse, frame.mouseFirst, frame.mouseRetry);
    var pad := GamePadInput.Update(inp.pad, frame.pad);
    r := Input(inp.interface, kb, mouse, pad);
  }

  /** Once Initialize has created the interface and then failed, it has
      released every device, so the next frame changes no state. */
  method UpdateAfterFailedInitialize(
    inp: Input, interfaceOk: bool, keyboardOk: bool, mouseOk: bool,
    gamepads: seq<GamePadInput.DeviceSetup>, joysticks: seq<GamePadInput.DeviceSetup>, startOk: nat -> bool,
    frame: FrameReads)
    returns (ok: bool, initialized: Input, after: Input)
    requires inp.Valid() && frame.Valid()
    ensures interfaceOk && !ok ==> after == initialized
    ensures ok ==> after.keyboard.attached && after.mouse.attached
  {
    ok, initialized := Initialize(inp, interfaceOk, keyboardOk, mouseOk, gamepads, joysticks, startOk);
    after := Update(initialized, frame);
  }
}
