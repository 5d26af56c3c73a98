/** The gamepad device (GamePad in InputGamePad.cpp): twelve logical
    buttons derived from the stick, the POV hat and eight button bytes,
    advanced by the shared edge state machine. */
module GamePadInput {
  import opened Buttons

  /** GamePadKindMax, and the positions of the logical buttons. */
  const KindCount := 12
  const UpButton := 0
  const DownButton := 1
  const LeftButton := 2
  const RightButton := 3
  const Button01 := 4
  /** Buttons Button01 .. Button08 read from rgbButtons[0 .. 7]. */
  const ButtonCount := 8
  /** DIJOYSTATE carries 32 button bytes. */
  const JoyButtonBytes := 32
  /** unresponsive_range: stick values within ±200 press nothing. */
  const DeadZone := 200
  /** A centred POV hat reports 0xFFFFFFFF. */
  const PovCentred: bv32 := 0xFFFF_FFFF
  /** StartControl is tried at most this many times. */
  const MaxStartAttempts := 5

  datatype GamePad = GamePad(attached: bool, states: seq<ButtonState>)
  {
    predicate Valid()
    {
      |states| == KindCount
    }
  }

  /** The parts of a DIJOYSTATE sample that Update reads. */
  datatype JoyState = JoyState(lX: int, lY: int, pov: bv32, buttons: seq<bv8>)
  {
    predicate Valid()
    {
      |buttons| == JoyButtonBytes
    }
  }

  /** Directions the POV hat angle decodes to through sinf/cosf. */
  datatype HatDirections = HatDirections(left: bool, right: bool, up: bool, down: bool)

  /** A successful GetDeviceState with the decoded hat, or a failure after
      which Acquire was retried. */
  datatype PadRead = PadRead(joy: JoyState, hat: HatDirections) | ReadFailed(reacquired: bool)
  {
    predicate Valid()
    {
      PadRead? ==> joy.Valid()
    }
  }

  predicate StickLow(axis: int)
  {
    axis < -DeadZone
  }

  predicate StickHigh(axis: int)
  {
    axis > DeadZone
  }

  /** The hat contributes only when it is not centred. */
  function HatPresses(pov: bv32, hat: HatDirections): (h: HatDirections)
    ensures pov == PovCentred ==> !h.left && !h.right && !h.up && !h.down
    ensures pov != PovCentred ==> h == hat
  {
    if pov == PovCentred then HatDirections(false, false, false, false) else hat
  }

  /** The `is_push` flags of one sample, in GamePadKind order. */
  function PressedFlags(joy: JoyState, hat: HatDirections): (r: seq<bool>)
    requires joy.Valid()
    ensures |r| == KindCount
    ensures r[LeftButton] <==> StickLow(joy.lX) || HatPresses(joy.pov, hat).left
    ensures r[RightButton] <==> StickHigh(joy.lX) || HatPresses(joy.pov, hat).right
    ensures r[UpButton] <==> StickLow(joy.lY) || HatPresses(joy.pov, hat).up
    ensures r[DownButton] <==> StickHigh(joy.lY) || HatPresses(joy.pov, hat).down
    ensures forall i :: 0 <= i < ButtonCount ==> (r[Button01 + i] <==> IsDown(joy.buttons[i]))
  {
    var h := HatPresses(joy.pov, hat);
    [ StickLow(joy.lY) || h.up, StickHigh(joy.lY) || h.down,
      StickLow(joy.lX) || h.left, StickHigh(joy.lX) || h.right ]
    + seq(ButtonCount, i requires 0 <= i < ButtonCount => IsDown(joy.buttons[i]))
  }

  /** Inside the dead zone, with the hat centred, the stick presses no direction,
      and it never presses two opposite directions at once. */
  lemma DeadZoneIsQuiet(joy: JoyState, hat: HatDirections)
    requires joy.Valid() && joy.pov == PovCentred
    ensures -DeadZone <= joy.lX <= DeadZone ==>
      !PressedFlags(joy, hat)[LeftButton] && !PressedFlags(joy, hat)[RightButton]
    ensures -DeadZone <= joy.lY <= DeadZone ==>
      !PressedFlags(joy, hat)[UpButton] && !PressedFlags(joy, hat)[DownButton]
    ensures !(PressedFlags(joy, hat)[LeftButton] && PressedFlags(joy, hat)[RightButton])
    ensures !(PressedFlags(joy, hat)[UpButton] && PressedFlags(joy, hat)[DownButton])
  {
  }

  /** All twelve states back to None. */
  function AllNone(): (s: seq<ButtonState>)
    ensures |s| == KindCount && forall i :: 0 <= i < KindCount ==> s[i] == None
  {
    seq(KindCount, _ => None)
  }

  /** One frame of GamePad::Update. */
  method Update(pad: GamePad, read: PadRead) returns (r: GamePad)
    requires pad.Valid() && read.Valid()
    ensures r.Valid() && r.attached == pad.attached
    ensures !pad.attached ==> r == pad
    ensures pad.attached && read.ReadFailed? && read.reacquired ==> r == pad
    ensures pad.attached && read.ReadFailed? && !read.reacquired ==>
      forall i :: 0 <= i < KindCount ==> r.states[i] == None
    ensures pad.attached && read.PadRead? ==>
      forall i :: 0 <= i < KindCount ==>
        r.states[i] == UpdateButtonState(PressedFlags(read.joy, read.hat)[i], pad.states[i])
  {
    if !pad.attached {
      return pad;
    }
    match read
    case ReadFailed(reacquired) =>
      r := if reacquired then pad else pad.(states := AllNone());
    case PadRead(joy, hat) =>
      var states := StepAll(pad.states, PressedFlags(joy, hat));
      r := pad.(states := states);
  }

  predicate IsButtonHeld(pad: GamePad, button: nat)
    requires pad.Valid() && button < KindCount
  {
    pad.states[button] == Held
  }

  predicate IsButtonPushed(pad: GamePad, button: nat)
    requires pad.Valid() && button < KindCount
  {
    pad.states[button] == Pushed
  }

  predicate IsButtonReleased(pad: GamePad, button: nat)
    requires pad.Valid() && button < KindCount
  {
    pad.states[button] == Released
  }

  /** At most one of the three queries holds for a button. */
  lemma ButtonQueriesExclusive(pad: GamePad, button: nat)
    requires pad.Valid() && button < KindCount
    ensures !(IsButtonHeld(pad, button) && IsButtonPushed(pad, button))
    ensures !(IsButtonHeld(pad, button) && IsButtonReleased(pad, button))
    ensures !(IsButtonPushed(pad, button) && IsButtonReleased(pad, button))
  {
  }

  /** How one device answers DeviceFindCallBack's setup steps. */
  datatype DeviceSetup =
    | CreateFails     // CreateDevice failed
    | ConfigureFails  // created, then a format, property or cooperative-level call failed
    | SetUp           // created and fully configured

  /** FindCount and whether the device pointer has been written. */
  datatype Enumeration = Enumeration(found: nat, attached: bool)

  /** One EnumDevices pass: the callback runs per device until it answers
      DIENUM_STOP, and it stops at once when a device is already counted. */
  function Enumerate(e: Enumeration, devices: seq<DeviceSetup>): (r: Enumeration)
    ensures r.found == e.found || (e.found == 0 && r.found == 1)
    ensures r.found > e.found ==> r.attached
    ensures e.attached ==> r.attached
    decreases |devices|
  {
    if |devices| == 0 || e.found >= 1 then e
    else
      match devices[0]
      case CreateFails => e
      case ConfigureFails => e.(attached := true)
      case SetUp => Enumerate(Enumeration(e.found + 1, true), devices[1..])
  }

  /** Both passes together (gamepads, then joysticks) set up at most one device. */
  lemma AtMostOneDevice(attached: bool, gamepads: seq<DeviceSetup>, joysticks: seq<DeviceSetup>)
    ensures Enumerate(Enumerate(Enumeration(0, attached), gamepads), joysticks).found <= 1
  {
  }

  /** GamePad::Initialize. `startOk(k)` is whether the k-th StartControl call
      (from 0) succeeds; `attempts` is how many calls were made. */
  method Initialize(pad: GamePad, gamepads: seq<DeviceSetup>, joysticks: seq<DeviceSetup>, startOk: nat -> bool)
    returns (ok: bool, r: GamePad, attempts: nat)
    requires pad.Valid()
    ensures r.Valid()
    ensures ok <==> Enumerate(Enumerate(Enumeration(0, pad.attached), gamepads), joysticks).found > 0
    ensures r.attached == Enumerate(Enumerate(Enumeration(0, pad.attached), gamepads), joysticks).attached
    ensures !ok ==> r.states == pad.states && attempts == 0
    ensures ok ==> 1 <= attempts <= MaxStartAttempts
    ensures ok ==> forall k :: 0 <= k < attempts - 1 ==> !startOk(k)
    ensures ok ==> startOk(attempts - 1) || attempts == MaxStartAttempts
    ensures ok ==> forall i :: 0 <= i < KindCount ==> r.states[i] == None
  {
    var e := Enumerate(Enumerate(Enumeration(0, pad.attached), gamepads), joysticks);
    if e.found == 0 {
      return false, pad.(attached := e.attached), 0;
    }
    attempts := 1;
    var count := 0;
    while !startOk(attempts - 1)
      invariant 1 <= attempts <= MaxStartAttempts && count == attempts - 1
      invariant forall k :: 0 <= k < attempts - 1 ==> !startOk(k)
      decreases MaxStartAttempts - attempts
    {
      count := count + 1;
      if count >= MaxStartAttempts {
        break;
      }
      attempts := attempts + 1;
    }
    ok := true;
    r := GamePad(e.attached, AllNone());
  }
}
