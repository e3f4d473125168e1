/**
  One frame of `FPSController.Update` as a pure function of the carried state
  and the frame's input snapshot. The class in module HunterPlayerController
  is proved to perform exactly this step; the lemmas in module TickProperties
  state what it promises.
 */
module PlayerTick {
  import opened UnityMath
  import opened InputSnapshot

  /** Vertical speed a grounded, falling character is reset to ("stick to ground"). */
  const GroundStick: real := -2.0
  /** The factor on `Time.deltaTime` that drives movement smoothing. */
  const SmoothingRate: real := 10.0
  /** The factor applied to the raw mouse delta before sensitivity. */
  const MouseScale: real := 0.1

  /** `v` is what `Mathf.Sqrt(jumpHeight * -2f * gravity)` returns. */
  predicate IsJumpSpeed(v: real, jumpHeight: real, gravity: real) {
    v >= 0.0 && v * v == jumpHeight * -2.0 * gravity
  }

  /**
    The serialized settings of the controller, plus `jumpSpeed`, the square
    root that the jump assigns to the vertical velocity.
   */
  datatype Config = Config(
    /** Kept only to mirror the serialized settings: it scales the world-space move, which is not modelled. */
    walkSpeed: real,
    gravity: real,
    jumpHeight: real,
    mouseSensitivity: real,
    gamepadSensitivity: real,
    maxLookAngle: real,
    deadzone: real,
    jumpSpeed: real)
  {
    predicate Valid() {
      && deadzone >= 0.0
      && maxLookAngle >= 0.0
      && gravity <= 0.0
      && jumpHeight >= 0.0
      && IsJumpSpeed(jumpSpeed, jumpHeight, gravity)
    }
  }

  /** The fields the controller carries from frame to frame (`velocity` is only ever moved along y). */
  datatype State = State(
    velocityY: real,
    xRotation: real,
    isGrounded: bool,
    usingGamepad: bool,
    smoothMoveInput: Vec2)

  /** The state after a frame, the smoothed planar input and the yaw applied to the body. */
  datatype Tick = Tick(next: State, moveInput: Vec2, yaw: real)

  /** `v.magnitude > radius`, for a non-negative radius. */
  predicate OutsideDeadzone(v: Vec2, radius: real) {
    SqrMagnitude(v) > radius * radius
  }

  /** `v.magnitude < radius`, for a non-negative radius. */
  predicate InsideDeadzone(v: Vec2, radius: real) {
    SqrMagnitude(v) < radius * radius
  }

  /** Device arbitration: a connected gamepad with either stick pushed past the deadzone. */
  function SelectsGamepad(gamepad: Option<GamepadSnapshot>, deadzone: real): bool {
    gamepad.Some? &&
    (OutsideDeadzone(gamepad.value.leftStick, deadzone) || OutsideDeadzone(gamepad.value.rightStick, deadzone))
  }

  /** A stick vector with the deadzone applied: short vectors become zero, the rest pass unchanged. */
  function ApplyDeadzone(v: Vec2, deadzone: real): (r: Vec2)
    ensures r == v || r == Zero
    ensures r == Zero || SqrMagnitude(r) >= deadzone * deadzone
    ensures SqrMagnitude(v) >= deadzone * deadzone ==> r == v
  {
    if InsideDeadzone(v, deadzone) then Zero else v
  }

  /** The planar axis built from the held W/A/S/D keys: D beats A, W beats S, no normalisation. */
  function KeyboardAxis(w: bool, a: bool, s: bool, d: bool): (r: Vec2)
    ensures r.x in {-1.0, 0.0, 1.0} && r.y in {-1.0, 0.0, 1.0}
    ensures (r.x == 1.0 <==> d) && (r.x == -1.0 <==> a && !d)
    ensures (r.y == 1.0 <==> w) && (r.y == -1.0 <==> s && !w)
  {
    Vec2(if d then 1.0 else if a then -1.0 else 0.0,
         if w then 1.0 else if s then -1.0 else 0.0)
  }

  /** The unsmoothed planar input of the frame, from the device the arbitration chose. */
  function RawMoveInput(usingGamepad: bool, input: Snapshot, deadzone: real): Vec2 {
    if usingGamepad && input.gamepad.Some? then ApplyDeadzone(input.gamepad.value.leftStick, deadzone)
    else KeyboardAxis(input.wHeld, input.aHeld, input.sHeld, input.dHeld)
  }

  /** The jump condition: grounded, and the chosen device's jump button went down this frame. */
  predicate JumpFires(usingGamepad: bool, input: Snapshot) {
    input.grounded &&
    ((usingGamepad && input.gamepad.Some? && input.gamepad.value.southPressedThisFrame) ||
     (!usingGamepad && input.spacePressedThisFrame))
  }

  /** Ground reset, then the jump assignment, then one step of gravity. */
  function NextVelocityY(c: Config, velocityY: real, jump: bool, grounded: bool, dt: real): real {
    var afterReset := if grounded && velocityY < 0.0 then GroundStick else velocityY;
    var afterJump := if jump then c.jumpSpeed else afterReset;
    afterJump + c.gravity * dt
  }

  /** The look vector of the frame: the chosen device's raw look, times sensitivity and `dt`. */
  function LookInput(usingGamepad: bool, input: Snapshot, c: Config): Vec2 {
    var sensitivity := if usingGamepad then c.gamepadSensitivity else c.mouseSensitivity;
    var look := if usingGamepad && input.gamepad.Some? then ApplyDeadzone(input.gamepad.value.rightStick, c.deadzone)
                else Scale(input.mouseDelta, MouseScale);
    Scale(look, sensitivity * input.dt)
  }

  /** One whole frame: arbitration, movement, then look. */
  function Step(c: Config, s: State, input: Snapshot): (t: Tick)
    requires c.Valid()
    ensures -c.maxLookAngle <= t.next.xRotation <= c.maxLookAngle
    ensures t.moveInput == t.next.smoothMoveInput
    ensures t.next.isGrounded == input.grounded
  {
    var gamepad := SelectsGamepad(input.gamepad, c.deadzone);
    var smooth := Lerp(s.smoothMoveInput, RawMoveInput(gamepad, input, c.deadzone), input.dt * SmoothingRate);
    var velocityY := NextVelocityY(c, s.velocityY, JumpFires(gamepad, input), input.grounded, input.dt);
    var look := LookInput(gamepad, input, c);
    var pitch := Clamp(s.xRotation - look.y, -c.maxLookAngle, c.maxLookAngle);
    Tick(State(velocityY, pitch, input.grounded, gamepad, smooth), smooth, look.x)
  }

  /** The state after running the frames of `inputs` in order. */
  function Run(c: Config, s: State, inputs: seq<Snapshot>): State
    requires c.Valid()
    decreases |inputs|
  {
    if inputs == [] then s else Run(c, Step(c, s, inputs[0]).next, inputs[1..])
  }

  /** `n` frames with the same input. */
  function Repeat(input: Snapshot, n: nat): (r: seq<Snapshot>)
    ensures |r| == n
    ensures forall i | 0 <= i < n :: r[i] == input
  {
    if n == 0 then [] else [input] + Repeat(input, n - 1)
  }

  /** `n` repeated interpolations of `m` towards `raw` with the same parameter `t`. */
  function SmoothIter(m: Vec2, raw: Vec2, t: real, n: nat): Vec2
    decreases n
  {
    if n == 0 then m else SmoothIter(Lerp(m, raw, t), raw, t, n - 1)
  }
}
