/**
  The `FPSController` component: the fields it carries between frames and its
  per-frame `Update`, `HandleMovement` and `HandleLook`, which change those
  fields step by step. Engine calls are replaced by the frame's input snapshot
  (ground contact included) and by the returned planar input and yaw.
 */
module HunterPlayerController {
  import opened UnityMath
  import opened InputSnapshot
  import opened PlayerTick

  class FPSController {
    /** The serialized settings (walk speed, gravity, jump height, sensitivities, look limit, deadzone). */
    const config: Config

    /** `velocity.y`; `velocity.x` and `velocity.z` are never written and stay zero. */
    var velocityY: real
    var xRotation: real
    var isGrounded: bool
    var usingGamepad: bool
    var smoothMoveInput: Vec2

    /** The settings are consistent, and the pitch lies within the look limit. */
    ghost predicate Valid()
      reads this
    {
      config.Valid() && -config.maxLookAngle <= xRotation <= config.maxLookAngle
    }

    /** The carried fields as a value of the pure model. */
    function Carried(): State
      reads this
    {
      State(velocityY, xRotation, isGrounded, usingGamepad, smoothMoveInput)
    }

    /** A fresh component: every carried field holds its C# default. */
    constructor (config: Config)
      requires config.Valid()
      ensures Valid() && this.config == config
      ensures Carried() == State(0.0, 0.0, false, false, Zero)
    {
      this.config := config;
      velocityY := 0.0;
      xRotation := 0.0;
      isGrounded := false;
      usingGamepad := false;
      smoothMoveInput := Zero;
    }

    /**
      One frame: re-decide the device, then move, then look. The new fields and
      the outputs are exactly those of the pure step, and the pitch stays within
      the look limit.
     */
    method Update(input: Snapshot) returns (move: Vec2, yaw: real)
      requires Valid()
      modifies this
      ensures Valid()
      ensures Tick(Carried(), move, yaw) == Step(config, old(Carried()), input)
    {
      usingGamepad := SelectsGamepad(input.gamepad, config.deadzone);
      move := HandleMovement(input);
      yaw := HandleLook(input);
    }

    /**
      Ground reset, planar input from the current device, smoothing, jump and
      gravity. Leaves the pitch and the device choice alone.
     */
    method HandleMovement(input: Snapshot) returns (move: Vec2)
      requires Valid()
      modifies this
      ensures Valid()
      ensures xRotation == old(xRotation) && usingGamepad == old(usingGamepad)
      ensures isGrounded == input.grounded
      ensures smoothMoveInput == Lerp(old(smoothMoveInput), RawMoveInput(usingGamepad, input, config.deadzone),
                                      input.dt * SmoothingRate)
      ensures velocityY == NextVelocityY(config, old(velocityY), JumpFires(usingGamepad, input), input.grounded, input.dt)
      ensures move == smoothMoveInput
    {
      ghost var velocityY0 := velocityY;
      isGrounded := input.grounded;
      if isGrounded && velocityY < 0.0 {
        velocityY := GroundStick;
      }
      ghost var afterReset := velocityY;
      assert afterReset == if input.grounded && velocityY0 < 0.0 then GroundStick else velocityY0;

      var rawMoveInput := Zero;
      if usingGamepad && input.gamepad.Some? {
        rawMoveInput := input.gamepad.value.leftStick;
        if InsideDeadzone(rawMoveInput, config.deadzone) {
          rawMoveInput := Zero;
        }
      } else {
        rawMoveInput := KeyboardAxis(input.wHeld, input.aHeld, input.sHeld, input.dHeld);
      }

      smoothMoveInput := Lerp(smoothMoveInput, rawMoveInput, input.dt * SmoothingRate);
      move := smoothMoveInput;

      if isGrounded && ((usingGamepad && input.gamepad.Some? && input.gamepad.value.southPressedThisFrame) ||
                        (!usingGamepad && input.spacePressedThisFrame)) {
        velocityY := config.jumpSpeed;
      }

      assert velocityY == if JumpFires(usingGamepad, input) then config.jumpSpeed else afterReset;
      velocityY := velocityY + config.gravity * input.dt;
      assert velocityY == NextVelocityY(config, velocityY0, JumpFires(usingGamepad, input), input.grounded, input.dt);
    }

    /**
      Look input from the current device, scaled by its sensitivity and `dt`;
      the pitch takes `-look.y` and is clamped, the yaw is `look.x`.
     */
    method HandleLook(input: Snapshot) returns (yaw: real)
      requires Valid()
      modifies this
      ensures Valid()
      ensures velocityY == old(velocityY) && isGrounded == old(isGrounded)
      ensures usingGamepad == old(usingGamepad) && smoothMoveInput == old(smoothMoveInput)
      ensures xRotation == Clamp(old(xRotation) - LookInput(usingGamepad, input, config).y,
                                 -config.maxLookAngle, config.maxLookAngle)
      ensures yaw == LookInput(usingGamepad, input, config).x
    {
      var lookInput := Zero;
      var sensitivity := if usingGamepad then config.gamepadSensitivity else config.mouseSensitivity;

      if usingGamepad && input.gamepad.Some? {
        lookInput := input.gamepad.value.rightStick;
        if InsideDeadzone(lookInput, config.deadzone) {
          lookInput := Zero;
        }
      } else {
        lookInput := Scale(input.mouseDelta, MouseScale);
      }

      lookInput := Scale(lookInput, sensitivity * input.dt);

      xRotation := xRotation - lookInput.y;
      xRotation := Clamp(xRotation, -config.maxLookAngle, config.maxLookAngle);
      yaw := lookInput.x;
    }
  }
}
