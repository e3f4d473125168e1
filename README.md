# FPSController: one frame of a first-person controller

This project models the per-frame logic of the Unity component `FPSController`
(Assets/Scripts/HunterPlayerController.cs). On every frame the component does three things:

- it decides whether the gamepad or the keyboard and mouse is in control;
- it turns that device's input into a smoothed planar move, a ground reset, a jump and one step of gravity on the vertical velocity;
- it turns the look input into a clamped camera pitch and a body yaw.

The model has these modules:

- `UnityMath` holds `Vector2`, `Mathf.Clamp`, `Mathf.Clamp01` and `Vector2.Lerp` over real numbers. Vector lengths are compared through their squares.
- `InputSnapshot` is the record of one frame's input that the Input System would be polled for. It also carries the ground contact reported by the character motor and `Time.deltaTime`.
- `PlayerTick` is one frame as a pure function `Step` from the carried fields and the snapshot to the new fields, the smoothed move input and the yaw. `Run` chains frames. `Step` is built from pure functions, one for each part of the C#:
  - `SelectsGamepad`: the device choice (lines 37-38);
  - `RawMoveInput`: the raw planar input (lines 50-64);
  - `JumpFires`: the jump condition (lines 71-72);
  - `NextVelocityY`: the ground reset, the jump and gravity (lines 47-48, 71-78);
  - `LookInput`: the scaled look input (lines 84-99).
- `TickProperties` holds the lemmas about `Step` and `Run`.
- `HunterPlayerController` is the class `FPSController`. It has the component's mutable fields and the imperative methods `Update`, `HandleMovement` and `HandleLook`, written statement by statement after the C#. Each method is proved to leave exactly the fields that `Step` computes.

The settings are a `Config` value. `Config.Valid()` requires the following:

- a non-negative deadzone and look limit;
- a non-positive gravity and a non-negative jump height;
- `jumpSpeed`, the value `Mathf.Sqrt(jumpHeight * -2f * gravity)` returns, characterised as the `v >= 0` with `v * v == jumpHeight * -2 * gravity`.

## Model

| member | source | states |
|---|---|---|
| UnityMath.Clamp | Assets/Scripts/HunterPlayerController.cs:102 | `Mathf.Clamp` gives a value inside [lo, hi]. The value is kept when it is already inside, and it is pinned to the nearer bound when it is outside. |
| UnityMath.Clamp01 | Assets/Scripts/HunterPlayerController.cs:67 | The clamp that `Vector2.Lerp` applies to its parameter: the result lies in [0, 1], and `t` is kept when it is inside. |
| UnityMath.LerpScalar | Assets/Scripts/HunterPlayerController.cs:67 | One component of `Vector2.Lerp` always lies between its two end points. It equals the target when `t >= 1` and the start when `t <= 0`. |
| UnityMath.Lerp | Assets/Scripts/HunterPlayerController.cs:67 | `Vector2.Lerp` puts each component between the old and the new value. It returns the target for `t >= 1` and the start for `t <= 0`. |
| UnityMath.LerpGap | Assets/Scripts/HunterPlayerController.cs:67 | After one interpolation, the distance left to the target is exactly `1 - clamp(t, 0, 1)` times the previous distance. |
| UnityMath.LerpFallsShort | Assets/Scripts/HunterPlayerController.cs:67 | With `t < 1`, interpolation towards a different target does not reach it. |
| UnityMath.MagnitudeCompare | Assets/Scripts/HunterPlayerController.cs:37-38 | For a radius `d >= 0`, comparing `sqrMagnitude` with `d * d` decides `magnitude < d` and `magnitude > d` exactly. |
| PlayerTick.ApplyDeadzone | Assets/Scripts/HunterPlayerController.cs:54 | The deadzone returns either the stick vector unchanged or zero. A non-zero result has magnitude at least the deadzone, and a vector at or beyond the deadzone passes through. |
| PlayerTick.KeyboardAxis | Assets/Scripts/HunterPlayerController.cs:59-62 | Each axis is -1, 0 or 1. x is 1 exactly when D is held and -1 exactly when A is held without D; y is the same for W over S. (1, 1) is not normalised. |
| PlayerTick.Step | Assets/Scripts/HunterPlayerController.cs:34-43 | After any frame the pitch lies within the look limit. The returned move input is the new `smoothMoveInput`, and `isGrounded` is the frame's ground contact. |
| TickProperties.ArbitrationByMagnitude | Assets/Scripts/HunterPlayerController.cs:37-38 | The gamepad is selected if and only if one is connected and the magnitude of its left or right stick is strictly greater than the deadzone. |
| TickProperties.ArbitrationIsPerFrame | Assets/Scripts/HunterPlayerController.cs:37 | The device choice depends only on the current frame, not on the previous choice. The gamepad is chosen only when one is connected. |
| TickProperties.DeadzoneByMagnitude | Assets/Scripts/HunterPlayerController.cs:54 | A stick whose magnitude is below the deadzone becomes exactly zero, and one at or beyond it passes unchanged. |
| TickProperties.RawMoveSource | Assets/Scripts/HunterPlayerController.cs:50-64 | The raw planar input is the deadzoned left stick when the gamepad is selected. Otherwise it is the keyboard axis, with no deadzone. |
| TickProperties.SmoothingStep | Assets/Scripts/HunterPlayerController.cs:67 | Each smoothed component lies between its old value and the raw input (no overshoot). The result equals the raw input when `dt * 10 >= 1`, and differs from it when `dt * 10 < 1` and the old value differed. |
| TickProperties.JumpCondition | Assets/Scripts/HunterPlayerController.cs:71-72 | The jump fires if and only if the character is grounded and the selected device's button went down this frame: south on the gamepad, space on the keyboard. |
| TickProperties.SouthIgnoredWhileSticksIdle | Assets/Scripts/HunterPlayerController.cs:37-38 | With both sticks inside the deadzone, the keyboard is selected, so a south press without space does not jump. |
| TickProperties.JumpVelocity | Assets/Scripts/HunterPlayerController.cs:71-78 | On a jump frame the vertical velocity, before gravity is added, is the non-negative root of `jumpHeight * -2 * gravity`. |
| TickProperties.VelocityWithoutJump | Assets/Scripts/HunterPlayerController.cs:47-48 | Without a jump, a grounded falling character ends the frame at `-2 + gravity * dt`. Otherwise the velocity grows by exactly `gravity * dt`. |
| TickProperties.SustainedGroundingPins | Assets/Scripts/HunterPlayerController.cs:48 | Over any run of grounded frames with no jump press, a falling character stays pinned: it ends at `-2 + gravity * dt` of the last frame, which is still negative. |
| TickProperties.LookScaling | Assets/Scripts/HunterPlayerController.cs:85-104 | Gamepad look is the deadzoned right stick times the gamepad sensitivity and `dt`. Mouse look is the delta times 0.1, the mouse sensitivity and `dt`. The yaw is look.x, and the pitch is the clamped `xRotation - look.y`. |
| TickProperties.YawNotAccumulated | Assets/Scripts/HunterPlayerController.cs:104 | The yaw of a frame does not depend on the carried state, so it is neither accumulated nor clamped. |
| TickProperties.PitchStep | Assets/Scripts/HunterPlayerController.cs:101-102 | The pitch ends the frame inside the look limit. If `xRotation - look.y` is in range, the pitch decreases by exactly look.y; otherwise it stops at the nearer bound. |
| TickProperties.PitchStaysClamped | Assets/Scripts/HunterPlayerController.cs:101-102 | Over any sequence of frames, however large the look inputs, the pitch stays within [-maxLookAngle, maxLookAngle]. |
| TickProperties.RunSmoothsByLerp | Assets/Scripts/HunterPlayerController.cs:67 | Holding one input for `n` frames smooths the move input exactly as `n` repeated `Vector2.Lerp` steps towards that input. |
| TickProperties.SmoothIterBetween | Assets/Scripts/HunterPlayerController.cs:67 | Repeated interpolation never passes its target. |
| TickProperties.SmoothIterMonotone | Assets/Scripts/HunterPlayerController.cs:67 | Each further interpolation lies between the previous iterate and the target. |
| TickProperties.SmoothingNoOvershoot | Assets/Scripts/HunterPlayerController.cs:67 | While one input is held, after any number of frames the smoothed input lies between its start and the raw input. |
| TickProperties.SmoothingMonotone | Assets/Scripts/HunterPlayerController.cs:67 | While one input is held, each frame moves the smoothed input towards the raw input without widening the gap. |
| HunterPlayerController.FPSController.constructor | Assets/Scripts/HunterPlayerController.cs:18-22 | A fresh component has zero velocity, zero pitch, is not grounded, uses keyboard and mouse, and has a zero smoothed input. |
| HunterPlayerController.FPSController.Update | Assets/Scripts/HunterPlayerController.cs:34-43 | One call re-decides the device, moves and looks. The new fields, the move input and the yaw are exactly those of `Step`, and the pitch stays within the look limit. |
| HunterPlayerController.FPSController.HandleMovement | Assets/Scripts/HunterPlayerController.cs:45-80 | Sets the following: `isGrounded` to the ground contact; the smoothed input to `Lerp(old, raw, dt * 10)`; the vertical velocity to the reset, then the jump, then `+ gravity * dt`. Pitch and device are left unchanged. |
| HunterPlayerController.FPSController.HandleLook | Assets/Scripts/HunterPlayerController.cs:82-105 | The pitch becomes `Clamp(old - look.y, -max, max)` and the yaw is look.x. Every other field is unchanged. |

## Left out

- `controller.Move` and `controller.isGrounded` (lines 47, 69, 79) belong to the character motor. The ground contact is an input of the frame, and the planar move is returned instead of being applied.
- The world-space direction built from `transform.right` and `transform.forward` and then normalised (line 68) is not modelled, and neither is `walkSpeed`, which only scales it. The model returns the smoothed planar input the direction is built from.
- `Quaternion.Euler` and `cameraTransform.localRotation` (line 103) are not modelled; the pitch is kept as `xRotation`.
- `transform.Rotate` (line 104) is not modelled; the yaw is returned.
- Polling of `Gamepad.current`, `Keyboard.current` and `Mouse.current` is replaced by the `Snapshot` record. A disconnected gamepad is `None`.
- `Start()` (lines 24-32) is engine wiring: the component and camera lookup, cursor locking and the error log.
- The `Debug.Log` calls (lines 39, 55, 63, 75, 91, 96) are not modelled.
- 32-bit float rounding is not modelled; all quantities are reals.
- `Mathf.Sqrt` is not computed. `Config.jumpSpeed` stands for its result and is tied to it by `IsJumpSpeed`.
- The serialized defaults (lines 10-16) are not a constant of the model. Their jump root, the square root of 39.24, is not a rational literal. Any `Config` satisfying `Valid()` is allowed instead.
- `velocity` is a `Vector3`, but only its y component is ever assigned. The model carries `velocityY` alone.
- UnityMath.LerpGap: the distance left after one frame is stated per frame. The closed form `(1 - t)^n` over `n` frames is not stated. Over many frames the model proves no overshoot and monotone approach instead.
- Assets/Scripts/GamepadTest.cs only logs gamepad state and has no logic to model.
- The mouse path has no smoothing filter and no deadzone. Its delta is multiplied by 0.1, by the mouse sensitivity and by `dt` (lines 95, 99), and `LookScaling` states exactly that.
- Only the gamepad sticks are deadzoned (lines 54, 90). The keyboard axis and the mouse delta pass through without one.
- Only the selected device's jump button counts (lines 71-72). A south press while the keyboard is selected, or a space press while the gamepad is selected, does not jump.
- The model assumes a keyboard and a mouse are connected, because the `Snapshot` always carries their state. The code guards only `Gamepad.current`; `Keyboard.current` (lines 60-61, 72) and `Mouse.current` (line 95) are read without a null check. With no keyboard, while the keyboard path is selected, the code throws inside `HandleMovement`. That happens after lines 47-48 have set `isGrounded` and reset `velocity.y`, and `HandleLook` does not run that frame. With no mouse, it throws at line 95, after the movement of the frame has been applied. Neither of these aborted frames is modelled.
