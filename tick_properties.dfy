/**
  What one frame of the controller, and a run of frames, promise: device
  arbitration, the deadzone, the keyboard axis, the vertical-velocity machine
  with its jump, the pitch clamp, the look scaling and the movement smoothing.
 */
module TickProperties {
  import opened UnityMath
  import opened InputSnapshot
  import opened PlayerTick

  // ---------------------------------------------------------------- arbitration

  /**
    The gamepad is selected exactly when one is connected and the magnitude of
    its left or right stick is strictly greater than the deadzone. A stick
    exactly on the deadzone radius, or an idle connected gamepad, selects
    keyboard and mouse.
   */
  lemma ArbitrationByMagnitude(gamepad: Option<GamepadSnapshot>, deadzone: real, leftMag: real, rightMag: real)
    requires deadzone >= 0.0
    requires gamepad.Some? ==> IsMagnitude(leftMag, gamepad.value.leftStick)
    requires gamepad.Some? ==> IsMagnitude(rightMag, gamepad.value.rightStick)
    ensures SelectsGamepad(gamepad, deadzone) <==> gamepad.Some? && (leftMag > deadzone || rightMag > deadzone)
  {
    if gamepad.Some? {
      MagnitudeCompare(gamepad.value.leftStick, leftMag, deadzone);
      MagnitudeCompare(gamepad.value.rightStick, rightMag, deadzone);
    }
  }

  /** The choice of device is re-made every frame: it does not depend on the previous frame's choice. */
  lemma ArbitrationIsPerFrame(c: Config, s1: State, s2: State, input: Snapshot)
    requires c.Valid()
    ensures Step(c, s1, input).next.usingGamepad == Step(c, s2, input).next.usingGamepad
    ensures Step(c, s1, input).next.usingGamepad ==> input.gamepad.Some?
  {
  }

  // ---------------------------------------------------------------- deadzone

  /**
    A stick vector whose magnitude is below the deadzone becomes exactly zero;
    one whose magnitude reaches it passes through unchanged.
   */
  lemma DeadzoneByMagnitude(v: Vec2, deadzone: real, mag: real)
    requires deadzone >= 0.0 && IsMagnitude(mag, v)
    ensures mag < deadzone ==> ApplyDeadzone(v, deadzone) == Zero
    ensures mag >= deadzone ==> ApplyDeadzone(v, deadzone) == v
  {
    MagnitudeCompare(v, mag, deadzone);
  }

  // ---------------------------------------------------------------- planar input

  /**
    The frame's planar input before smoothing: the deadzoned left stick when the
    gamepad is selected, otherwise the keyboard axis; the mouse and the keys get
    no deadzone.
   */
  lemma RawMoveSource(c: Config, input: Snapshot)
    requires c.Valid()
    ensures var raw := RawMoveInput(SelectsGamepad(input.gamepad, c.deadzone), input, c.deadzone);
      if SelectsGamepad(input.gamepad, c.deadzone) then
        raw == ApplyDeadzone(input.gamepad.value.leftStick, c.deadzone)
      else
        raw == KeyboardAxis(input.wHeld, input.aHeld, input.sHeld, input.dHeld)
  {
  }

  /**
    Smoothing: each component of the smoothed input moves from its old value
    towards the raw input, never past it; the smoothed input becomes the raw
    input exactly when `dt * 10 >= 1` (or when it already was the raw input).
   */
  lemma SmoothingStep(c: Config, s: State, input: Snapshot)
    requires c.Valid()
    ensures var raw := RawMoveInput(SelectsGamepad(input.gamepad, c.deadzone), input, c.deadzone);
      var m := Step(c, s, input).moveInput;
      && Between(s.smoothMoveInput.x, m.x, raw.x)
      && Between(s.smoothMoveInput.y, m.y, raw.y)
      && (input.dt * SmoothingRate >= 1.0 ==> m == raw)
      && (input.dt * SmoothingRate < 1.0 && s.smoothMoveInput != raw ==> m != raw)
  {
    var raw := RawMoveInput(SelectsGamepad(input.gamepad, c.deadzone), input, c.deadzone);
    var t := input.dt * SmoothingRate;
    var m := Step(c, s, input).moveInput;
    assert m == Lerp(s.smoothMoveInput, raw, t);
    if t < 1.0 {
      if s.smoothMoveInput.x != raw.x {
        LerpFallsShort(s.smoothMoveInput.x, raw.x, t);
      } else if s.smoothMoveInput.y != raw.y {
        LerpFallsShort(s.smoothMoveInput.y, raw.y, t);
      }
    }
  }

  // ---------------------------------------------------------------- vertical velocity

  /**
    The jump fires exactly when the character is grounded and the jump button of
    the selected device went down this frame: south on the gamepad, space on the
    keyboard.
   */
  lemma JumpCondition(c: Config, input: Snapshot)
    requires c.Valid()
    ensures var gamepad := SelectsGamepad(input.gamepad, c.deadzone);
      JumpFires(gamepad, input) <==>
        input.grounded &&
        (if gamepad then input.gamepad.value.southPressedThisFrame else input.spacePressedThisFrame)
  {
  }

  /** A south press is ignored while both sticks sit inside the deadzone (keyboard and mouse are selected). */
  lemma SouthIgnoredWhileSticksIdle(c: Config, s: State, input: Snapshot)
    requires c.Valid()
    requires input.gamepad.Some?
    requires SqrMagnitude(input.gamepad.value.leftStick) <= c.deadzone * c.deadzone
    requires SqrMagnitude(input.gamepad.value.rightStick) <= c.deadzone * c.deadzone
    requires !input.spacePressedThisFrame
    ensures !Step(c, s, input).next.usingGamepad
    ensures !JumpFires(Step(c, s, input).next.usingGamepad, input)
  {
  }

  /**
    On a frame with a jump, the vertical velocity becomes the root `v >= 0` with
    `v * v == jumpHeight * -2 * gravity`, and then gravity is applied once.
   */
  lemma JumpVelocity(c: Config, s: State, input: Snapshot)
    requires c.Valid()
    requires JumpFires(SelectsGamepad(input.gamepad, c.deadzone), input)
    ensures var v := Step(c, s, input).next.velocityY - c.gravity * input.dt;
      v >= 0.0 && v * v == c.jumpHeight * -2.0 * c.gravity
  {
  }

  /**
    On a frame without a jump: a grounded character that was falling ends the
    frame at `-2 + gravity * dt`; otherwise the vertical velocity grows by
    exactly `gravity * dt`.
   */
  lemma VelocityWithoutJump(c: Config, s: State, input: Snapshot)
    requires c.Valid()
    requires !JumpFires(SelectsGamepad(input.gamepad, c.deadzone), input)
    ensures var v := Step(c, s, input).next.velocityY;
      if input.grounded && s.velocityY < 0.0 then v == GroundStick + c.gravity * input.dt
      else v - s.velocityY == c.gravity * input.dt
  {
  }

  /** A frame with no jump-button press at all: nothing can trigger a jump. */
  predicate NoJumpPress(input: Snapshot) {
    !input.spacePressedThisFrame && (input.gamepad.Some? ==> !input.gamepad.value.southPressedThisFrame)
  }

  /** A grounded frame with no jump-button press and a non-negative `dt`. */
  predicate Resting(input: Snapshot) {
    input.grounded && NoJumpPress(input) && input.dt >= 0.0
  }

  /**
    While grounding is sustained and the jump button is held (or untouched, so
    it is never pressed again this frame), a falling character stays pinned:
    every frame ends at `-2 + gravity * dt` of that frame, which is again
    negative, so the next frame resets it the same way.
   */
  lemma {:induction false} SustainedGroundingPins(c: Config, s: State, inputs: seq<Snapshot>)
    requires c.Valid()
    requires s.velocityY < 0.0
    requires |inputs| > 0
    requires forall i | 0 <= i < |inputs| :: Resting(inputs[i])
    ensures Run(c, s, inputs).velocityY == GroundStick + c.gravity * inputs[|inputs| - 1].dt
    ensures Run(c, s, inputs).velocityY < 0.0
    decreases |inputs|
  {
    var first := inputs[0];
    assert Resting(first);
    var s' := Step(c, s, first).next;
    VelocityWithoutJump(c, s, first);
    assert c.gravity * first.dt <= 0.0 by {
      MulNonneg(-c.gravity, first.dt);
    }
    if |inputs| > 1 {
      var rest := inputs[1..];
      assert forall i | 0 <= i < |rest| :: Resting(rest[i]) by {
        forall i | 0 <= i < |rest| ensures Resting(rest[i]) {
          assert rest[i] == inputs[i + 1];
        }
      }
      SustainedGroundingPins(c, s', rest);
      assert rest[|rest| - 1] == inputs[|inputs| - 1];
    }
  }

  // ---------------------------------------------------------------- look

  /**
    Look scaling: the gamepad's look is the deadzoned right stick times the
    gamepad sensitivity and `dt`; the mouse's look is the delta times 0.1, the
    mouse sensitivity and `dt`. The yaw output is the look's x, which the state
    neither accumulates nor clamps.
   */
  lemma LookScaling(c: Config, s: State, input: Snapshot)
    requires c.Valid()
    ensures var look :=
        if SelectsGamepad(input.gamepad, c.deadzone) then
          Scale(ApplyDeadzone(input.gamepad.value.rightStick, c.deadzone), c.gamepadSensitivity * input.dt)
        else
          Scale(Scale(input.mouseDelta, MouseScale), c.mouseSensitivity * input.dt);
      && Step(c, s, input).yaw == look.x
      && Step(c, s, input).next.xRotation == Clamp(s.xRotation - look.y, -c.maxLookAngle, c.maxLookAngle)
  {
  }

  /** The yaw of a frame depends on the frame's input only, never on the carried state. */
  lemma YawNotAccumulated(c: Config, s1: State, s2: State, input: Snapshot)
    requires c.Valid()
    ensures Step(c, s1, input).yaw == Step(c, s2, input).yaw
  {
  }

  /**
    The pitch clamp: for any look input the pitch ends the frame within
    [-maxLookAngle, maxLookAngle]; when `xRotation - look.y` is already in that
    range the pitch decreases by exactly `look.y`, and otherwise it stops at the
    nearer bound.
   */
  lemma PitchStep(c: Config, s: State, input: Snapshot)
    requires c.Valid()
    ensures var look := LookInput(SelectsGamepad(input.gamepad, c.deadzone), input, c);
      var p := Step(c, s, input).next.xRotation;
      var want := s.xRotation - look.y;
      && -c.maxLookAngle <= p <= c.maxLookAngle
      && (-c.maxLookAngle <= want <= c.maxLookAngle ==> s.xRotation - p == look.y)
      && (want > c.maxLookAngle ==> p == c.maxLookAngle)
      && (want < -c.maxLookAngle ==> p == -c.maxLookAngle)
  {
  }

  /** Over any sequence of frames, however large the look inputs, the pitch stays within the clamp. */
  lemma {:induction false} PitchStaysClamped(c: Config, s: State, inputs: seq<Snapshot>)
    requires c.Valid()
    requires -c.maxLookAngle <= s.xRotation <= c.maxLookAngle
    ensures -c.maxLookAngle <= Run(c, s, inputs).xRotation <= c.maxLookAngle
    decreases |inputs|
  {
    if inputs != [] {
      PitchStaysClamped(c, Step(c, s, inputs[0]).next, inputs[1..]);
    }
  }

  // ---------------------------------------------------------------- smoothing over many frames

  /** `Between` chains: a point between `a` and `x`, where `x` is between `a` and `b`, is between `a` and `b`. */
  lemma BetweenChain(a: real, x: real, y: real, b: real)
    requires Between(a, x, b) && Between(x, y, b)
    ensures Between(a, y, b)
  {
  }

  /**
    Holding the same input for `n` frames smooths the planar input exactly as
    `n` repeated interpolations towards that frame's raw input.
   */
  lemma {:induction false} RunSmoothsByLerp(c: Config, s: State, input: Snapshot, n: nat)
    requires c.Valid()
    ensures Run(c, s, Repeat(input, n)).smoothMoveInput ==
      SmoothIter(s.smoothMoveInput, RawMoveInput(SelectsGamepad(input.gamepad, c.deadzone), input, c.deadzone),
                 input.dt * SmoothingRate, n)
    decreases n
  {
    if n > 0 {
      var s' := Step(c, s, input).next;
      var inputs := Repeat(input, n);
      assert inputs[0] == input && inputs[1..] == Repeat(input, n - 1);
      assert Run(c, s, inputs) == Run(c, s', Repeat(input, n - 1));
      RunSmoothsByLerp(c, s', input, n - 1);
    }
  }

  /** Repeated interpolation never passes its target: every iterate lies between the start and the target. */
  lemma {:induction false} SmoothIterBetween(m: Vec2, raw: Vec2, t: real, n: nat)
    ensures Between(m.x, SmoothIter(m, raw, t, n).x, raw.x)
    ensures Between(m.y, SmoothIter(m, raw, t, n).y, raw.y)
    decreases n
  {
    if n > 0 {
      var m' := Lerp(m, raw, t);
      var last := SmoothIter(m', raw, t, n - 1);
      assert SmoothIter(m, raw, t, n) == last;
      SmoothIterBetween(m', raw, t, n - 1);
      BetweenChain(m.x, m'.x, last.x, raw.x);
      BetweenChain(m.y, m'.y, last.y, raw.y);
    }
  }

  /** Each further interpolation lies between the previous iterate and the target. */
  lemma {:induction false} SmoothIterMonotone(m: Vec2, raw: Vec2, t: real, n: nat)
    ensures Between(SmoothIter(m, raw, t, n).x, SmoothIter(m, raw, t, n + 1).x, raw.x)
    ensures Between(SmoothIter(m, raw, t, n).y, SmoothIter(m, raw, t, n + 1).y, raw.y)
    decreases n
  {
    var m' := Lerp(m, raw, t);
    assert SmoothIter(m, raw, t, n + 1) == SmoothIter(m', raw, t, n);
    if n > 0 {
      assert SmoothIter(m, raw, t, n) == SmoothIter(m', raw, t, n - 1);
      SmoothIterMonotone(m', raw, t, n - 1);
    } else {
      assert SmoothIter(m', raw, t, 0) == m';
    }
  }

  /**
    Holding the same input, the smoothed input never overshoots: after any number
    of frames each component lies between its starting value and the raw input.
   */
  lemma SmoothingNoOvershoot(c: Config, s: State, input: Snapshot, n: nat)
    requires c.Valid()
    ensures var raw := RawMoveInput(SelectsGamepad(input.gamepad, c.deadzone), input, c.deadzone);
      var m := Run(c, s, Repeat(input, n)).smoothMoveInput;
      Between(s.smoothMoveInput.x, m.x, raw.x) && Between(s.smoothMoveInput.y, m.y, raw.y)
  {
    var raw := RawMoveInput(SelectsGamepad(input.gamepad, c.deadzone), input, c.deadzone);
    RunSmoothsByLerp(c, s, input, n);
    SmoothIterBetween(s.smoothMoveInput, raw, input.dt * SmoothingRate, n);
  }

  /**
    Holding the same input, the smoothed input approaches the raw input
    monotonically: each further frame keeps the gap's sign and never widens it.
   */
  lemma SmoothingMonotone(c: Config, s: State, input: Snapshot, n: nat)
    requires c.Valid()
    ensures var raw := RawMoveInput(SelectsGamepad(input.gamepad, c.deadzone), input, c.deadzone);
      var before := Run(c, s, Repeat(input, n)).smoothMoveInput;
      var after := Run(c, s, Repeat(input, n + 1)).smoothMoveInput;
      Between(before.x, after.x, raw.x) && Between(before.y, after.y, raw.y)
  {
    var raw := RawMoveInput(SelectsGamepad(input.gamepad, c.deadzone), input, c.deadzone);
    RunSmoothsByLerp(c, s, input, n);
    RunSmoothsByLerp(c, s, input, n + 1);
    SmoothIterMonotone(s.smoothMoveInput, raw, input.dt * SmoothingRate, n);
  }
}
