/**
  What the controller reads from the Input System during one frame, gathered
  into one record. `Gamepad.current`, `Keyboard.current` and `Mouse.current`
  are polled by the engine; here their values for the frame are given.
 */
module InputSnapshot {
  import opened UnityMath

  datatype Option<+T> = None | Some(value: T)

  /** The state of `Gamepad.current` this frame, when a gamepad is connected. */
  datatype GamepadSnapshot = GamepadSnapshot(
    leftStick: Vec2,
    rightStick: Vec2,
    southPressedThisFrame: bool)

  /**
    One frame of input: the optional gamepad, the held W/A/S/D keys, the
    space key's press edge, the mouse delta, the ground contact reported by
    the character motor and `Time.deltaTime`.
   */
  datatype Snapshot = Snapshot(
    gamepad: Option<GamepadSnapshot>,
    wHeld: bool,
    aHeld: bool,
    sHeld: bool,
    dHeld: bool,
    spacePressedThisFrame: bool,
    mouseDelta: Vec2,
    grounded: bool,
    dt: real)
}
