/** The first-person camera of cpp/10/shadows/src/Camera.cpp. Positions and
    directions are idealised over `real`. glm::rotate is trigonometry this
    model leaves out: MouseLook takes it as a function parameter, and the
    only fact assumed about it (by the lemmas that need it) is that a
    rotation by zero radians is the identity. */
module Cameras {
  import opened Linear

  /** A mouse sample as glm::vec2 holds it. */
  datatype Vec2 = Vec2(x: real, y: real)

  datatype Camera = Camera(eye: Vec3, view: Vec3, up: Vec3, oldMouse: Vec2)

  /** glm::rotate(v, angle, axis), supplied by the caller. */
  type Rotation = (Vec3, real, Vec3) -> Vec3

  /** A rotation function that leaves every vector alone at angle zero. */
  ghost predicate ZeroAngleIsIdentity(rotate: Rotation) {
    forall v: Vec3, axis: Vec3 {:trigger rotate(v, 0.0, axis)} :: rotate(v, 0.0, axis) == v
  }

  /** The program-wide `static bool firstLook` inside MouseLook: one flag
      shared by every camera. */
  datatype LookState = LookState(firstLook: bool)

  /** The flag's value before the first MouseLook of the program. */
  const ProgramStart: LookState := LookState(true)

  /** The value of pi glm::radians uses, to double precision. */
  const PI: real := 3.14159265358979323846

  /** glm::radians. */
  function Radians(degrees: real): (r: real)
    ensures degrees == 0.0 ==> r == 0.0
  {
    degrees * PI / 180.0
  }

  /** The mouse sensitivity MouseLook scales both deltas by. */
  const Sensitivity: real := 0.2

  /** Camera::Camera(): eye at the origin, looking down -z, up along +y. The
      previous mouse sample is not initialised by the constructor; its
      indeterminate value is a parameter. */
  function New(indeterminateMouse: Vec2): (c: Camera)
    ensures c.eye == Vec3(0.0, 0.0, 0.0)
    ensures c.view == Vec3(0.0, 0.0, -1.0)
    ensures c.up == Vec3(0.0, 1.0, 0.0)
  {
    Camera(Vec3(0.0, 0.0, 0.0), Vec3(0.0, 0.0, -1.0), Vec3(0.0, 1.0, 0.0), indeterminateMouse)
  }

  /** Camera::MouseLook. On the first call of the program the previous sample
      is overwritten with the new one, so the delta is zero. The view turns
      about the up vector by the scaled horizontal delta, then about
      view x up by the scaled vertical delta. The returned flag is always
      cleared and the new sample is remembered. */
  function MouseLook(c: Camera, s: LookState, mouseX: int, mouseY: int, rotate: Rotation): (r: (Camera, LookState))
    ensures !r.1.firstLook
    ensures r.0.oldMouse == Vec2(mouseX as real, mouseY as real)
    ensures r.0.eye == c.eye && r.0.up == c.up
  {
    var newMouse := Vec2(mouseX as real, mouseY as real);
    var previous := if s.firstLook then newMouse else c.oldMouse;
    var dx := (previous.x - newMouse.x) * Sensitivity;
    var dy := (previous.y - newMouse.y) * Sensitivity;
    var turned := rotate(c.view, Radians(dx), c.up);
    var right := Cross(turned, c.up);
    var view := rotate(turned, Radians(dy), right);
    (c.(view := view, oldMouse := newMouse), LookState(false))
  }

  /** The first MouseLook of the program leaves the view where it was. */
  lemma FirstMouseLookKeepsView(c: Camera, mouseX: int, mouseY: int, rotate: Rotation)
    requires ZeroAngleIsIdentity(rotate)
    ensures MouseLook(c, ProgramStart, mouseX, mouseY, rotate).0 == c.(oldMouse := Vec2(mouseX as real, mouseY as real))
  {
    var turned := rotate(c.view, 0.0, c.up);
    assert turned == c.view;
    assert rotate(turned, 0.0, Cross(turned, c.up)) == turned;
  }

  /** Camera::MoveForward: the eye advances by speed times the view. */
  function MoveForward(c: Camera, speed: real): (r: Camera)
    ensures r.view == c.view && r.up == c.up && r.oldMouse == c.oldMouse
    ensures r.eye.Minus(c.eye) == c.view.Times(speed)
  {
    c.(eye := c.eye.Plus(c.view.Times(speed)))
  }

  /** Camera::MoveBackward: the eye retreats by speed times the view. */
  function MoveBackward(c: Camera, speed: real): (r: Camera)
    ensures r.view == c.view && r.up == c.up && r.oldMouse == c.oldMouse
    ensures c.eye.Minus(r.eye) == c.view.Times(speed)
  {
    c.(eye := c.eye.Minus(c.view.Times(speed)))
  }

  /** The horizontal strafe step: view x up with its y component dropped,
      scaled by speed. */
  function Strafe(c: Camera, speed: real): (d: Vec3)
    ensures d.y == 0.0
  {
    var right := Cross(c.view, c.up);
    Vec3(right.x, 0.0, right.z).Times(speed)
  }

  /** Camera::MoveLeft: the eye moves against the strafe direction. */
  function MoveLeft(c: Camera, speed: real): (r: Camera)
    ensures r.view == c.view && r.up == c.up && r.oldMouse == c.oldMouse
    ensures r.eye.y == c.eye.y
    ensures c.eye.Minus(r.eye) == Strafe(c, speed)
  {
    c.(eye := c.eye.Minus(Strafe(c, speed)))
  }

  /** Camera::MoveRight: the eye moves along the strafe direction. */
  function MoveRight(c: Camera, speed: real): (r: Camera)
    ensures r.view == c.view && r.up == c.up && r.oldMouse == c.oldMouse
    ensures r.eye.y == c.eye.y
    ensures r.eye.Minus(c.eye) == Strafe(c, speed)
  {
    c.(eye := c.eye.Plus(Strafe(c, speed)))
  }

  /** Camera::MoveUp: only the eye's y changes, by +speed. */
  function MoveUp(c: Camera, speed: real): (r: Camera)
    ensures r.view == c.view && r.up == c.up && r.oldMouse == c.oldMouse
    ensures r.eye.x == c.eye.x && r.eye.z == c.eye.z && r.eye.y - c.eye.y == speed
  {
    c.(eye := c.eye.(y := c.eye.y + speed))
  }

  /** Camera::MoveDown: only the eye's y changes, by -speed. */
  function MoveDown(c: Camera, speed: real): (r: Camera)
    ensures r.view == c.view && r.up == c.up && r.oldMouse == c.oldMouse
    ensures r.eye.x == c.eye.x && r.eye.z == c.eye.z && c.eye.y - r.eye.y == speed
  {
    c.(eye := c.eye.(y := c.eye.y - speed))
  }

  /** Camera::SetCameraEyePosition: the eye is set exactly. */
  function SetCameraEyePosition(c: Camera, x: real, y: real, z: real): (r: Camera)
    ensures GetEyeXPosition(r) == x && GetEyeYPosition(r) == y && GetEyeZPosition(r) == z
    ensures r.view == c.view && r.up == c.up && r.oldMouse == c.oldMouse
  {
    c.(eye := Vec3(x, y, z))
  }

  function GetEyeXPosition(c: Camera): real { c.eye.x }
  function GetEyeYPosition(c: Camera): real { c.eye.y }
  function GetEyeZPosition(c: Camera): real { c.eye.z }
  function GetViewXDirection(c: Camera): real { c.view.x }
  function GetViewYDirection(c: Camera): real { c.view.y }
  function GetViewZDirection(c: Camera): real { c.view.z }

  /** Forward then backward by the same speed restores the camera. */
  lemma ForwardBackwardInverse(c: Camera, speed: real)
    ensures MoveBackward(MoveForward(c, speed), speed) == c
    ensures MoveForward(MoveBackward(c, speed), speed) == c
  {
  }

  /** Left and right by the same speed undo each other. */
  lemma LeftRightInverse(c: Camera, speed: real)
    ensures MoveLeft(MoveRight(c, speed), speed) == c
    ensures MoveRight(MoveLeft(c, speed), speed) == c
  {
  }

  /** Up and down by the same speed undo each other. */
  lemma UpDownInverse(c: Camera, speed: real)
    ensures MoveDown(MoveUp(c, speed), speed) == c
    ensures MoveUp(MoveDown(c, speed), speed) == c
  {
  }

  /** From the initial camera, MoveRight(s) moves the eye by exactly (s, 0, 0). */
  lemma InitialMoveRight(mouse: Vec2, speed: real)
    ensures MoveRight(New(mouse), speed).eye == Vec3(speed, 0.0, 0.0)
  {
    var c := New(mouse);
    assert Cross(c.view, c.up) == Vec3(1.0, 0.0, 0.0);
    assert Strafe(c, speed) == Vec3(1.0 * speed, 0.0 * speed, 0.0 * speed);
  }

  /** Every camera operation, as one input a program may issue. */
  datatype CameraOp =
    | Look(mouseX: int, mouseY: int)
    | Forward(fs: real) | Backward(bs: real)
    | Left(ls: real) | Right(rs: real)
    | Up(us: real) | Down(ds: real)
    | SetEye(x: real, y: real, z: real)

  function Step(c: Camera, s: LookState, op: CameraOp, rotate: Rotation): (Camera, LookState) {
    match op
    case Look(mx, my) => MouseLook(c, s, mx, my, rotate)
    case Forward(v) => (MoveForward(c, v), s)
    case Backward(v) => (MoveBackward(c, v), s)
    case Left(v) => (MoveLeft(c, v), s)
    case Right(v) => (MoveRight(c, v), s)
    case Up(v) => (MoveUp(c, v), s)
    case Down(v) => (MoveDown(c, v), s)
    case SetEye(x, y, z) => (SetCameraEyePosition(c, x, y, z), s)
  }

  function Run(c: Camera, s: LookState, ops: seq<CameraOp>, rotate: Rotation): (Camera, LookState)
    decreases |ops|
  {
    if ops == [] then (c, s) else
      var next := Step(c, s, ops[0], rotate);
      Run(next.0, next.1, ops[1..], rotate)
  }

  /** No sequence of camera operations ever changes the up vector. */
  lemma {:induction false} RunKeepsUp(c: Camera, s: LookState, ops: seq<CameraOp>, rotate: Rotation)
    ensures Run(c, s, ops, rotate).0.up == c.up
    decreases |ops|
  {
    if ops != [] {
      var next := Step(c, s, ops[0], rotate);
      RunKeepsUp(next.0, next.1, ops[1..], rotate);
    }
  }
}

/** The earlier camera of cpp/7/stl_light/src/Camera.cpp, sharing the camera
    record above: it starts three units back, only moves along the view,
    and turns only about the up vector by the unscaled horizontal delta. */
module StlCameras {
  import opened Linear
  import C = Cameras

  /** Camera::Camera(): eye (0, 0, 3), looking down -z, up along +y. */
  function New(indeterminateMouse: C.Vec2): (c: C.Camera)
    ensures c.eye == Vec3(0.0, 0.0, 3.0)
    ensures c.view == Vec3(0.0, 0.0, -1.0)
    ensures c.up == Vec3(0.0, 1.0, 0.0)
  {
    C.Camera(Vec3(0.0, 0.0, 3.0), Vec3(0.0, 0.0, -1.0), Vec3(0.0, 1.0, 0.0), indeterminateMouse)
  }

  /** Camera::MouseLook: one rotation about the up vector by
      radians(old.x - new.x); the vertical delta is unused. */
  function MouseLook(c: C.Camera, s: C.LookState, mouseX: int, mouseY: int, rotate: C.Rotation): (r: (C.Camera, C.LookState))
    ensures !r.1.firstLook
    ensures r.0.oldMouse == C.Vec2(mouseX as real, mouseY as real)
    ensures r.0.eye == c.eye && r.0.up == c.up
  {
    var newMouse := C.Vec2(mouseX as real, mouseY as real);
    var previous := if s.firstLook then newMouse else c.oldMouse;
    (c.(view := rotate(c.view, C.Radians(previous.x - newMouse.x), c.up), oldMouse := newMouse), C.LookState(false))
  }

  /** The first MouseLook of the program leaves the view unchanged, and the
      vertical mouse position never affects the view. */
  lemma MouseLookFacts(c: C.Camera, s: C.LookState, mouseX: int, mouseY: int, otherY: int, rotate: C.Rotation)
    requires C.ZeroAngleIsIdentity(rotate)
    ensures MouseLook(c, C.ProgramStart, mouseX, mouseY, rotate).0.view == c.view
    ensures MouseLook(c, s, mouseX, mouseY, rotate).0.view == MouseLook(c, s, mouseX, otherY, rotate).0.view
  {
    assert rotate(c.view, 0.0, c.up) == c.view;
  }

  /** Camera::MoveForward: eye += view * speed, component by component. */
  function MoveForward(c: C.Camera, speed: real): (r: C.Camera)
    ensures r.view == c.view && r.up == c.up && r.oldMouse == c.oldMouse
    ensures r.eye.Minus(c.eye) == c.view.Times(speed)
  {
    c.(eye := Vec3(c.eye.x + c.view.x * speed, c.eye.y + c.view.y * speed, c.eye.z + c.view.z * speed))
  }

  /** Camera::MoveBackward: eye -= view * speed, component by component. */
  function MoveBackward(c: C.Camera, speed: real): (r: C.Camera)
    ensures r.view == c.view && r.up == c.up && r.oldMouse == c.oldMouse
    ensures c.eye.Minus(r.eye) == c.view.Times(speed)
  {
    c.(eye := Vec3(c.eye.x - c.view.x * speed, c.eye.y - c.view.y * speed, c.eye.z - c.view.z * speed))
  }

  /** Forward and backward by the same speed undo each other. */
  lemma ForwardBackwardInverse(c: C.Camera, speed: real)
    ensures MoveBackward(MoveForward(c, speed), speed) == c
    ensures MoveForward(MoveBackward(c, speed), speed) == c
  {
  }

  /** Camera::MoveLeft, MoveRight, MoveUp, MoveDown have empty bodies. */
  function MoveSideways(c: C.Camera, speed: real): (r: C.Camera)
    ensures r == c
  {
    c
  }

  /** Camera::SetCameraEyePosition: the eye is set exactly. */
  function SetCameraEyePosition(c: C.Camera, x: real, y: real, z: real): (r: C.Camera)
    ensures r.eye == Vec3(x, y, z)
    ensures r.view == c.view && r.up == c.up && r.oldMouse == c.oldMouse
  {
    c.(eye := Vec3(x, y, z))
  }
}
