/**
 * The camera and the triple framebuffer of the scene viewer running on Nyuzi
 * (sw/nyuzi_sw/software/apps/scene_viewer/SceneView.cpp, fields and enums in SceneView.h).
 *
 * Angles are reals and the camera vectors are triples of reals. The trigonometric functions
 * and `Vec3::normalized` are not interpreted: they are handed to the view as a `Math`
 * record of function values, so every statement below holds whatever they compute.
 */
module Scene {
  import opened Wrappers

  /** `M_PI`. */
  const PI: real := 3.14159265358979323846
  const TWO_PI: real := 2.0 * PI

  /** The distance of the orbiting camera from the object (`CAMERA_DISTANCE_OFFSET`). */
  const CAMERA_DISTANCE_OFFSET: real := 6.0

  datatype Vec3 = Vec3(x: real, y: real, z: real)
  {
    function Plus(o: Vec3): Vec3 { Vec3(x + o.x, y + o.y, z + o.z) }
    function Minus(o: Vec3): Vec3 { Vec3(x - o.x, y - o.y, z - o.z) }
    function Scale(k: real): Vec3 { Vec3(x * k, y * k, z * k) }
  }

  const ORIGIN: Vec3 := Vec3(0.0, 0.0, 0.0)
  const UP_Y: Vec3 := Vec3(0.0, 1.0, 0.0)
  const DOWN_Y: Vec3 := Vec3(0.0, -1.0, 0.0)

  /** `dir_t`. */
  datatype Dir = DirNone | DirUp | DirDown | DirLeft | DirRight | DirUpLeft | DirUpRight | DirDownLeft | DirDownRight

  /** `fb_t`: which of the three framebuffers is shown next; `FbNull` names none. */
  datatype Fb = FbNull | Fb1 | Fb2 | Fb3

  /** The numeric library the view calls: `sin`, `cos` and `Vec3::normalized`. */
  datatype Math = Math(sin: real -> real, cos: real -> real, normalized: Vec3 -> Vec3)

  /** The camera state: `fTheta`, `fPsi` and the three `lookAtArgs` vectors. */
  datatype Camera = Camera(theta: real, psi: real, location: Vec3, lookAt: Vec3, up: Vec3)

  /** The camera `resetCamera` installs, whatever the state before. */
  const RESET_POSE: Camera :=
    Camera(0.1, 0.1, Vec3(CAMERA_DISTANCE_OFFSET, CAMERA_DISTANCE_OFFSET, 0.0), ORIGIN, UP_Y)

  predicate InRange(angle: real) {
    0.0 <= angle < TWO_PI
  }

  /** `a` and `b` are the same angle, up to one full turn either way. */
  predicate SameAngle(a: real, b: real) {
    a == b || a == b + TWO_PI || a == b - TWO_PI
  }

  /** The adjustment after each angle update: one full turn added below 0, or taken off at 2π
   *  and above. It lands in [0, 2π) whenever the angle left that range by less than a turn. */
  function Wrap(angle: real): (r: real)
    ensures -TWO_PI <= angle < 2.0 * TWO_PI ==> InRange(r)
    ensures InRange(angle) ==> r == angle
  {
    if angle < 0.0 then angle + TWO_PI
    else if angle >= TWO_PI then angle - TWO_PI
    else angle
  }

  /** Wrapping keeps the angle, up to a full turn; it lands in [0, 2π) whenever the angle left
   *  that range by less than a turn, and leaves an angle already in range alone. */
  lemma WrapSpec(angle: real)
    ensures SameAngle(Wrap(angle), angle)
    ensures -TWO_PI <= angle < 2.0 * TWO_PI ==> InRange(Wrap(angle))
    ensures InRange(angle) ==> Wrap(angle) == angle
  {
  }

  /** The up vector `rotate` chooses: the camera is upside down between π/2 and 3π/2. */
  function UpFor(psi: real): Vec3 {
    if psi < PI / 2.0 || psi >= 3.0 * PI / 2.0 then UP_Y else DOWN_Y
  }

  /** An angle after a step of `delta` that direction `inc` adds and direction `dec` takes off. */
  function Stepped(angle: real, dir: Dir, delta: real, inc: Dir, dec: Dir): real {
    if dir == inc then angle + delta else if dir == dec then angle - delta else angle
  }

  /** The camera position on the sphere of radius CAMERA_DISTANCE_OFFSET around the object. */
  function Orbit(theta: real, psi: real, m: Math): Vec3 {
    Vec3(m.cos(psi) * m.sin(theta) * CAMERA_DISTANCE_OFFSET,
         m.sin(psi) * CAMERA_DISTANCE_OFFSET,
         m.cos(psi) * m.cos(theta) * CAMERA_DISTANCE_OFFSET)
  }

  /** `rotate(h, v, delta)`: orbit the object. RIGHT adds `delta` to theta and LEFT takes it
   *  off, UP adds it to psi and DOWN takes it off; both angles are brought back into [0, 2π),
   *  the camera sits on the orbit and looks at the origin. */
  function Rotated(c: Camera, h: Dir, v: Dir, delta: real, m: Math): (r: Camera)
    ensures r.lookAt == ORIGIN && r.up == UpFor(r.psi)
  {
    var theta := Wrap(Stepped(c.theta, h, delta, DirRight, DirLeft));
    var psi := Wrap(Stepped(c.psi, v, delta, DirUp, DirDown));
    Camera(theta, psi, Orbit(theta, psi, m), ORIGIN, UpFor(psi))
  }

  /** What `rotate` promises: each angle moves by `delta` in the direction's sense (up to a
   *  full turn), any other direction leaves it, both stay in [0, 2π) for a step below a full
   *  turn, and the camera is on the orbit, looking at the origin, upright iff psi is within
   *  a quarter turn of level. */
  lemma RotateSpec(c: Camera, h: Dir, v: Dir, delta: real, m: Math)
    ensures var r := Rotated(c, h, v, delta, m);
      && (h == DirRight ==> SameAngle(r.theta, c.theta + delta))
      && (h == DirLeft ==> SameAngle(r.theta, c.theta - delta))
      && (h != DirRight && h != DirLeft ==> SameAngle(r.theta, c.theta))
      && (v == DirUp ==> SameAngle(r.psi, c.psi + delta))
      && (v == DirDown ==> SameAngle(r.psi, c.psi - delta))
      && (v != DirUp && v != DirDown ==> SameAngle(r.psi, c.psi))
      && (InRange(c.theta) && InRange(c.psi) && 0.0 <= delta < TWO_PI ==> InRange(r.theta) && InRange(r.psi))
      && (InRange(c.theta) && h != DirRight && h != DirLeft ==> r.theta == c.theta)
      && (InRange(c.psi) && v != DirUp && v != DirDown ==> r.psi == c.psi)
      && r.location == Orbit(r.theta, r.psi, m)
      && r.lookAt == ORIGIN
      && (r.up == UP_Y <==> r.psi < PI / 2.0 || r.psi >= 3.0 * PI / 2.0)
      && (r.up == DOWN_Y <==> PI / 2.0 <= r.psi < 3.0 * PI / 2.0)
  {
  }

  /** The viewing direction `turn` sets: far away at heading theta, at the orbit's height. */
  function Heading(theta: real, m: Math): Vec3 {
    Vec3(m.sin(theta) * 1000.0, CAMERA_DISTANCE_OFFSET, m.cos(theta) * 1000.0)
  }

  /** `turn(dir, angle)`: the opposite sense to `rotate` (LEFT adds, RIGHT takes off), then
   *  the camera looks along the new heading; position, psi and the up vector stay. */
  function Turned(c: Camera, dir: Dir, angle: real, m: Math): (r: Camera)
    ensures InRange(c.theta) && 0.0 <= angle < TWO_PI ==> InRange(r.theta)
    ensures r.psi == c.psi && r.location == c.location && r.up == c.up
  {
    var theta := Wrap(Stepped(c.theta, dir, angle, DirLeft, DirRight));
    c.(theta := theta, lookAt := Heading(theta, m))
  }

  /** What `turn` promises: theta moves by `angle` in the direction's sense and stays in
   *  [0, 2π), an angle of 0 leaves it, the look-at point is at the orbit's height, and
   *  nothing else changes. */
  lemma TurnSpec(c: Camera, dir: Dir, angle: real, m: Math)
    ensures var r := Turned(c, dir, angle, m);
      && (dir == DirRight ==> SameAngle(r.theta, c.theta - angle))
      && (dir == DirLeft ==> SameAngle(r.theta, c.theta + angle))
      && (dir != DirRight && dir != DirLeft ==> SameAngle(r.theta, c.theta))
      && (InRange(c.theta) && 0.0 <= angle < TWO_PI ==> InRange(r.theta))
      && (InRange(c.theta) && angle == 0.0 ==> r.theta == c.theta)
      && r.lookAt == Heading(r.theta, m) && r.lookAt.y == CAMERA_DISTANCE_OFFSET
      && r == c.(theta := r.theta, lookAt := r.lookAt)
  {
  }

  /** `move(dir, step)`: UP steps forward along the normalised viewing direction, DOWN steps
   *  back, anything else stands still; only the position changes. */
  function Moved(c: Camera, dir: Dir, step: real, m: Math): (r: Camera)
    ensures r == c.(location := r.location)
    ensures dir != DirUp && dir != DirDown ==> r == c
  {
    if dir == DirUp then c.(location := c.location.Plus(m.normalized(c.lookAt).Scale(step)))
    else if dir == DirDown then c.(location := c.location.Minus(m.normalized(c.lookAt).Scale(step)))
    else c
  }

  /** A step forward and the same step back return the camera to where it was. */
  lemma MoveUpThenDown(c: Camera, step: real, m: Math)
    ensures Moved(Moved(c, DirUp, step, m), DirDown, step, m) == c
  {
    var fwd := Moved(c, DirUp, step, m);
    assert fwd.lookAt == c.lookAt;
  }

  /** Within range, `turn` RIGHT agrees with `rotate` LEFT on theta and `turn` LEFT with
   *  `rotate` RIGHT: the two operations turn the heading in opposite senses. */
  lemma TurnOppositeToRotate(c: Camera, angle: real, m: Math)
    requires InRange(c.theta) && 0.0 <= angle < TWO_PI
    ensures Turned(c, DirRight, angle, m).theta == Rotated(c, DirLeft, DirNone, angle, m).theta
    ensures Turned(c, DirLeft, angle, m).theta == Rotated(c, DirRight, DirNone, angle, m).theta
  {
  }

  /** The reset pose keeps both angles in range and its up vector is the one `rotate` would
   *  choose for its psi, so a reset camera is a pose an orbit can continue from. */
  lemma ResetPoseConsistent()
    ensures InRange(RESET_POSE.theta) && InRange(RESET_POSE.psi)
    ensures RESET_POSE.up == UpFor(RESET_POSE.psi)
    ensures RESET_POSE.lookAt == ORIGIN
  {
  }

  /** The framebuffer the next `render` shows after the current one: 1, 2, 3, 1, ... */
  function NextFb(f: Fb): (r: Fb)
    ensures r == FbNull <==> f == FbNull
    ensures f != FbNull ==> r != f
  {
    match f
    case FbNull => FbNull
    case Fb1 => Fb2
    case Fb2 => Fb3
    case Fb3 => Fb1
  }

  /** The framebuffer `render` hands to `switch_fb` when `f` is current, if any. */
  function Shown(f: Fb): (r: Option<Fb>)
    ensures r.None? <==> f == FbNull
    ensures r.Some? ==> r.value == f && NextFb(f) != r.value
  {
    if f == FbNull then None else Some(f)
  }

  /** The value of `eCurrentRenderFB` after `n` renders starting from `f`. */
  function AfterRenders(f: Fb, n: nat): Fb {
    if n == 0 then f else NextFb(AfterRenders(f, n - 1))
  }

  /** Started on a real framebuffer, the rotation never reaches `FbNull` and repeats every
   *  three renders. */
  lemma {:induction false} FbCycle(f: Fb, n: nat)
    requires f != FbNull
    ensures AfterRenders(f, n) != FbNull
    ensures AfterRenders(f, n + 3) == AfterRenders(f, n)
  {
    if n == 0 {
      assert AfterRenders(f, 3) == NextFb(NextFb(NextFb(f)));
    } else {
      FbCycle(f, n - 1);
    }
  }

  /** The view: the camera fields, the framebuffer to show next and the colour buffer the
   *  render target draws into (`FbNull` before `start` binds the first one). */
  class SceneView {
    var theta: real
    var psi: real
    var location: Vec3
    var lookAt: Vec3
    var up: Vec3
    var currentFb: Fb
    var renderTarget: Fb
    const math: Math

    function Cam(): Camera
      reads this
    {
      Camera(theta, psi, location, lookAt, up)
    }

    constructor(math: Math)
      ensures Cam() == Camera(0.1, 0.1, ORIGIN, ORIGIN, UP_Y)
      ensures currentFb == Fb1 && renderTarget == FbNull && this.math == math
    {
      theta := 0.1;
      psi := 0.1;
      location := ORIGIN;
      lookAt := ORIGIN;
      up := UP_Y;
      currentFb := Fb1;
      renderTarget := FbNull;
      this.math := math;
    }

    /** The camera and framebuffer part of `start`: reset the camera, draw into buffer 1. */
    method Start()
      modifies this
      ensures Cam() == RESET_POSE
      ensures currentFb == old(currentFb) && renderTarget == Fb1
    {
      ResetCamera();
      renderTarget := Fb1;
    }

    /** The framebuffer rotation of `render`: show the current buffer (the `switch_fb`
     *  argument, `None` when there is none) and draw the next frame into the next one, which
     *  is therefore never the buffer on screen. */
    method Render() returns (shown: Option<Fb>)
      modifies this
      ensures Cam() == old(Cam())
      ensures shown == Shown(old(currentFb))
      ensures currentFb == NextFb(old(currentFb))
      ensures renderTarget == (if old(currentFb) == FbNull then old(renderTarget) else currentFb)
      ensures shown.Some? ==> renderTarget != shown.value
    {
      shown := None;
      if currentFb == Fb1 {
        shown := Some(Fb1);
        currentFb := Fb2;
        renderTarget := Fb2;
      } else if currentFb == Fb2 {
        shown := Some(Fb2);
        currentFb := Fb3;
        renderTarget := Fb3;
      } else if currentFb == Fb3 {
        shown := Some(Fb3);
        currentFb := Fb1;
        renderTarget := Fb1;
      }
    }

    method Rotate(h: Dir, v: Dir, delta: real)
      modifies this
      ensures Cam() == Rotated(old(Cam()), h, v, delta, math)
      ensures currentFb == old(currentFb) && renderTarget == old(renderTarget)
    {
      RotateTheta(h, delta);
      RotatePsi(v, delta);
      location := Vec3(math.cos(psi) * math.sin(theta) * CAMERA_DISTANCE_OFFSET,
                       math.sin(psi) * CAMERA_DISTANCE_OFFSET,
                       math.cos(psi) * math.cos(theta) * CAMERA_DISTANCE_OFFSET);
      lookAt := ORIGIN;
      if psi < PI / 2.0 || psi >= 3.0 * PI / 2.0 {
        up := UP_Y;
      } else {
        up := DOWN_Y;
      }
    }

    /** The horizontal half of `rotate`: step theta, then bring it back into range. */
    method RotateTheta(h: Dir, delta: real)
      modifies this
      ensures theta == Wrap(Stepped(old(theta), h, delta, DirRight, DirLeft))
      ensures Cam() == old(Cam()).(theta := theta)
      ensures currentFb == old(currentFb) && renderTarget == old(renderTarget)
    {
      if h == DirRight {
        theta := theta + delta;
      } else if h == DirLeft {
        theta := theta - delta;
      }
      // two independent tests; the second can never fire after the first
      if theta < 0.0 {
        theta := theta + TWO_PI;
      }
      if theta >= TWO_PI {
        theta := theta - TWO_PI;
      }
    }

    /** The vertical half of `rotate`: step psi, then bring it back into range. */
    method RotatePsi(v: Dir, delta: real)
      modifies this
      ensures psi == Wrap(Stepped(old(psi), v, delta, DirUp, DirDown))
      ensures Cam() == old(Cam()).(psi := psi)
      ensures currentFb == old(currentFb) && renderTarget == old(renderTarget)
    {
      if v == DirUp {
        psi := psi + delta;
      } else if v == DirDown {
        psi := psi - delta;
      }
      if psi < 0.0 {
        psi := psi + TWO_PI;
      } else if psi >= TWO_PI {
        psi := psi - TWO_PI;
      }
    }

    method Move(dir: Dir, step: real)
      modifies this
      ensures Cam() == Moved(old(Cam()), dir, step, math)
      ensures currentFb == old(currentFb) && renderTarget == old(renderTarget)
    {
      if dir == DirUp {
        location := location.Plus(math.normalized(lookAt).Scale(step));
      } else if dir == DirDown {
        location := location.Minus(math.normalized(lookAt).Scale(step));
      }
    }

    method Turn(dir: Dir, angle: real)
      modifies this
      ensures Cam() == Turned(old(Cam()), dir, angle, math)
      ensures currentFb == old(currentFb) && renderTarget == old(renderTarget)
    {
      if dir == DirRight {
        theta := theta - angle;
      } else if dir == DirLeft {
        theta := theta + angle;
      }
      if theta < 0.0 {
        theta := theta + TWO_PI;
      } else if theta >= TWO_PI {
        theta := theta - TWO_PI;
      }
      assert theta == Wrap(Stepped(old(theta), dir, angle, DirLeft, DirRight));
      lookAt := Vec3(math.sin(theta) * 1000.0, CAMERA_DISTANCE_OFFSET, math.cos(theta) * 1000.0);
    }

    /** Resets the camera to RESET_POSE, whatever it was; a second reset changes nothing. */
    method ResetCamera()
      modifies this
      ensures Cam() == RESET_POSE
      ensures currentFb == old(currentFb) && renderTarget == old(renderTarget)
    {
      theta := 0.1;
      psi := 0.1;
      location := Vec3(CAMERA_DISTANCE_OFFSET, CAMERA_DISTANCE_OFFSET, 0.0);
      lookAt := ORIGIN;
      up := UP_Y;
    }
  }
}
