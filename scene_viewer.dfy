/**
 * The renderer's main loop (sw/nyuzi_sw/software/apps/scene_viewer/scene_viewer.cpp): each
 * frame it renders, publishes the render time, reads `camera_actions` from the shared
 * memory database and turns the action bits into camera calls, switching between rotation
 * mode (orbit the object) and movement mode (turn and walk).
 *
 * The cache instructions (`dflush`, `dinvalidate`, `membar`) and the shared-memory accesses
 * are recorded as an event trace; the value read from `camera_actions` and the time `render`
 * measures are inputs of each frame.
 */
module SceneViewer {
  import opened Wrappers
  import opened Scene
  import SharedMem
  import RendererMem

  const ROTATION_SPEED: real := PI / 16.0
  const MOVEMENT_SPEED: real := 1.0

  type Word = SharedMem.Word

  /** The database as the renderer addresses it: SMDB_ADDR cut to 32 bits. */
  const SMDB: nat := RendererMem.Truncate32(RendererMem.SMDB_ADDR)
  const SMDB_SIZE: nat := SharedMem.SizeOf(RendererMem.SmdbLayout)
  const FRAME_RATE_ADDR: nat := SMDB + SharedMem.OffsetOf(RendererMem.SmdbLayout, 4)
  const CAMERA_ACTIONS_ADDR: nat := SMDB + SharedMem.OffsetOf(RendererMem.SmdbLayout, 5)

  /** The horizontal direction the action word asks for: left wins over right. */
  function Horizontal(actions: Word): (d: Dir)
    ensures d == DirLeft <==> RendererMem.ACTION_BIT_LEFT in actions
    ensures d == DirRight <==> RendererMem.ACTION_BIT_LEFT !in actions && RendererMem.ACTION_BIT_RIGHT in actions
    ensures d == DirNone <==> RendererMem.ACTION_BIT_LEFT !in actions && RendererMem.ACTION_BIT_RIGHT !in actions
  {
    if RendererMem.ACTION_BIT_LEFT in actions then DirLeft
    else if RendererMem.ACTION_BIT_RIGHT in actions then DirRight
    else DirNone
  }

  /** The vertical direction the action word asks for: up wins over down. */
  function Vertical(actions: Word): (d: Dir)
    ensures d == DirUp <==> RendererMem.ACTION_BIT_UP in actions
    ensures d == DirDown <==> RendererMem.ACTION_BIT_UP !in actions && RendererMem.ACTION_BIT_DOWN in actions
    ensures d == DirNone <==> RendererMem.ACTION_BIT_UP !in actions && RendererMem.ACTION_BIT_DOWN !in actions
  {
    if RendererMem.ACTION_BIT_UP in actions then DirUp
    else if RendererMem.ACTION_BIT_DOWN in actions then DirDown
    else DirNone
  }

  /** A call of the loop on the view. */
  datatype Call = Rotate(h: Dir, v: Dir, delta: real) | ResetCamera | Turn(dir: Dir, angle: real) | Move(dir: Dir, step: real)

  /** The loop's two flags: `rotation_mode` and `first_move`. */
  datatype Mode = Mode(rotation: bool, firstMove: bool)

  const INITIAL_MODE: Mode := Mode(false, true)

  /** The camera after one call. */
  function Effect(c: Camera, call: Call, m: Math): Camera {
    match call
    case Rotate(h, v, delta) => Rotated(c, h, v, delta, m)
    case ResetCamera => RESET_POSE
    case Turn(dir, angle) => Turned(c, dir, angle, m)
    case Move(dir, step) => Moved(c, dir, step, m)
  }

  /** The camera after a sequence of calls, made in order. */
  function Apply(c: Camera, calls: seq<Call>, m: Math): Camera {
    if calls == [] then c else Effect(Apply(c, calls[..|calls| - 1], m), calls[|calls| - 1], m)
  }

  /** Every `move` in the sequence happens while the camera has a viewing direction to
   *  normalise: `move` divides by the length of the look-at vector, which is 0 at the origin. */
  predicate MovesAlongHeading(c: Camera, calls: seq<Call>, m: Math) {
    calls == [] ||
      (MovesAlongHeading(c, calls[..|calls| - 1], m) &&
       (calls[|calls| - 1].Move? ==> Apply(c, calls[..|calls| - 1], m).lookAt != ORIGIN))
  }

  /** The movement branch: turn if left or right is set (left first), then walk if up or down
   *  is set (up first); the very first walk is preceded by `turn(DIR_LEFT, 0)`, which gives
   *  the camera a heading. Returns the calls and the new `first_move`. */
  function MovementCalls(actions: Word, firstMove: bool): (r: (seq<Call>, bool))
    ensures r.1 <==> firstMove && Horizontal(actions) == DirNone && Vertical(actions) == DirNone
    ensures Horizontal(actions) != DirNone ==> |r.0| > 0 && r.0[0] == Turn(Horizontal(actions), ROTATION_SPEED)
    ensures Vertical(actions) != DirNone ==> |r.0| > 0 && r.0[|r.0| - 1] == Move(Vertical(actions), MOVEMENT_SPEED)
    ensures Vertical(actions) == DirNone ==> forall k :: 0 <= k < |r.0| ==> !r.0[k].Move?
    ensures firstMove && Horizontal(actions) == DirNone && Vertical(actions) != DirNone ==>
      r.0 == [Turn(DirLeft, 0.0), Move(Vertical(actions), MOVEMENT_SPEED)]
    ensures forall k :: 0 <= k < |r.0| ==> r.0[k].Turn? || r.0[k].Move?
  {
    var h := Horizontal(actions);
    var turn := if h == DirNone then [] else [Turn(h, ROTATION_SPEED)];
    var armed := firstMove && h == DirNone;
    var v := Vertical(actions);
    if v == DirNone then (turn, armed)
    else (turn + (if armed then [Turn(DirLeft, 0.0)] else []) + [Move(v, MOVEMENT_SPEED)], false)
  }

  /** One frame's calls after reading `actions` in `mode`, and the next mode. With the rotate
   *  bit set the camera orbits (every frame, even with no direction); with it clear, the
   *  first frame after rotation mode resets the camera once, then the movement branch runs.
   *  `rearm` says whether that reset also arms `first_move` again. */
  function FrameCalls(actions: Word, mode: Mode, rearm: bool): (r: (seq<Call>, Mode))
    ensures RendererMem.ACTION_BIT_ROTATE in actions ==>
      r.0 == [Rotate(Horizontal(actions), Vertical(actions), ROTATION_SPEED)] &&
      r.1 == Mode(true, mode.firstMove)
    ensures RendererMem.ACTION_BIT_ROTATE !in actions ==>
      !r.1.rotation &&
      (ResetCamera in r.0 <==> mode.rotation) &&
      (mode.rotation ==> r.0[0] == ResetCamera && ResetCamera !in r.0[1..]) &&
      (forall k :: 0 <= k < |r.0| ==> !r.0[k].Rotate?)
  {
    if RendererMem.ACTION_BIT_ROTATE in actions then
      ([Rotate(Horizontal(actions), Vertical(actions), ROTATION_SPEED)], Mode(true, mode.firstMove))
    else
      var armed := if mode.rotation && rearm then true else mode.firstMove;
      var moves := MovementCalls(actions, armed);
      assert forall k :: 0 <= k < |moves.0| ==> moves.0[k] != ResetCamera;
      ((if mode.rotation then [ResetCamera] else []) + moves.0, Mode(false, moves.1))
  }

  /** The frame as the loop is written: leaving rotation mode resets the camera, whose
   *  look-at point is then the origin, but leaves `first_move` as it was. */
  function FrameAsWritten(actions: Word, mode: Mode): (r: (seq<Call>, Mode))
    ensures r.1.firstMove ==> mode.firstMove
  {
    FrameCalls(actions, mode, false)
  }

  /** The frame as evidently intended: the reset also arms `first_move`, so the next walk is
   *  again preceded by the zero turn that gives the camera a heading. */
  function Frame(actions: Word, mode: Mode): (r: (seq<Call>, Mode))
    ensures mode.rotation && RendererMem.ACTION_BIT_ROTATE !in actions ==>
      (r.1.firstMove <==> Horizontal(actions) == DirNone && Vertical(actions) == DirNone)
    ensures !mode.rotation || RendererMem.ACTION_BIT_ROTATE in actions ==> r == FrameAsWritten(actions, mode)
  {
    FrameCalls(actions, mode, true)
  }

  lemma {:induction false} ApplyAppend(c: Camera, s: seq<Call>, t: seq<Call>, m: Math)
    ensures Apply(c, s + t, m) == Apply(Apply(c, s, m), t, m)
    decreases |t|
  {
    if t == [] {
      assert s + t == s;
    } else {
      assert (s + t)[..|s + t| - 1] == s + t[..|t| - 1];
      ApplyAppend(c, s, t[..|t| - 1], m);
    }
  }

  lemma {:induction false} MovesAppend(c: Camera, s: seq<Call>, t: seq<Call>, m: Math)
    ensures MovesAlongHeading(c, s + t, m) <==>
      MovesAlongHeading(c, s, m) && MovesAlongHeading(Apply(c, s, m), t, m)
    decreases |t|
  {
    if t == [] {
      assert s + t == s;
    } else {
      assert (s + t)[..|s + t| - 1] == s + t[..|t| - 1];
      MovesAppend(c, s, t[..|t| - 1], m);
      ApplyAppend(c, s, t[..|t| - 1], m);
    }
  }

  /** The invariant that makes walking safe: outside rotation mode, once `first_move` is
   *  spent the camera looks along a heading (at the orbit's height, so not at the origin). */
  predicate HasHeading(c: Camera, mode: Mode) {
    !mode.rotation && !mode.firstMove ==> c.lookAt.y == CAMERA_DISTANCE_OFFSET
  }

  lemma MovementKeepsHeading(c: Camera, actions: Word, firstMove: bool, m: Math)
    requires !firstMove ==> c.lookAt.y == CAMERA_DISTANCE_OFFSET
    ensures var r := MovementCalls(actions, firstMove);
      MovesAlongHeading(c, r.0, m) &&
      (!r.1 ==> Apply(c, r.0, m).lookAt.y == CAMERA_DISTANCE_OFFSET)
  {
    var h := Horizontal(actions);
    var turn := if h == DirNone then [] else [Turn(h, ROTATION_SPEED)];
    var armed := firstMove && h == DirNone;
    var v := Vertical(actions);
    var c1 := Apply(c, turn, m);
    assert MovesAlongHeading(c, turn, m) by {
      if turn != [] {
        assert turn[..0] == [];
      }
    }
    assert !armed ==> c1.lookAt.y == CAMERA_DISTANCE_OFFSET by {
      if turn != [] {
        assert turn[..0] == [];
        TurnSpec(c, h, ROTATION_SPEED, m);
      }
    }
    if v != DirNone {
      var zero := if armed then [Turn(DirLeft, 0.0)] else [];
      var c2 := Apply(c1, zero, m);
      assert MovesAlongHeading(c1, zero, m) && c2.lookAt.y == CAMERA_DISTANCE_OFFSET by {
        if armed {
          assert zero[..0] == [];
          TurnSpec(c1, DirLeft, 0.0, m);
        }
      }
      var walk := [Move(v, MOVEMENT_SPEED)];
      assert walk[..0] == [];
      assert MovesAlongHeading(c2, walk, m);
      assert Apply(c2, walk, m).lookAt == c2.lookAt;
      MovesAppend(c, turn, zero, m);
      ApplyAppend(c, turn, zero, m);
      MovesAppend(c, turn + zero, walk, m);
      ApplyAppend(c, turn + zero, walk, m);
    }
  }

  /** With the reset arming `first_move`, every walk of every frame happens along a heading,
   *  and the invariant carries over to the next frame. */
  lemma FrameMovesAlongHeading(c: Camera, mode: Mode, actions: Word, m: Math)
    requires HasHeading(c, mode)
    ensures var r := Frame(actions, mode);
      MovesAlongHeading(c, r.0, m) && HasHeading(Apply(c, r.0, m), r.1)
  {
    var r := Frame(actions, mode);
    if RendererMem.ACTION_BIT_ROTATE in actions {
      assert r.0[..0] == [];
    } else {
      var armed := if mode.rotation then true else mode.firstMove;
      var reset := if mode.rotation then [ResetCamera] else [];
      var c1 := Apply(c, reset, m);
      assert MovesAlongHeading(c, reset, m) && (!armed ==> c1.lookAt.y == CAMERA_DISTANCE_OFFSET) by {
        if mode.rotation {
          assert reset[..0] == [];
        }
      }
      MovementKeepsHeading(c1, actions, armed, m);
      assert r.0 == reset + MovementCalls(actions, armed).0;
      MovesAppend(c, reset, MovementCalls(actions, armed).0, m);
      ApplyAppend(c, reset, MovementCalls(actions, armed).0, m);
    }
  }

  /** The frames from the start of the loop: the view is reset by `start`, the mode is
   *  INITIAL_MODE and the invariant holds, so by FrameMovesAlongHeading it holds forever. */
  lemma StartHasHeading()
    ensures HasHeading(RESET_POSE, INITIAL_MODE)
  {
  }

  /** As written, up, then rotate, then up again walks from a camera that looks at the
   *  origin: the third frame resets the camera and moves without the zero turn. */
  lemma FrameAsWrittenWalksFromOrigin(c: Camera, m: Math)
    ensures var up: Word := {RendererMem.ACTION_BIT_UP};
      var rot: Word := {RendererMem.ACTION_BIT_ROTATE};
      var f1 := FrameAsWritten(up, INITIAL_MODE);
      var f2 := FrameAsWritten(rot, f1.1);
      var f3 := FrameAsWritten(up, f2.1);
      f3.0 == [ResetCamera, Move(DirUp, MOVEMENT_SPEED)] && !MovesAlongHeading(c, f3.0, m)
  {
    var calls := [ResetCamera, Move(DirUp, MOVEMENT_SPEED)];
    assert calls[..1] == [ResetCamera];
    assert [ResetCamera][..0] == [];
    assert Apply(c, calls[..1], m) == RESET_POSE;
  }

  /** The same three frames with the intended reset: the walk after rotation is preceded by
   *  the zero turn and happens along a heading. */
  lemma FrameWalksAlongHeadingAfterRotation(c: Camera, m: Math)
    ensures var up: Word := {RendererMem.ACTION_BIT_UP};
      var rot: Word := {RendererMem.ACTION_BIT_ROTATE};
      var f1 := Frame(up, INITIAL_MODE);
      var f2 := Frame(rot, f1.1);
      var f3 := Frame(up, f2.1);
      f3.0 == [ResetCamera, Turn(DirLeft, 0.0), Move(DirUp, MOVEMENT_SPEED)] && MovesAlongHeading(c, f3.0, m)
  {
    var up: Word := {RendererMem.ACTION_BIT_UP};
    var rot: Word := {RendererMem.ACTION_BIT_ROTATE};
    var f2 := Frame(rot, Frame(up, INITIAL_MODE).1);
    assert f2.1 == Mode(true, false);
    var calls := Frame(up, f2.1).0;
    var a := Apply(c, calls[..0], m);
    var b := Apply(c, calls[..1], m);
    assert calls[..0] == [] && calls[..1][..0] == [] && calls[..2][..1] == calls[..1];
    assert b == RESET_POSE;
    TurnSpec(b, DirLeft, 0.0, m);
    assert Apply(c, calls[..2], m).lookAt.y == CAMERA_DISTANCE_OFFSET;
    assert calls[..3] == calls;
    assert MovesAlongHeading(c, calls[..1], m);
    assert MovesAlongHeading(c, calls[..2], m);
  }

  /** What the loop does with the shared memory and the caches. */
  datatype Event =
    | Render(shown: Option<Fb>)
    | WriteFrameRate(value: nat)
    | Flush(address: nat)
    | Invalidate(address: nat)
    | Membar
    | ReadActions(word: Word)

  /** The events of `invalidate_cache(start, size)`: one invalidation per 4-byte step below
   *  `size`, then one barrier. */
  function InvalidateEvents(start: nat, size: nat): seq<Event> {
    seq((size + 3) / 4, k requires 0 <= k => Invalidate(start + 4 * k)) + [Membar]
  }

  /** The events of one frame, in program order. */
  function FrameEvents(shown: Option<Fb>, renderTime: nat, actions: Word): seq<Event> {
    [Render(shown), WriteFrameRate(RendererMem.Truncate32(renderTime)), Flush(FRAME_RATE_ADDR),
     Invalidate(CAMERA_ACTIONS_ADDR), Membar, ReadActions(actions)]
  }

  /** `invalidate_cache` invalidates exactly the word-aligned offsets below `size`, each once
   *  and in increasing order, and ends with a single barrier. */
  lemma InvalidateEventsSpec(start: nat, size: nat)
    ensures var e := InvalidateEvents(start, size);
      && e[|e| - 1] == Membar
      && (forall k :: 0 <= k < |e| - 1 ==> e[k].Invalidate? && e[k].address - start < size && (e[k].address - start) % 4 == 0)
      && (forall i :: 0 <= i < size && i % 4 == 0 ==> Invalidate(start + i) in e)
      && (forall j, k :: 0 <= j < k < |e| - 1 ==> e[j].address < e[k].address)
  {
    var e := InvalidateEvents(start, size);
    forall i | 0 <= i < size && i % 4 == 0
      ensures Invalidate(start + i) in e
    {
      assert e[i / 4] == Invalidate(start + i);
    }
  }

  /** At start-up the whole database is invalidated: every member of `smdb_t` is covered. */
  lemma StartupCoversDatabase()
    ensures SMDB_SIZE == 24
    ensures forall j :: 0 <= j < |RendererMem.SmdbLayout| ==>
      Invalidate(SMDB + SharedMem.OffsetOf(RendererMem.SmdbLayout, j)) in InvalidateEvents(SMDB, SMDB_SIZE)
  {
    SharedMem.WordOffsets(RendererMem.SmdbLayout, 6);
    assert SMDB_SIZE == 24;
    InvalidateEventsSpec(SMDB, 24);
    forall j | 0 <= j < |RendererMem.SmdbLayout|
      ensures Invalidate(SMDB + SharedMem.OffsetOf(RendererMem.SmdbLayout, j)) in InvalidateEvents(SMDB, SMDB_SIZE)
    {
      SharedMem.WordOffsets(RendererMem.SmdbLayout, j);
      assert 4 * j < 24 && (4 * j) % 4 == 0;
    }
  }

  /** `invalidate_cache`. The counter is a `uint32_t`, so the loop ends only for sizes the
   *  counter can step past without wrapping. */
  method InvalidateCache(start: nat, size: nat) returns (events: seq<Event>)
    requires size <= 0xFFFF_FFFC
    ensures events == InvalidateEvents(start, size)
  {
    events := [];
    var i := 0;
    while i < size
      invariant i % 4 == 0 && i <= size + 3
      invariant events == seq(i / 4, k requires 0 <= k => Invalidate(start + 4 * k))
    {
      events := events + [Invalidate(start + i)];
      i := i + 4;
    }
    assert i / 4 == (size + 3) / 4;
    events := events + [Membar];
  }

  /** The state of `main` once the loop runs: the view, the two mode flags and the trace of
   *  shared-memory and cache events. */
  class FrameLoop {
    const view: SceneView
    var rotationMode: bool
    var firstMove: bool
    var events: seq<Event>

    function CurrentMode(): Mode
      reads this
    {
      Mode(rotationMode, firstMove)
    }

    /** The start of `main`: invalidate the database, create and start the view. */
    constructor(math: Math)
      ensures fresh(view) && view.math == math
      ensures view.Cam() == RESET_POSE && view.currentFb == Fb1 && view.renderTarget == Fb1
      ensures CurrentMode() == INITIAL_MODE
      ensures events == InvalidateEvents(SMDB, SMDB_SIZE)
    {
      RendererMem.SidesAgree();
      SharedMem.SmdbLayoutFits();
      var startup := InvalidateCache(SMDB, SMDB_SIZE);
      view := new SceneView(math);
      rotationMode := false;
      firstMove := true;
      events := startup;
      new;
      view.Start();
    }

    /** One iteration of the frame loop as written (see FrameAsWritten): `actions` is the
     *  value read from `camera_actions` and `renderTime` the time `render` measured. */
    method Tick(actions: Word, renderTime: nat)
      modifies this, view
      ensures events == old(events) + FrameEvents(Shown(old(view.currentFb)), renderTime, actions)
      ensures CurrentMode() == FrameAsWritten(actions, old(CurrentMode())).1
      ensures view.Cam() == Apply(old(view.Cam()), FrameAsWritten(actions, old(CurrentMode())).0, view.math)
      ensures view.currentFb == NextFb(old(view.currentFb))
      ensures view.renderTarget == (if old(view.currentFb) == FbNull then old(view.renderTarget) else view.currentFb)
    {
      var shown := view.Render();
      events := events + [Render(shown), WriteFrameRate(RendererMem.Truncate32(renderTime)), Flush(FRAME_RATE_ADDR)];
      events := events + [Invalidate(CAMERA_ACTIONS_ADDR), Membar, ReadActions(actions)];
      if RendererMem.ACTION_BIT_ROTATE in actions {
        RotationBranch(actions);
      } else {
        MovementBranch(actions);
      }
    }

    /** The rotate bit is set: orbit in the decoded directions. */
    method RotationBranch(actions: Word)
      requires RendererMem.ACTION_BIT_ROTATE in actions
      modifies this, view
      ensures events == old(events) && view.currentFb == old(view.currentFb)
      ensures view.renderTarget == old(view.renderTarget)
      ensures CurrentMode() == FrameAsWritten(actions, old(CurrentMode())).1
      ensures view.Cam() == Apply(old(view.Cam()), FrameAsWritten(actions, old(CurrentMode())).0, view.math)
    {
      ghost var c0 := view.Cam();
      rotationMode := true;
      var h := DirNone;
      var v := DirNone;
      if RendererMem.ACTION_BIT_LEFT in actions {
        h := DirLeft;
      } else if RendererMem.ACTION_BIT_RIGHT in actions {
        h := DirRight;
      }
      if RendererMem.ACTION_BIT_UP in actions {
        v := DirUp;
      } else if RendererMem.ACTION_BIT_DOWN in actions {
        v := DirDown;
      }
      view.Rotate(h, v, ROTATION_SPEED);
      ghost var calls := [Rotate(h, v, ROTATION_SPEED)];
      assert calls[..0] == [];
      assert view.Cam() == Apply(c0, calls, view.math);
    }

    /** The rotate bit is clear: reset once after rotation mode, then turn and walk. */
    method MovementBranch(actions: Word)
      requires RendererMem.ACTION_BIT_ROTATE !in actions
      modifies this, view
      ensures events == old(events) && view.currentFb == old(view.currentFb)
      ensures view.renderTarget == old(view.renderTarget)
      ensures CurrentMode() == FrameAsWritten(actions, old(CurrentMode())).1
      ensures view.Cam() == Apply(old(view.Cam()), FrameAsWritten(actions, old(CurrentMode())).0, view.math)
    {
      ghost var c0 := view.Cam();
      ghost var reset: seq<Call> := [];
      if rotationMode {
        view.ResetCamera();
        reset := [ResetCamera];
        assert reset[..0] == [];
        rotationMode := false;
      }
      assert view.Cam() == Apply(c0, reset, view.math);
      ghost var c1 := view.Cam();
      ghost var armed := firstMove;
      TurnAndWalk(actions);
      ApplyAppend(c0, reset, MovementCalls(actions, armed).0, view.math);
    }

    /** The turn (left first) and the walk (up first) of the movement branch. */
    method TurnAndWalk(actions: Word)
      modifies this, view
      ensures events == old(events) && view.currentFb == old(view.currentFb)
      ensures view.renderTarget == old(view.renderTarget)
      ensures rotationMode == old(rotationMode)
      ensures firstMove == MovementCalls(actions, old(firstMove)).1
      ensures view.Cam() == Apply(old(view.Cam()), MovementCalls(actions, old(firstMove)).0, view.math)
    {
      ghost var c0 := view.Cam();
      ghost var h := Horizontal(actions);
      ghost var turn: seq<Call> := if h == DirNone then [] else [Turn(h, ROTATION_SPEED)];
      TurnStep(actions);
      ghost var armed := firstMove;
      ghost var v := Vertical(actions);
      ghost var walk: seq<Call> :=
        if v == DirNone then [] else (if armed then [Turn(DirLeft, 0.0)] else []) + [Move(v, MOVEMENT_SPEED)];
      ghost var c1 := view.Cam();
      WalkOrStay(actions);
      ApplyAppend(c0, turn, walk, view.math);
      if v == DirNone {
        assert turn + walk == turn;
      } else {
        assert turn + walk == turn + (if armed then [Turn(DirLeft, 0.0)] else []) + [Move(v, MOVEMENT_SPEED)];
      }
    }

    /** The turn: left wins over right; any turn disarms `first_move`. */
    method TurnStep(actions: Word)
      modifies this, view
      ensures events == old(events) && view.currentFb == old(view.currentFb)
      ensures view.renderTarget == old(view.renderTarget)
      ensures rotationMode == old(rotationMode)
      ensures firstMove == (old(firstMove) && Horizontal(actions) == DirNone)
      ensures view.Cam() == Apply(old(view.Cam()),
        if Horizontal(actions) == DirNone then [] else [Turn(Horizontal(actions), ROTATION_SPEED)], view.math)
    {
      ghost var c0 := view.Cam();
      ghost var turn: seq<Call> := [];
      if RendererMem.ACTION_BIT_LEFT in actions {
        view.Turn(DirLeft, ROTATION_SPEED);
        turn := [Turn(DirLeft, ROTATION_SPEED)];
        firstMove := false;
      } else if RendererMem.ACTION_BIT_RIGHT in actions {
        view.Turn(DirRight, ROTATION_SPEED);
        turn := [Turn(DirRight, ROTATION_SPEED)];
        firstMove := false;
      }
      assert turn == [] || turn[..0] == [];
    }

    /** The walk: up wins over down; no vertical bit leaves the camera where it is. */
    method WalkOrStay(actions: Word)
      modifies this, view
      ensures events == old(events) && view.currentFb == old(view.currentFb)
      ensures view.renderTarget == old(view.renderTarget)
      ensures rotationMode == old(rotationMode)
      ensures firstMove == (old(firstMove) && Vertical(actions) == DirNone)
      ensures view.Cam() == Apply(old(view.Cam()),
        if Vertical(actions) == DirNone then []
        else (if old(firstMove) then [Turn(DirLeft, 0.0)] else []) + [Move(Vertical(actions), MOVEMENT_SPEED)],
        view.math)
    {
      if RendererMem.ACTION_BIT_UP in actions {
        WalkStep(DirUp);
      } else if RendererMem.ACTION_BIT_DOWN in actions {
        WalkStep(DirDown);
      }
    }

    /** One walk: the zero turn first if `first_move` is still armed, then the move. */
    method WalkStep(dir: Dir)
      modifies this, view
      ensures events == old(events) && view.currentFb == old(view.currentFb)
      ensures view.renderTarget == old(view.renderTarget)
      ensures rotationMode == old(rotationMode) && !firstMove
      ensures view.Cam() == Apply(old(view.Cam()),
        (if old(firstMove) then [Turn(DirLeft, 0.0)] else []) + [Move(dir, MOVEMENT_SPEED)], view.math)
    {
      ghost var c0 := view.Cam();
      ghost var zero: seq<Call> := [];
      if firstMove {
        view.Turn(DirLeft, 0.0);
        zero := [Turn(DirLeft, 0.0)];
        assert zero[..0] == [];
        firstMove := false;
      }
      assert view.Cam() == Apply(c0, zero, view.math);
      ghost var c1 := view.Cam();
      view.Move(dir, MOVEMENT_SPEED);
      ghost var walk := [Move(dir, MOVEMENT_SPEED)];
      assert walk[..0] == [];
      assert view.Cam() == Apply(c1, walk, view.math);
      ApplyAppend(c0, zero, walk, view.math);
    }
  }
}
