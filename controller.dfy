/**
 * The ZCU102 controller's main loop (sw/zcu102/src/main.cc). Polled every 10 ms, it acts
 * only when the push-button byte differs from the one seen on the previous pass. In menu
 * mode the buttons walk and configure the SD-card menu, and the middle button copies the
 * chosen files into Nyuzi's memory and starts it. In scene mode a switch and the buttons
 * drive the `camera_actions` word the renderer reads, and the middle button stops Nyuzi.
 *
 * Every register or memory word the loop manipulates bit by bit (the button byte, the
 * switch word, `camera_actions`, `reset_vector`) is a `SharedMem.Word`: the set of the
 * positions of its 1-bits.
 *
 * The GPIO ports, the SD card and the file copy are outside the model: what they return
 * on one pass of the loop is given as `Inputs`.
 */
module Controller {
  import opened Wrappers
  import SharedMem
  import RendererMem
  import MenuTree
  import MenuTreeProofs

  type Word = SharedMem.Word

  /** Bit positions of the push buttons: the masks MIDDLE_BUTTON = 1, DOWN_BUTTON = 2,
   *  RIGHT_BUTTON = 4, UP_BUTTON = 8 and LEFT_BUTTON = 16. */
  const MIDDLE_BUTTON_BIT: nat := 0
  const DOWN_BUTTON_BIT: nat := 1
  const RIGHT_BUTTON_BIT: nat := 2
  const UP_BUTTON_BIT: nat := 3
  const LEFT_BUTTON_BIT: nat := 4

  /** Positions of the reset signals in `reset_vector`. */
  const RESET_DDR4: nat := 0
  const RESET_NYUZI: nat := 1
  const RESET_AXI: nat := 2
  const RESET_VGA: nat := 3
  const RESET_AXI_INTER: nat := 4

  const ROTATE: nat := SharedMem.ACTION_BIT_ROTATE
  const LEFT: nat := SharedMem.ACTION_BIT_LEFT
  const RIGHT: nat := SharedMem.ACTION_BIT_RIGHT
  const UP: nat := SharedMem.ACTION_BIT_UP
  const DOWN: nat := SharedMem.ACTION_BIT_DOWN

  /** `SDSTATUS`; SD_MOUNTED is the enumerator equal to XST_SUCCESS. */
  datatype SdStatus = SdMounted | SdNotFound | SdNeedReset | SdUnknown

  // ---------------------------------------------------------------------------
  // Buttons
  // ---------------------------------------------------------------------------

  datatype Button = Middle | Down | Right | Up | Left

  function ButtonBit(b: Button): nat {
    match b
    case Middle => MIDDLE_BUTTON_BIT
    case Down => DOWN_BUTTON_BIT
    case Right => RIGHT_BUTTON_BIT
    case Up => UP_BUTTON_BIT
    case Left => LEFT_BUTTON_BIT
  }

  /** Position in the order in which the loop tests the buttons. */
  function Rank(b: Button): nat {
    match b
    case Middle => 0
    case Down => 1
    case Right => 2
    case Up => 3
    case Left => 4
  }

  /** A button counts only when it is pressed now and was not pressed on the last pass. */
  predicate Rising(pressed: Word, last: Word, b: Button) {
    ButtonBit(b) in pressed && ButtonBit(b) !in last
  }

  /** The first direction button with a rising edge, in the order DOWN, RIGHT, UP, LEFT. */
  function DirectionEdge(pressed: Word, last: Word): (r: Option<Button>)
    ensures r.Some? ==> r.value != Middle && Rising(pressed, last, r.value)
    ensures r.Some? ==> forall b :: 0 < Rank(b) < Rank(r.value) ==> !Rising(pressed, last, b)
    ensures r.None? ==> forall b :: b != Middle ==> !Rising(pressed, last, b)
  {
    if Rising(pressed, last, Down) then Some(Down)
    else if Rising(pressed, last, Right) then Some(Right)
    else if Rising(pressed, last, Up) then Some(Up)
    else if Rising(pressed, last, Left) then Some(Left)
    else None
  }

  /** The one button a pass in scene mode acts on: the first rising edge in the order
   *  MIDDLE, DOWN, RIGHT, UP, LEFT; none when no button has a rising edge. */
  function EdgeButton(pressed: Word, last: Word): (r: Option<Button>)
    ensures r.Some? ==> Rising(pressed, last, r.value)
    ensures r.Some? ==> forall b :: Rank(b) < Rank(r.value) ==> !Rising(pressed, last, b)
    ensures r.None? ==> forall b :: !Rising(pressed, last, b)
  {
    if Rising(pressed, last, Middle) then Some(Middle) else DirectionEdge(pressed, last)
  }

  // ---------------------------------------------------------------------------
  // The camera_actions word
  // ---------------------------------------------------------------------------

  /** Neither both vertical nor both horizontal directions are requested. */
  predicate Exclusive(action: Word) {
    !(UP in action && DOWN in action) && !(LEFT in action && RIGHT in action)
  }

  /** The rotate bit follows the level of switch 0: it is set exactly while the switch is
   *  off, and no other bit changes. */
  function SyncRotate(action: Word, switches: Word): (r: Word)
    ensures ROTATE in r <==> 0 !in switches
    ensures r - {ROTATE} == action - {ROTATE}
  {
    if ROTATE in action && 0 in switches then action - {ROTATE}
    else if ROTATE !in action && 0 !in switches then action + {ROTATE}
    else action
  }

  /** A direction button's edge: clears its own bit if set, else clears the opposite bit if
   *  set, else sets its own bit. Every other bit is kept. */
  function Press(action: Word, own: nat, opposite: nat): (r: Word)
    requires own != opposite
    ensures own in r <==> own !in action && opposite !in action
    ensures opposite in r <==> own in action && opposite in action
    ensures r - {own, opposite} == action - {own, opposite}
  {
    if own in action then action - {own}
    else if opposite in action then action - {opposite}
    else action + {own}
  }

  /** The action bit a direction button works on, and the bit opposite to it. */
  function DirectionBits(b: Button): (r: (nat, nat))
    requires b != Middle
    ensures r.0 != r.1
  {
    match b
    case Down => (DOWN, UP)
    case Right => (RIGHT, LEFT)
    case Up => (UP, DOWN)
    case Left => (LEFT, RIGHT)
  }

  /** The edge of direction button `b` on the action word. */
  function PressButton(action: Word, b: Button): Word
    requires b != Middle
  {
    Press(action, DirectionBits(b).0, DirectionBits(b).1)
  }

  /** A press never makes the word request two opposite directions at once. */
  lemma PressKeepsExclusive(action: Word, b: Button)
    requires b != Middle && Exclusive(action)
    ensures Exclusive(PressButton(action, b))
  {
    var (own, opp) := DirectionBits(b);
    var r := PressButton(action, b);
    assert forall k :: k != own && k != opp ==> (k in r <==> k in action) by {
      forall k | k != own && k != opp ensures k in r <==> k in action {
        assert k in r <==> k in r - {own, opp};
        assert k in action <==> k in action - {own, opp};
      }
    }
  }

  /** From neither direction of a pair requested, a first press requests its own direction
   *  only and a second press withdraws it again. */
  lemma PressTwice(action: Word, b: Button)
    requires b != Middle
    requires DirectionBits(b).0 !in action && DirectionBits(b).1 !in action
    ensures var once := PressButton(action, b);
      DirectionBits(b).0 in once && DirectionBits(b).1 !in once
    ensures PressButton(PressButton(action, b), b) == action
  {
  }

  // ---------------------------------------------------------------------------
  // The reset vector
  // ---------------------------------------------------------------------------

  /** `reset_vector` after `reset`: NYUZI set; VGA, AXI and AXI_INTER clear; DDR4 and every
   *  other bit as before. */
  function AfterReset(v: Word): (r: Word)
    ensures RESET_NYUZI in r
    ensures RESET_VGA !in r && RESET_AXI !in r && RESET_AXI_INTER !in r
    ensures r - {RESET_NYUZI, RESET_VGA, RESET_AXI, RESET_AXI_INTER} == v - {RESET_NYUZI, RESET_VGA, RESET_AXI, RESET_AXI_INTER}
    ensures RESET_DDR4 in r <==> RESET_DDR4 in v
  {
    v - {RESET_VGA, RESET_AXI, RESET_AXI_INTER} + {RESET_NYUZI}
  }

  /** From the power-on value 0, only Nyuzi's reset is asserted after `reset`. */
  lemma ResetFromPowerOn()
    ensures AfterReset({}) == {RESET_NYUZI}
  {
  }

  /** Starting Nyuzi releases its reset line and keeps every other line. */
  function StartNyuzi(v: Word): (r: Word)
    ensures RESET_NYUZI !in r
    ensures forall k :: k != RESET_NYUZI ==> (k in r <==> k in v)
  {
    v - {RESET_NYUZI}
  }

  // ---------------------------------------------------------------------------
  // One pass of the loop, as a function of the state and of what the outside returns
  // ---------------------------------------------------------------------------

  /** The shared memory database `smdb_t` as the controller writes it. */
  datatype Smdb = Smdb(programStart: nat, programSize: nat, resourceStart: nat, resourceSize: nat,
                       frameRate: nat, cameraActions: Word)

  datatype State = State(
    resetVector: Word,
    programLoaded: bool,
    running: bool,
    last: Word,              // button_pressed_last
    sd: SdStatus,
    card: MenuTree.Folder,   // the SD-card menu tree
    smdb: Smdb)

  /** What the outside returns on one pass: the button byte the interrupt handler stored,
   *  sdcard_detect's answer, sdcard_init's answer and the tree sdcard_load reads when the card
   *  is remounted, the switch word, and write_file's results for the program and the
   *  resource file. */
  datatype Inputs = Inputs(
    pressed: Word,
    detected: SdStatus,
    remount: SdStatus,
    loaded: MenuTree.Folder,
    switches: Word,
    programWritten: int,
    resourceWritten: int)

  /** The folder `new folder` creates. */
  const EmptyCard: MenuTree.Folder := MenuTree.Folder("", [], [])

  /** The 32-bit addresses written into the database: PROG_ADDR and RES_ADDR cast to u32. */
  const PROG_ADDR_32: nat := RendererMem.Truncate32(SharedMem.PROG_ADDR)
  const RES_ADDR_32: nat := RendererMem.Truncate32(SharedMem.RES_ADDR)

  /** The tree the controller holds after the card was (re)initialised with `status`. */
  function Mounted(status: SdStatus, loaded: MenuTree.Folder): MenuTree.Folder {
    if status == SdMounted then MenuTree.SelectFirst(loaded).tree else EmptyCard
  }

  /** The state after main's set-up: `reset` from reset_vector 0, card initialised, both
   *  flags false and no button seen. */
  function Initial(status: SdStatus, loaded: MenuTree.Folder, memory: Smdb): State {
    State(AfterReset({}), false, false, {}, status, Mounted(status, loaded), memory)
  }

  /** SD-card detection, with a remount when the card was pulled: only the card status and
   *  the menu change, the menu only on a remount, and a remount that fails leaves an empty
   *  folder. */
  function Remount(s: State, i: Inputs): (r: State)
    ensures r == s.(sd := r.sd, card := r.card)
    ensures i.detected != SdNeedReset ==> r.card == s.card
    ensures i.detected == SdNeedReset && i.remount != SdMounted ==> r.card == EmptyCard
  {
    if i.detected == SdNeedReset then s.(sd := i.remount, card := Mounted(i.remount, i.loaded))
    else s.(sd := i.detected)
  }

  /** The scene-mode branch: only camera_actions, the reset vector and the running flag
   *  change, and the latter two only on a middle edge. */
  function SceneStep(s: State, i: Inputs): (r: State)
    ensures r == s.(resetVector := r.resetVector, running := r.running,
                    smdb := s.smdb.(cameraActions := r.smdb.cameraActions))
    ensures r.running != s.running || r.resetVector != s.resetVector ==> Rising(i.pressed, s.last, Middle)
  {
    var synced := s.(smdb := s.smdb.(cameraActions := SyncRotate(s.smdb.cameraActions, i.switches)));
    match EdgeButton(i.pressed, s.last)
    case None => synced
    case Some(b) =>
      if b == Middle then synced.(resetVector := AfterReset(s.resetVector), running := false)
      else synced.(smdb := synced.smdb.(cameraActions := PressButton(synced.smdb.cameraActions, b)))
  }

  function LoadProgram(s: State, i: Inputs): (r: State)
    ensures r.last == s.last && r.card == s.card && r.running == s.running && r.resetVector == s.resetVector
    ensures r.smdb.frameRate == s.smdb.frameRate && (r.sd == s.sd || r.sd == SdUnknown)
    ensures r.sd == SdUnknown && s.sd != SdUnknown ==> !r.programLoaded
    ensures MenuTree.ProgramFile(s.card).Some? && i.programWritten > 0 ==> r.programLoaded && r.sd == s.sd
  {
    if MenuTree.ProgramFile(s.card).None? then s
    else if i.programWritten <= 0 then s.(sd := SdUnknown, programLoaded := false)
    else s.(smdb := s.smdb.(programStart := PROG_ADDR_32, programSize := i.programWritten, cameraActions := {}),
            programLoaded := true)
  }

  function LoadResource(s: State, i: Inputs): (r: State)
    ensures r.last == s.last && r.card == s.card && r.running == s.running && r.resetVector == s.resetVector
    ensures r.smdb.frameRate == s.smdb.frameRate && (r.sd == s.sd || r.sd == SdUnknown)
    ensures r.sd == SdUnknown && s.sd != SdUnknown ==> !r.programLoaded
    ensures MenuTree.ResourceFile(s.card).None? || i.resourceWritten > 0 ==> r.programLoaded == s.programLoaded && r.sd == s.sd
    ensures MenuTree.ResourceFile(s.card).Some? && i.resourceWritten > 0 ==>
      r.smdb == s.smdb.(resourceStart := RES_ADDR_32, resourceSize := i.resourceWritten)
  {
    if MenuTree.ResourceFile(s.card).None? then s
    else if i.resourceWritten <= 0 then s.(sd := SdUnknown, programLoaded := false)
    else s.(smdb := s.smdb.(resourceStart := RES_ADDR_32, resourceSize := i.resourceWritten))
  }

  /** The middle button in menu mode, on a mounted card: the menu and frame_rate are kept;
   *  the card status either stays or becomes unknown, and when a write failed nothing is
   *  loaded and Nyuzi is neither started nor stopped. When the program is copied, and so is
   *  the resource file if one is chosen, Nyuzi is started. */
  function Launch(s: State, i: Inputs): (r: State)
    ensures r.last == s.last && r.card == s.card && r.smdb.frameRate == s.smdb.frameRate
    ensures r.sd == s.sd || r.sd == SdUnknown
    ensures r.sd == SdUnknown && s.sd != SdUnknown ==>
      !r.programLoaded && r.running == s.running && r.resetVector == s.resetVector
    ensures s.sd == SdMounted && MenuTree.ProgramFile(s.card).Some? && i.programWritten > 0 &&
            (MenuTree.ResourceFile(s.card).None? || i.resourceWritten > 0) ==>
      r.programLoaded && r.running && r.resetVector == StartNyuzi(s.resetVector) && r.sd == SdMounted
  {
    var p := LoadProgram(s, i);
    if p.sd != SdMounted then p
    else
      var r := LoadResource(p, i);
      if r.programLoaded then r.(resetVector := StartNyuzi(r.resetVector), running := true) else r
  }

  /** The menu-mode branch: unless it launches, it changes the menu and nothing else, and
   *  without a direction edge nothing at all. */
  function MenuStep(s: State, i: Inputs): (r: State)
    ensures r.last == s.last
    ensures !(Rising(i.pressed, s.last, Middle) && s.sd == SdMounted) ==> r == s.(card := r.card)
    ensures !(Rising(i.pressed, s.last, Middle) && s.sd == SdMounted) && DirectionEdge(i.pressed, s.last).None? ==> r == s
  {
    if Rising(i.pressed, s.last, Middle) && s.sd == SdMounted then Launch(s, i)
    else match DirectionEdge(i.pressed, s.last)
      case None => s
      case Some(b) =>
        if b == Down then s.(card := MenuTree.IncreaseSelectionAsWritten(s.card, true).tree)
        else if b == Right then s.(card := MenuTree.IncreaseFileMode(s.card).tree)
        else if b == Up then s.(card := MenuTree.DecreaseSelection(s.card, true).tree)
        else s.(card := MenuTree.DecreaseFileMode(s.card).tree)
  }

  /** One pass of `while (true)`: the button byte is remembered, and the controller never
   *  writes frame_rate, which is the renderer's. */
  function Step(s: State, i: Inputs): (r: State)
    ensures r.last == i.pressed
    ensures r.smdb.frameRate == s.smdb.frameRate
  {
    if i.pressed == s.last then s
    else
      var m := Remount(s, i);
      var t := if m.running then SceneStep(m, i) else MenuStep(m, i);
      t.(last := i.pressed)
  }

  // ---------------------------------------------------------------------------
  // Properties of a pass
  // ---------------------------------------------------------------------------

  /** Nothing happens unless the button byte changed; afterwards it is remembered. */
  lemma StepOnlyOnChange(s: State, i: Inputs)
    ensures i.pressed == s.last ==> Step(s, i) == s
    ensures Step(s, i).last == i.pressed
  {
  }

  /** In scene mode, unless the middle button stops Nyuzi, the rotate bit afterwards follows
   *  switch 0 and a direction edge acts on the synchronised word. */
  lemma SceneRotateFollowsSwitch(s: State, i: Inputs)
    requires i.pressed != s.last && s.running && !Rising(i.pressed, s.last, Middle)
    ensures var t := Step(s, i);
      && t.running
      && (ROTATE in t.smdb.cameraActions <==> 0 !in i.switches)
      && var synced := SyncRotate(s.smdb.cameraActions, i.switches);
         t.smdb.cameraActions ==
           (match DirectionEdge(i.pressed, s.last)
            case None => synced
            case Some(b) => PressButton(synced, b))
  {
    var synced := SyncRotate(s.smdb.cameraActions, i.switches);
    var e := DirectionEdge(i.pressed, s.last);
    if e.Some? {
      var (own, opp) := DirectionBits(e.value);
      var r := PressButton(synced, e.value);
      assert ROTATE in r <==> ROTATE in r - {own, opp};
    }
  }

  /** The middle button in scene mode runs `reset` and marks Nyuzi as stopped; whether a
   *  program is loaded is not touched. */
  lemma SceneMiddleStops(s: State, i: Inputs)
    requires i.pressed != s.last && s.running && Rising(i.pressed, s.last, Middle)
    ensures var t := Step(s, i);
      && !t.running
      && t.resetVector == AfterReset(s.resetVector)
      && t.programLoaded == s.programLoaded
  {
  }

  /** No pass makes `camera_actions` request two opposite directions at once. */
  lemma {:induction false} StepKeepsExclusive(s: State, i: Inputs)
    requires Exclusive(s.smdb.cameraActions)
    ensures Exclusive(Step(s, i).smdb.cameraActions)
  {
    if i.pressed != s.last {
      var m := Remount(s, i);
      if m.running {
        var synced := SyncRotate(m.smdb.cameraActions, i.switches);
        forall k | k != ROTATE ensures k in synced <==> k in m.smdb.cameraActions {
          assert k in synced <==> k in synced - {ROTATE};
        }
        var e := EdgeButton(i.pressed, m.last);
        if e.Some? && e.value != Middle {
          PressKeepsExclusive(synced, e.value);
        }
      } else if Rising(i.pressed, m.last, Middle) && m.sd == SdMounted {
        var p := LoadProgram(m, i);
        assert p.smdb.cameraActions == {} || p.smdb.cameraActions == m.smdb.cameraActions;
      } else {
        assert MenuStep(m, i).smdb == m.smdb;
      }
    }
  }

  /** Nyuzi is only ever marked running with a program loaded, and it is started only by the
   *  middle button in menu mode, which releases exactly its reset line. */
  lemma StepStartsOnlyLoaded(s: State, i: Inputs)
    requires s.running ==> s.programLoaded
    ensures var t := Step(s, i);
      && (t.running ==> t.programLoaded)
      && (!s.running && t.running ==>
            Rising(i.pressed, s.last, Middle) && t.resetVector == StartNyuzi(s.resetVector))
  {
    if i.pressed != s.last {
      var m := Remount(s, i);
      if !m.running && Rising(i.pressed, s.last, Middle) && m.sd == SdMounted {
        assert Step(s, i) == Launch(m, i).(last := i.pressed);
        LaunchStartsOnlyLoaded(m, i);
      }
    }
  }

  /** The launch marks Nyuzi running only with a program loaded, releasing its reset line. */
  lemma LaunchStartsOnlyLoaded(s: State, i: Inputs)
    requires !s.running
    ensures var t := Launch(s, i);
      && (t.running ==> t.programLoaded && t.resetVector == StartNyuzi(s.resetVector))
  {
    var p := LoadProgram(s, i);
    assert p.resetVector == s.resetVector && !p.running;
    if p.sd == SdMounted {
      var r := LoadResource(p, i);
      assert r.resetVector == s.resetVector && !r.running;
    }
  }

  /** The middle button in menu mode, on a mounted card with a program file chosen: a failed
   *  copy leaves no program loaded, Nyuzi stopped and the card in error; a successful one
   *  records the program in the database, clears `camera_actions` and starts Nyuzi unless the
   *  copy of a chosen resource file then fails, which again leaves nothing loaded. */
  lemma MenuProgramWrite(s: State, i: Inputs)
    requires i.pressed != s.last && !s.running && Rising(i.pressed, s.last, Middle)
    requires Remount(s, i).sd == SdMounted && MenuTree.ProgramFile(Remount(s, i).card).Some?
    ensures var t := Step(s, i);
      && (i.programWritten <= 0 ==> !t.programLoaded && !t.running && t.sd == SdUnknown)
      && (i.programWritten > 0 ==>
            && t.smdb.programStart == PROG_ADDR_32 == 0
            && t.smdb.programSize == i.programWritten
            && t.smdb.cameraActions == {})
      && (i.programWritten > 0 && (MenuTree.ResourceFile(Remount(s, i).card).None? || i.resourceWritten > 0) ==>
            t.programLoaded && t.running && t.resetVector == StartNyuzi(s.resetVector))
      && (i.programWritten > 0 && MenuTree.ResourceFile(Remount(s, i).card).Some? && i.resourceWritten <= 0 ==>
            !t.programLoaded && !t.running && t.sd == SdUnknown)
      && (i.programWritten > 0 && MenuTree.ResourceFile(Remount(s, i).card).Some? && i.resourceWritten > 0 ==>
            t.smdb.resourceStart == RES_ADDR_32 == 0x0500_0000 && t.smdb.resourceSize == i.resourceWritten)
  {
  }

  /** DOWN and UP in menu mode keep exactly one file of the menu selected. UP moves it to the
   *  previous file in menu order, wrapping to the last. DOWN runs increaseSelection as written,
   *  which moves it to some later file or back to the first (see IncreaseSkipsAfterEmptyFolder
   *  for a tree where the next file is skipped). */
  lemma MenuMovesSelection(s: State, i: Inputs, k: nat)
    requires i.pressed != s.last && !s.running
    requires var m := Remount(s, i); !(Rising(i.pressed, s.last, Middle) && m.sd == SdMounted)
    requires MenuTree.OneSelected(MenuTree.Files(Remount(s, i).card), k)
    ensures var n := |MenuTree.Files(Remount(s, i).card)|; var t := Step(s, i);
      && (DirectionEdge(i.pressed, s.last) == Some(Down) ==>
            exists j :: (j == 0 || k < j) && MenuTree.OneSelected(MenuTree.Files(t.card), j))
      && (DirectionEdge(i.pressed, s.last) == Some(Up) ==>
            MenuTree.OneSelected(MenuTree.Files(t.card), if k > 0 then k - 1 else n - 1))
  {
    var card := Remount(s, i).card;
    MenuTreeProofs.IncreaseAsWrittenAtRoot(card, k);
    MenuTreeProofs.DecreaseAtRoot(card, k);
    if DirectionEdge(i.pressed, s.last) == Some(Down) {
      assert Step(s, i).card == MenuTree.IncreaseSelectionAsWritten(card, true).tree;
    }
  }

  // ---------------------------------------------------------------------------
  // The loop's globals
  // ---------------------------------------------------------------------------

  class ControlLoop {
    var resetVector: Word
    var programLoaded: bool
    var running: bool
    var last: Word
    var sd: SdStatus
    var card: MenuTree.Folder
    var smdb: Smdb

    function Snapshot(): State
      reads this
    {
      State(resetVector, programLoaded, running, last, sd, card, smdb)
    }

    /** main's set-up before the loop: `reset`, then the first mount of the card. */
    constructor (status: SdStatus, loaded: MenuTree.Folder, memory: Smdb)
      ensures Snapshot() == Initial(status, loaded, memory)
    {
      resetVector := {};
      programLoaded := false;
      running := false;
      last := {};
      sd := status;
      card := EmptyCard;
      smdb := memory;
      new;
      Reset();
      if status == SdMounted {
        card := MenuTree.SelectFirst(loaded).tree;
      }
    }

    /** `reset`: raise NYUZI, VGA, AXI and AXI_INTER, then lower the last three again. */
    method Reset()
      modifies this
      ensures Snapshot() == old(Snapshot()).(resetVector := AfterReset(old(resetVector)))
    {
      resetVector := resetVector + {RESET_NYUZI};
      resetVector := resetVector + {RESET_VGA};
      resetVector := resetVector + {RESET_AXI};
      resetVector := resetVector + {RESET_AXI_INTER};
      resetVector := resetVector - {RESET_AXI_INTER};
      resetVector := resetVector - {RESET_AXI};
      resetVector := resetVector - {RESET_VGA};
    }

    /** The direction buttons' read-modify-write of `camera_actions`. */
    method PressDirection(own: nat, opposite: nat)
      requires own != opposite
      modifies this
      ensures Snapshot() == old(Snapshot()).(smdb := old(smdb).(cameraActions := Press(old(smdb).cameraActions, own, opposite)))
    {
      var action := smdb.cameraActions;
      if own in action {
        action := action - {own};
      } else if opposite in action {
        action := action - {opposite};
      } else {
        action := action + {own};
      }
      smdb := smdb.(cameraActions := action);
    }

    /** SD-card detection at the top of a pass, with a remount when the card was pulled. */
    method Detect(i: Inputs)
      modifies this
      ensures Snapshot() == Remount(old(Snapshot()), i)
    {
      if i.detected == SdNeedReset {
        sd := i.remount;
        card := EmptyCard;
        if i.remount == SdMounted {
          card := MenuTree.SelectFirst(i.loaded).tree;
        }
      } else {
        sd := i.detected;
      }
    }

    /** Scene mode: the rotate bit follows the switch, then at most one button acts. */
    method SceneTick(i: Inputs)
      modifies this
      ensures Snapshot() == SceneStep(old(Snapshot()), i)
    {
      var action := smdb.cameraActions;
      if ROTATE in action && 0 in i.switches {
        action := action - {ROTATE};
        smdb := smdb.(cameraActions := action);
      } else if ROTATE !in action && 0 !in i.switches {
        action := action + {ROTATE};
        smdb := smdb.(cameraActions := action);
      }

      if Rising(i.pressed, last, Middle) {
        Reset();
        running := false;
      } else if Rising(i.pressed, last, Down) {
        PressDirection(DOWN, UP);
      } else if Rising(i.pressed, last, Right) {
        PressDirection(RIGHT, LEFT);
      } else if Rising(i.pressed, last, Up) {
        PressDirection(UP, DOWN);
      } else if Rising(i.pressed, last, Left) {
        PressDirection(LEFT, RIGHT);
      }
    }

    /** Menu mode, middle button on a mounted card: copy the program and the resource file,
     *  then start Nyuzi if a program is loaded. */
    method LaunchTick(i: Inputs)
      modifies this
      ensures Snapshot() == Launch(old(Snapshot()), i)
    {
      if MenuTree.ProgramFile(card).Some? {
        if i.programWritten <= 0 {
          sd := SdUnknown;
          programLoaded := false;
        } else {
          smdb := smdb.(programStart := PROG_ADDR_32, programSize := i.programWritten, cameraActions := {});
          programLoaded := true;
        }
      }
      if sd == SdMounted {
        if MenuTree.ResourceFile(card).Some? {
          if i.resourceWritten <= 0 {
            sd := SdUnknown;
            programLoaded := false;
          } else {
            smdb := smdb.(resourceStart := RES_ADDR_32, resourceSize := i.resourceWritten);
          }
        }
        if programLoaded {
          resetVector := resetVector - {RESET_NYUZI};
          running := true;
        }
      }
    }

    /** Menu mode: the middle button launches, the others walk and configure the menu. */
    method MenuTick(i: Inputs)
      modifies this
      ensures Snapshot() == MenuStep(old(Snapshot()), i)
    {
      if Rising(i.pressed, last, Middle) && sd == SdMounted {
        LaunchTick(i);
      } else if Rising(i.pressed, last, Down) {
        card := MenuTree.IncreaseSelectionAsWritten(card, true).tree;
      } else if Rising(i.pressed, last, Right) {
        card := MenuTree.IncreaseFileMode(card).tree;
      } else if Rising(i.pressed, last, Up) {
        card := MenuTree.DecreaseSelection(card, true).tree;
      } else if Rising(i.pressed, last, Left) {
        card := MenuTree.DecreaseFileMode(card).tree;
      }
    }

    /** One pass of the loop body. */
    method Tick(i: Inputs)
      modifies this
      ensures Snapshot() == Step(old(Snapshot()), i)
    {
      if i.pressed == last {
        return;
      }
      Detect(i);
      if running {
        SceneTick(i);
      } else {
        MenuTick(i);
      }
      last := i.pressed;
    }
  }

  // ---------------------------------------------------------------------------
  // endian_swap64
  // ---------------------------------------------------------------------------

  /** Byte `i` of a 64-bit value, counting from the least significant. */
  function Byte64(v: bv64, i: bv64): bv8
    requires i < 8
  {
    ((v >> (8 * i)) & 0xFF) as bv8
  }

  /** Xil_EndianSwap32: reverses the four bytes of a word. */
  function EndianSwap32(x: bv32): bv32 {
    (x << 24) | ((x & 0xFF00) << 8) | ((x >> 8) & 0xFF00) | (x >> 24)
  }

  function LowWord(v: bv64): bv32 {
    (v & 0xFFFF_FFFF) as bv32
  }

  function HighWord(v: bv64): bv32 {
    ((v & 0xFFFF_FFFF_0000_0000) >> 32) as bv32
  }

  /** `endian_swap64` as written: each 32-bit half is byte-reversed in place; the halves are
   *  not exchanged. */
  function EndianSwap64AsWritten(v: bv64): (r: bv64)
    ensures Byte64(r, 0) == Byte64(v, 3) && Byte64(r, 1) == Byte64(v, 2) && Byte64(r, 2) == Byte64(v, 1) && Byte64(r, 3) == Byte64(v, 0)
    ensures Byte64(r, 4) == Byte64(v, 7) && Byte64(r, 5) == Byte64(v, 6) && Byte64(r, 6) == Byte64(v, 5) && Byte64(r, 7) == Byte64(v, 4)
  {
    ((EndianSwap32(HighWord(v)) as bv64) << 32) | (EndianSwap32(LowWord(v)) as bv64)
  }

  /** `endian_swap64` as documented: the halves are exchanged and each is byte-reversed,
   *  which reverses all eight bytes. */
  function EndianSwap64(v: bv64): (r: bv64)
    ensures forall i :: 0 <= i < 8 ==> Byte64(r, i) == Byte64(v, 7 - i)
  {
    ((EndianSwap32(LowWord(v)) as bv64) << 32) | (EndianSwap32(HighWord(v)) as bv64)
  }

  /** The documented example: the code keeps the halves in place, the corrected swap matches. */
  lemma EndianSwapExample()
    ensures EndianSwap64AsWritten(0x0123_4567_89AB_CDEF) == 0x6745_2301_EFCD_AB89 != 0xEFCD_AB89_6745_2301
    ensures EndianSwap64(0x0123_4567_89AB_CDEF) == 0xEFCD_AB89_6745_2301
  {
  }

  /** Swapping twice gives the value back. */
  lemma EndianSwap64Involution(v: bv64)
    ensures EndianSwap64(EndianSwap64(v)) == v
  {
  }

  /** The swap as written also gives the value back when applied twice. */
  lemma EndianSwap64AsWrittenInvolution(v: bv64)
    ensures EndianSwap64AsWritten(EndianSwap64AsWritten(v)) == v
  {
  }

  // What write_file's binary branch stores. The program file holds each 32-bit word with its
  // most significant byte first; the processor loads and stores little-endian.

  /** A word as the program file holds it: most significant byte first. */
  function FileWord(b: seq<bv8>): (w: bv32)
    requires |b| == 4
    ensures (w >> 24) as bv8 == b[0] && (w & 0xFF) as bv8 == b[3]
  {
    (b[0] as bv32 << 24) | (b[1] as bv32 << 16) | (b[2] as bv32 << 8) | (b[3] as bv32)
  }

  /** `*(u64 *)binaryBuffer`: eight bytes loaded least significant first. */
  function Load64(b: seq<bv8>): (v: bv64)
    requires |b| == 8
    ensures Byte64(v, 0) == b[0] && Byte64(v, 1) == b[1] && Byte64(v, 2) == b[2] && Byte64(v, 3) == b[3]
    ensures Byte64(v, 4) == b[4] && Byte64(v, 5) == b[5] && Byte64(v, 6) == b[6] && Byte64(v, 7) == b[7]
  {
    (b[0] as bv64) | (b[1] as bv64 << 8) | (b[2] as bv64 << 16) | (b[3] as bv64 << 24) |
    (b[4] as bv64 << 32) | (b[5] as bv64 << 40) | (b[6] as bv64 << 48) | (b[7] as bv64 << 56)
  }

  /** The bytes `Xil_Out64` puts in memory, from the lowest address up. */
  function Stored64(v: bv64): seq<bv8> {
    [Byte64(v, 0), Byte64(v, 1), Byte64(v, 2), Byte64(v, 3), Byte64(v, 4), Byte64(v, 5), Byte64(v, 6), Byte64(v, 7)]
  }

  /** The bytes `Xil_Out32` puts in memory, from the lowest address up. */
  function Stored32(w: bv32): seq<bv8> {
    [(w & 0xFF) as bv8, ((w >> 8) & 0xFF) as bv8, ((w >> 16) & 0xFF) as bv8, (w >> 24) as bv8]
  }

  /** With the swap as written, one 8-byte chunk of the program file is stored exactly as the
   *  ASCII branch stores its two words, one `Xil_Out32` each: the first word at the address,
   *  the second four bytes above. */
  lemma SwapKeepsFileWordOrder(b: seq<bv8>)
    requires |b| == 8
    ensures Stored64(EndianSwap64AsWritten(Load64(b))) == Stored32(FileWord(b[..4])) + Stored32(FileWord(b[4..]))
  {
    var v := Load64(b);
    var r := EndianSwap64AsWritten(v);
    assert Byte64(r, 0) == b[3] && Byte64(r, 1) == b[2] && Byte64(r, 2) == b[1] && Byte64(r, 3) == b[0];
    assert Byte64(r, 4) == b[7] && Byte64(r, 5) == b[6] && Byte64(r, 6) == b[5] && Byte64(r, 7) == b[4];
    StoredFileWord(b[..4]);
    StoredFileWord(b[4..]);
  }

  /** With the swap as documented, the two words of every chunk change places. */
  lemma DocumentedSwapExchangesWords(b: seq<bv8>)
    requires |b| == 8
    ensures Stored64(EndianSwap64(Load64(b))) == Stored32(FileWord(b[4..])) + Stored32(FileWord(b[..4]))
  {
    var v := Load64(b);
    var r := EndianSwap64(v);
    assert Byte64(r, 0) == b[7] && Byte64(r, 1) == b[6] && Byte64(r, 2) == b[5] && Byte64(r, 3) == b[4];
    assert Byte64(r, 4) == b[3] && Byte64(r, 5) == b[2] && Byte64(r, 6) == b[1] && Byte64(r, 7) == b[0];
    StoredFileWord(b[..4]);
    StoredFileWord(b[4..]);
  }

  /** A file word stored little-endian comes out byte-reversed. */
  lemma StoredFileWord(b: seq<bv8>)
    requires |b| == 4
    ensures Stored32(FileWord(b)) == [b[3], b[2], b[1], b[0]]
  {
  }
}
