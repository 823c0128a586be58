/**
 * The controller's view of the memory shared with Nyuzi (sw/zcu102/src/shared_mem_itf.hpp):
 * the 36-bit base addresses of the memory regions, the bit positions inside the
 * `camera_actions` word and the layout of the shared memory database `smdb_t`.
 */
module SharedMem {

  const PROG_ADDR: nat := 0x4_0000_0000
  const FB0_ADDR: nat := 0x4_0020_0000
  const FB1_ADDR: nat := 0x4_0032_c000
  const FB2_ADDR: nat := 0x4_0045_8000
  const HEAP_ADDR: nat := 0x4_0060_0000
  const RES_ADDR: nat := 0x4_0500_0000
  const SMDB_ADDR: nat := 0x4_1fff_ffe0

  /** One past the last address reachable through the 0x4 prefix of Nyuzi's AXI port. */
  const WINDOW_END: nat := 0x4_2000_0000

  /** One 640x480 frame of 32-bit pixels, in bytes. */
  const FRAME_BYTES: nat := 640 * 480 * 4

  const ACTION_BIT_ROTATE: nat := 0
  const ACTION_BIT_LEFT: nat := 1
  const ACTION_BIT_RIGHT: nat := 2
  const ACTION_BIT_UP: nat := 3
  const ACTION_BIT_DOWN: nat := 4

  /** A 32-bit word that is only read and written bit by bit (`camera_actions`, and the
   *  controller's GPIO words), as the set of the positions of its 1-bits: `w |= 1 << k` is
   *  `w + {k}`, `w &= ~(1 << k)` is `w - {k}`, `w & (1 << k)` is `k in w`, and 0 is `{}`. */
  type Word = set<nat>

  /** The action bits in declaration order. */
  const ActionBits: seq<nat> := [ACTION_BIT_ROTATE, ACTION_BIT_LEFT, ACTION_BIT_RIGHT, ACTION_BIT_UP, ACTION_BIT_DOWN]

  /** The region bases from the bottom of the memory-map diagram to its top. */
  const RegionBases: seq<nat> := [PROG_ADDR, FB0_ADDR, FB1_ADDR, FB2_ADDR, HEAP_ADDR, RES_ADDR, SMDB_ADDR]

  /** The value of the single-bit mask `1 << bit`. */
  function Mask(bit: nat): (m: nat)
    ensures m > 0
  {
    if bit == 0 then 1 else 2 * Mask(bit - 1)
  }

  /** `smdb_t`'s members in declaration order, each with its width in bytes (all `u32`). */
  datatype Field = ProgramFileStart | ProgramFileSize | ResourceFileStart | ResourceFileSize | FrameRate | CameraActions

  const SmdbLayout: seq<(Field, nat)> := [
    (ProgramFileStart, 4), (ProgramFileSize, 4), (ResourceFileStart, 4),
    (ResourceFileSize, 4), (FrameRate, 4), (CameraActions, 4)]

  /** Byte offset of the `i`-th member of a packed struct: the widths of the members before it. */
  function OffsetOf(layout: seq<(Field, nat)>, i: nat): nat
    requires i <= |layout|
  {
    if i == 0 then 0 else OffsetOf(layout, i - 1) + layout[i - 1].1
  }

  /** Total size of a packed struct. */
  function SizeOf(layout: seq<(Field, nat)>): nat {
    OffsetOf(layout, |layout|)
  }

  predicate StrictlyIncreasing(s: seq<nat>) {
    forall i, j :: 0 <= i < j < |s| ==> s[i] < s[j]
  }

  /** A layout of members that are all 4 bytes wide. */
  predicate AllWords(layout: seq<(Field, nat)>) {
    forall i :: 0 <= i < |layout| ==> layout[i].1 == 4
  }

  /** In a layout of 32-bit members, the `i`-th member starts at byte `4 * i`. */
  lemma {:induction false} WordOffsets(layout: seq<(Field, nat)>, i: nat)
    requires AllWords(layout) && i <= |layout|
    ensures OffsetOf(layout, i) == 4 * i
  {
    if i > 0 {
      WordOffsets(layout, i - 1);
    }
  }

  /** Members of a packed struct never overlap: member `j` ends at or before member `k` starts. */
  lemma {:induction false} MembersDisjoint(layout: seq<(Field, nat)>, j: nat, k: nat)
    requires j < k <= |layout|
    ensures OffsetOf(layout, j) + layout[j].1 <= OffsetOf(layout, k)
  {
    if j < k - 1 {
      MembersDisjoint(layout, j, k - 1);
    }
  }

  /** The action bits are five distinct positions; their masks fit in the low five bits. */
  lemma ActionBitsDistinct()
    ensures forall i, j :: 0 <= i < j < |ActionBits| ==> ActionBits[i] != ActionBits[j]
    ensures forall i :: 0 <= i < |ActionBits| ==> ActionBits[i] < 5
  {
  }

  /** The five action masks are 1, 2, 4, 8 and 16: together they fill exactly the low five
   *  bits (0x1F) of `camera_actions`. The comment in `smdb_t` numbers the same bits from 1. */
  lemma ActionMasksFillLowBits()
    ensures forall i :: 0 <= i < |ActionBits| ==> Mask(ActionBits[i]) == Mask(i)
    ensures Mask(ACTION_BIT_ROTATE) + Mask(ACTION_BIT_LEFT) + Mask(ACTION_BIT_RIGHT)
      + Mask(ACTION_BIT_UP) + Mask(ACTION_BIT_DOWN) == 0x1F
  {
  }

  /** The regions are stacked in the order the memory-map diagram draws them. */
  lemma RegionsIncrease()
    ensures StrictlyIncreasing(RegionBases)
  {
  }

  /** Each framebuffer is exactly one frame long and the third ends at or below the heap. */
  lemma FramebufferSpacing()
    ensures FB1_ADDR - FB0_ADDR == FRAME_BYTES == 0x12C000
    ensures FB2_ADDR - FB1_ADDR == FRAME_BYTES
    ensures FB2_ADDR + FRAME_BYTES == 0x4_0058_4000 <= HEAP_ADDR
  {
  }

  /** `smdb_t` is six words: frame_rate at byte 16, camera_actions at byte 20, and the whole
   *  database, placed at SMDB_ADDR, ends inside the window Nyuzi can address. */
  lemma {:induction false} SmdbLayoutFits()
    ensures OffsetOf(SmdbLayout, 4) == 16 && SmdbLayout[4].0 == FrameRate
    ensures OffsetOf(SmdbLayout, 5) == 20 && SmdbLayout[5].0 == CameraActions
    ensures SizeOf(SmdbLayout) == 24
    ensures SMDB_ADDR + SizeOf(SmdbLayout) <= WINDOW_END
  {
    WordOffsets(SmdbLayout, 4);
    WordOffsets(SmdbLayout, 5);
    WordOffsets(SmdbLayout, 6);
  }
}
