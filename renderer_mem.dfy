/**
 * Nyuzi's own copy of the shared-memory interface
 * (sw/nyuzi_sw/software/apps/scene_viewer/shared_mem_itf.h). Nyuzi addresses memory with
 * 32 bits, so the 36-bit SMDB_ADDR is cut to its low 32 bits when the renderer uses it;
 * the hardware wrapper puts the prefix 0x4 back on every outgoing AXI access.
 */
module RendererMem {
  import SharedMem

  const SMDB_ADDR: nat := 0x4_1fff_ffe0

  const ACTION_BIT_ROTATE: nat := 0
  const ACTION_BIT_LEFT: nat := 1
  const ACTION_BIT_RIGHT: nat := 2
  const ACTION_BIT_UP: nat := 3
  const ACTION_BIT_DOWN: nat := 4

  const ActionBits: seq<nat> := [ACTION_BIT_ROTATE, ACTION_BIT_LEFT, ACTION_BIT_RIGHT, ACTION_BIT_UP, ACTION_BIT_DOWN]

  /** The renderer's `smdb_t`: the same six `uint32_t` members in the same order. */
  const SmdbLayout: seq<(SharedMem.Field, nat)> := [
    (SharedMem.ProgramFileStart, 4), (SharedMem.ProgramFileSize, 4), (SharedMem.ResourceFileStart, 4),
    (SharedMem.ResourceFileSize, 4), (SharedMem.FrameRate, 4), (SharedMem.CameraActions, 4)]

  const WORD: nat := 0x1_0000_0000

  /** The prefix the AXI wrapper adds to Nyuzi's outgoing addresses. */
  const AXI_PREFIX: nat := 0x4_0000_0000

  /** The cast to `uint32_t`: keeps the low 32 bits of an address. */
  function Truncate32(a: nat): (r: nat)
    ensures r < WORD
    ensures (a - r) % WORD == 0
    ensures a < WORD ==> r == a
  {
    a % WORD
  }

  /** The address the AXI wrapper emits for a 32-bit Nyuzi address. */
  function Widen(r: nat): (a: nat)
    requires r < WORD
    ensures AXI_PREFIX <= a < AXI_PREFIX + WORD
  {
    AXI_PREFIX + r
  }

  /** Truncating and widening again is the identity on every address of the 0x4 window. */
  lemma WidenTruncate(a: nat)
    requires AXI_PREFIX <= a < AXI_PREFIX + WORD
    ensures Widen(Truncate32(a)) == a
  {
  }

  /** The example the header gives: 0x41fffffe0 is seen as 0x1fffffe0 and maps back. */
  lemma SmdbTruncation()
    ensures Truncate32(SMDB_ADDR) == 0x1fff_ffe0
    ensures Widen(Truncate32(SMDB_ADDR)) == SharedMem.SMDB_ADDR
  {
    WidenTruncate(SMDB_ADDR);
  }

  /** Both sides agree on the action bits and on the byte offset of every `smdb_t` member. */
  lemma SidesAgree()
    ensures ActionBits == SharedMem.ActionBits
    ensures SmdbLayout == SharedMem.SmdbLayout
    ensures forall i :: 0 <= i <= |SmdbLayout| ==>
      SharedMem.OffsetOf(SmdbLayout, i) == SharedMem.OffsetOf(SharedMem.SmdbLayout, i)
  {
  }
}
