# NyuziProcessor on the ZCU102: controller, shared memory, scene viewer and Intel HEX helper

This project models in Dafny the logic at the heart of the ZCU102 port of the Nyuzi GPGPU:

- **The controller** (`Controller`, from `sw/zcu102/src/main.cc`). The ARM side polls the push
  buttons every 10 ms and acts only when the button byte changed, and only on a rising edge,
  one button per pass in the order MIDDLE, DOWN, RIGHT, UP, LEFT. In menu mode the buttons
  walk the SD-card menu and step the selected file's mode. The middle button copies the chosen
  program and resource files into Nyuzi's memory, fills the shared database and releases
  Nyuzi's reset. In scene mode the first switch drives the rotate bit of `camera_actions`.
  The direction buttons toggle the direction bits there, one press clearing the opposite
  direction before setting its own. The middle button resets Nyuzi again. The loop is the
  class `ControlLoop`, and each method is proved against the step function `Step`. Also
  modelled are `reset`, which manipulates `reset_vector`, and `endian_swap64`.
- **The menu tree** (`MenuTree` and `MenuTreeProofs`, from `sw/zcu102/src/util.cc`). Folders
  hold files and subfolders, and at most one file is selected. Modelled are selection by
  next, previous, first and last, the cyclic seven-value `FILE_MODE`, the mode classifiers,
  the pre-order searches for the selected, program and resource file, and path building.
  Every property is stated on `Files(f)`, the pre-order list of the tree's files, which is the
  order the menu shows.
- **The shared memory** (`SharedMem`, from `sw/zcu102/src/shared_mem_itf.hpp`, and
  `RendererMem`, from `sw/nyuzi_sw/software/apps/scene_viewer/shared_mem_itf.h`). This covers
  the memory map, the `ACTION_BIT_*` positions and the layout of `smdb_t`. Nyuzi addresses
  memory with 32 bits, so the renderer cuts the 36-bit database address to 32 bits. The
  model shows that both headers agree.
- **The scene view** (`Scene`, from `SceneView.cpp`). The camera state is two angles and the
  three look-at vectors. `rotate` orbits the origin with angles wrapped into [0, 2π) and
  picks the up vector. `turn` changes the heading, `move` walks along the normalised view
  direction and `resetCamera` installs a fixed pose. `render` rotates the three framebuffers
  FB_1 → FB_2 → FB_3 → FB_1.
- **The scene viewer loop** (`SceneViewer`, from `scene_viewer.cpp`). The renderer's frame
  loop decodes `camera_actions`, with left over right and up over down. It runs the
  `rotation_mode`/`first_move` state machine and calls the view. Its cache maintenance is
  kept as an ordered trace of events.
- **The Intel HEX helper** (`IntelHex`, from `sw/nyuzi_sw/tools/misc/util.py`). It covers the
  record checksum from the "General Record Format" of Intel's Hexadecimal Object File Format
  Specification, Rev. A, the `h2s`/`s2h` conversions and the builder of the Extended Linear
  Address record.

Words that the C code only tests, sets and clears bit by bit are sets of bit positions.
These are the button byte, the switch word, `camera_actions` and `reset_vector`. Angles and
vectors are `real`. `sin`, `cos` and `Vec3::normalized` are parameters of the model (the
`Math` record), about which nothing is assumed.

## Model

| member | source | states |
|---|---|---|
| SharedMem.WordOffsets | sw/zcu102/src/shared_mem_itf.hpp:71-85 | in a struct of 32-bit members, member i starts at byte 4·i |
| SharedMem.MembersDisjoint | sw/zcu102/src/shared_mem_itf.hpp:71-85 | every member of a layout ends at or before the start of each later member, so no two members overlap |
| SharedMem.ActionBitsDistinct | sw/zcu102/src/shared_mem_itf.hpp:64-68 | the five ACTION_BIT positions are pairwise distinct and all below 5 |
| SharedMem.ActionMasksFillLowBits | sw/zcu102/src/shared_mem_itf.hpp:64-68 | the masks of the actions, in order, are the masks of bits 0..4, and together they fill exactly the low five bits (0x1F), which the comment numbers from 1 |
| SharedMem.RegionsIncrease | sw/zcu102/src/shared_mem_itf.hpp:56-62 | the region bases increase strictly: program, FB0, FB1, FB2, heap, resource, database |
| SharedMem.FramebufferSpacing | sw/zcu102/src/shared_mem_itf.hpp:57-60 | consecutive framebuffers are one 640·480·4 = 0x12C000-byte frame apart, and the third one ends at 0x400584000, at or below HEAP_ADDR |
| SharedMem.SmdbLayoutFits | sw/zcu102/src/shared_mem_itf.hpp:62-85 | frame_rate lies at offset 16 and camera_actions at offset 20; the database is 24 bytes and ends below 0x420000000 |
| RendererMem.Truncate32 | sw/nyuzi_sw/software/apps/scene_viewer/shared_mem_itf.h:12-14 | the 32-bit cast yields a value below 2^32 that is congruent to the address modulo 2^32, and leaves 32-bit addresses unchanged |
| RendererMem.WidenTruncate | sw/nyuzi_sw/software/apps/scene_viewer/shared_mem_itf.h:12-15 | adding the AXI prefix 0x4 back after the cast recovers every address of the 0x4_0000_0000 window |
| RendererMem.SmdbTruncation | sw/nyuzi_sw/software/apps/scene_viewer/shared_mem_itf.h:12-16 | SMDB_ADDR is seen by Nyuzi as 0x1fffffe0, and the prefix maps it back to the controller's 0x41fffffe0 |
| RendererMem.SidesAgree | sw/nyuzi_sw/software/apps/scene_viewer/shared_mem_itf.h:18-39 | the renderer's action bits and its smdb_t layout equal the controller's, so every member has the same byte offset on both sides |
| Controller.DirectionEdge | sw/zcu102/src/main.cc:26-30 | a reported direction button has a rising edge (set now, clear before) and no direction of higher priority has one; no report means no direction button rose |
| Controller.EdgeButton | sw/zcu102/src/main.cc:149-206 | the button acted on rises, and no button of higher priority (MIDDLE, DOWN, RIGHT, UP, LEFT) rises; none is acted on iff no button rises |
| Controller.SyncRotate | sw/zcu102/src/main.cc:138-147 | after the switch check the rotate bit is set iff switch 0 is off, and every other bit of camera_actions is unchanged |
| Controller.Press | sw/zcu102/src/main.cc:155-167 | a press sets its own bit iff neither its own nor the opposite bit was set, leaves the opposite bit set only if both were set, and changes no other bit |
| Controller.PressKeepsExclusive | sw/zcu102/src/main.cc:155-206 | if UP and DOWN, and LEFT and RIGHT, are not both set before a direction press, they are not both set after it |
| Controller.PressTwice | sw/zcu102/src/main.cc:155-206 | from neither bit set, one press sets exactly the button's own direction and a second press restores the word |
| Controller.AfterReset | sw/zcu102/src/main.cc:294-308 | after reset, NYUZI is raised, VGA, AXI and AXI_INTER are clear, DDR4 and every other bit are unchanged |
| Controller.ResetFromPowerOn | sw/zcu102/src/main.cc:62 | from the initial reset_vector 0, reset leaves only the NYUZI reset asserted |
| Controller.StartNyuzi | sw/zcu102/src/main.cc:255-261 | starting Nyuzi clears the NYUZI bit and changes no other bit |
| Controller.StepOnlyOnChange | sw/zcu102/src/main.cc:111 | a pass whose button byte equals the last one changes nothing, and every pass records the button byte as the last one |
| Controller.SceneRotateFollowsSwitch | sw/zcu102/src/main.cc:132-206 | in scene mode, without a middle edge, Nyuzi keeps running; the rotate bit then follows the switch, and camera_actions is the synced word updated by the press of the direction edge of highest priority, if any |
| Controller.SceneMiddleStops | sw/zcu102/src/main.cc:149-154 | a middle edge in scene mode stops Nyuzi, resets reset_vector and leaves program_loaded unchanged |
| Controller.StepKeepsExclusive | sw/zcu102/src/main.cc:110-285 | no pass of the loop sets both opposite directions of camera_actions if they were not both set before |
| Controller.StepStartsOnlyLoaded | sw/zcu102/src/main.cc:213-263 | Nyuzi runs only with a program loaded; it starts only on a middle edge, and then only the NYUZI reset bit is cleared |
| Controller.Remount | sw/zcu102/src/main.cc:111-122 | the detection step changes only the card status and the tree; the tree is kept unless the card needs a reset, and is empty when the remount does not mount the card |
| Controller.SceneStep | sw/zcu102/src/main.cc:132-207 | the scene-mode branch changes only camera_actions, reset_vector and the running flag, and the latter two only on a rising middle edge |
| Controller.LoadProgram | sw/zcu102/src/main.cc:214-234 | the program copy keeps the menu, the flags of Nyuzi and frame_rate; a failed copy leaves no program loaded and the card in error, and a successful copy of a chosen program marks it loaded with the card status kept |
| Controller.LoadResource | sw/zcu102/src/main.cc:236-254 | the resource copy keeps the menu, the flags of Nyuzi and frame_rate; a failed copy leaves no program loaded and the card in error, and with no resource file or a successful copy the loaded flag and the card status are kept; a successful copy of a chosen resource file records (u32)RES_ADDR and the size in the database and changes nothing else there |
| Controller.Launch | sw/zcu102/src/main.cc:213-261 | the middle button in menu mode keeps the menu, the last button byte and frame_rate; the card status either stays or becomes unknown, and when a write failed nothing is loaded and Nyuzi is neither started nor stopped; when the program is copied, and the resource file too if one is chosen, the program is loaded, Nyuzi runs and only the NYUZI reset bit is released |
| Controller.MenuStep | sw/zcu102/src/main.cc:208-280 | without a middle edge on a mounted card only the tree can change, and without a direction edge as well nothing changes |
| Controller.Step | sw/zcu102/src/main.cc:110-285 | every pass records the button byte as the last one and never changes frame_rate, which only the renderer writes |
| Controller.LaunchStartsOnlyLoaded | sw/zcu102/src/main.cc:255-260 | a launch from a stopped state marks Nyuzi running only when a program was loaded, and then releases only the NYUZI bit of the reset vector |
| Controller.MenuProgramWrite | sw/zcu102/src/main.cc:213-234 | on a middle edge with the card mounted and a program chosen: a write of size ≤ 0 leaves no program loaded, Nyuzi stopped and the card in error; a positive size records address 0 and that size and clears camera_actions; Nyuzi is then started with the program loaded, unless a chosen resource file fails to copy, which leaves no program loaded, Nyuzi stopped and the card in error; a successful resource copy records resource_fil_st_addr = 0x05000000 and its size |
| Controller.MenuMovesSelection | sw/zcu102/src/main.cc:264-275 | in menu mode, with exactly one file selected: a DOWN edge runs increaseSelection as written, after which exactly one file is selected, either a later one or the first (the corrected next-file step is MenuTreeProofs.IncreaseAtRoot); an UP edge selects exactly the previous file, wrapping to the last |
| Controller.ControlLoop.constructor | sw/zcu102/src/main.cc:82-107 | the set-up leaves the state Initial: reset applied to 0, both flags false, no button seen and the card's first file selected when it mounted |
| Controller.ControlLoop.Reset | sw/zcu102/src/main.cc:294-308 | the method changes reset_vector as AfterReset says and nothing else |
| Controller.ControlLoop.PressDirection | sw/zcu102/src/main.cc:155-206 | the read-modify-write of camera_actions is Press on the stored word; nothing else changes |
| Controller.ControlLoop.Detect | sw/zcu102/src/main.cc:111-122 | the detection step is Remount: when the card needs a reset, the tree is rebuilt and its first file selected; otherwise only the status changes |
| Controller.ControlLoop.SceneTick | sw/zcu102/src/main.cc:132-207 | the scene-mode branch performs SceneStep |
| Controller.ControlLoop.LaunchTick | sw/zcu102/src/main.cc:213-263 | the middle-button branch of menu mode performs Launch |
| Controller.ControlLoop.MenuTick | sw/zcu102/src/main.cc:208-280 | the menu-mode branch performs MenuStep: a middle edge on a mounted card launches, otherwise the direction edge of highest priority calls increaseSelection as written, increaseFileMode, decreaseSelection or decreaseFileMode on the tree |
| Controller.ControlLoop.Tick | sw/zcu102/src/main.cc:110-285 | one pass of the loop as written performs Step, the function about which the lemmas above are proved (StepOnlyOnChange, StepKeepsExclusive, StepStartsOnlyLoaded, MenuMovesSelection) |
| Controller.EndianSwap64AsWritten | sw/zcu102/src/main.cc:439-452 | the code reverses the bytes within each 32-bit half but keeps the halves in place |
| Controller.SwapKeepsFileWordOrder | sw/zcu102/src/main.cc:396-405 | for the eight bytes write_file reads, the code swap stores the first big-endian file word at the lower address and the second one above it, each as a little-endian word, so the file's word order is kept |
| Controller.DocumentedSwapExchangesWords | sw/zcu102/src/main.cc:433-437 | the documented full reversal would instead store the second file word at the lower address and the first one above it |
| Controller.EndianSwap64AsWrittenInvolution | sw/zcu102/src/main.cc:439-452 | the swap as written, applied twice, gives back the value |
| Controller.EndianSwap64 | sw/zcu102/src/main.cc:433-437 | the swap as documented: byte i of the result is byte 7−i of the argument |
| Controller.EndianSwapExample | sw/zcu102/src/main.cc:437-452 | the documented example 0x0123456789ABCDEF gives 0x67452301EFCDAB89 as written, not the documented 0xEFCDAB8967452301, which the documented swap gives |
| Controller.EndianSwap64Involution | sw/zcu102/src/main.cc:433-437 | the documented swap, applied twice, gives back the value |
| MenuTree.NextMode | sw/zcu102/src/util.cc:364-379 | the next mode is one step forward in the seven-value FILE_MODE cycle, wrapping PROG_RES_ASCII to NOTHING |
| MenuTree.PrevMode | sw/zcu102/src/util.cc:342-357 | the previous mode is one step back in the cycle, wrapping NOTHING to PROG_RES_ASCII |
| MenuTree.ModeStepsInverse | sw/zcu102/src/util.cc:342-379 | a step back undoes a step forward and vice versa |
| MenuTree.ClassifiersDecodeMode | sw/zcu102/src/util.cc:34-71 | NOTHING is neither program nor resource nor ASCII; every other mode is the only one with its (program, resource, ascii) answers, and every combination that names a program or a resource is some mode |
| MenuTree.SelectFirst | sw/zcu102/src/util.cc:387-401 | selectFirstElement returns OK or NOT_FOUND, returns OK whenever the folder has a file of its own, and changes nothing with NOT_FOUND |
| MenuTree.SelectLast | sw/zcu102/src/util.cc:409-425 | selectLastElement returns OK or NOT_FOUND, returns OK whenever the folder has a file of its own, and changes nothing with NOT_FOUND |
| MenuTree.IncreaseSelectionAsWritten | sw/zcu102/src/util.cc:277-335 | increaseSelection as written never returns FIRST_ELEMENT, and on the root never LAST_ELEMENT |
| MenuTree.IncreaseSelection | sw/zcu102/src/util.cc:277-335 | the corrected increaseSelection never returns FIRST_ELEMENT, and on the root never LAST_ELEMENT |
| MenuTree.DecreaseSelection | sw/zcu102/src/util.cc:214-270 | decreaseSelection never returns LAST_ELEMENT, and on the root never FIRST_ELEMENT |
| MenuTree.IncreaseFileMode | sw/zcu102/src/util.cc:364-379 | increaseFileMode returns OK or NOT_FOUND, and changes nothing with NOT_FOUND |
| MenuTree.DecreaseFileMode | sw/zcu102/src/util.cc:342-357 | decreaseFileMode returns OK or NOT_FOUND, and changes nothing with NOT_FOUND |
| MenuTree.FolderPath | sw/zcu102/src/util.cc:139-147 | a folder's path starts with the root's name and "/" and ends with "/" |
| MenuTree.FilePath | sw/zcu102/src/util.cc:21-29 | a file's path starts with the root's name and "/" and ends with "/" followed by the file's name |
| MenuTree.FirstMatch | sw/zcu102/src/util.cc:76-92 | the result is the first position from `from` whose file matches; none means no file there matches |
| MenuTree.Find | sw/zcu102/src/util.cc:76-134 | a found location is valid and its file matches the predicate |
| MenuTreeProofs.FindSpec | sw/zcu102/src/util.cc:76-134 | the search for the selected, program or resource file fails iff no file of the subtree matches, and otherwise finds the first match in pre-order (a folder's own files before its subfolders) |
| MenuTreeProofs.FlatIndexSpec | sw/zcu102/src/util.cc:76-134 | a location names the file at its pre-order position |
| MenuTreeProofs.WithFileAtSpec | sw/zcu102/src/util.cc:342-379 | updating the file at a location changes the pre-order list at exactly that position and keeps the tree's shape |
| MenuTreeProofs.IncreaseFileModeSpec | sw/zcu102/src/util.cc:364-379 | with no selected file: NOT_FOUND and the tree unchanged; otherwise OK, and only the first selected file's mode changes, one step forward |
| MenuTreeProofs.DecreaseFileModeSpec | sw/zcu102/src/util.cc:342-357 | with no selected file: NOT_FOUND and the tree unchanged; otherwise OK, and only the first selected file's mode changes, one step back |
| MenuTreeProofs.DecreaseUndoesIncrease | sw/zcu102/src/util.cc:342-379 | decreaseFileMode after increaseFileMode gives back the tree |
| MenuTreeProofs.IncreaseUndoesDecrease | sw/zcu102/src/util.cc:342-379 | increaseFileMode after decreaseFileMode gives back the tree |
| MenuTreeProofs.TreeDetermined | sw/zcu102/src/util.cc:76-134 | a tree is determined by its shape and its pre-order file list, so the list-level statements describe the whole tree |
| MenuTreeProofs.SelectFirstSpec | sw/zcu102/src/util.cc:387-401 | an empty subtree gives NOT_FOUND and no change; otherwise OK, the first file in pre-order is selected and nothing else changes |
| MenuTreeProofs.SelectLastSpec | sw/zcu102/src/util.cc:409-425 | an empty subtree gives NOT_FOUND and no change; otherwise OK, the last file in pre-order is selected and nothing else changes |
| MenuTreeProofs.IncreaseSpec | sw/zcu102/src/util.cc:277-335 | with exactly file k selected, the corrected increaseSelection moves the selection to k+1, wraps to the first file at the root, and below the root unselects the last file and returns LAST_ELEMENT |
| MenuTreeProofs.IncreaseAtRoot | sw/zcu102/src/util.cc:277-335 | on the root, the corrected increaseSelection returns OK with exactly the next file selected, wrapping to the first |
| MenuTreeProofs.IncreaseAsWrittenSpec | sw/zcu102/src/util.cc:277-335 | as written, increaseSelection keeps the shape and either moves the single selection to some later file, wraps at the root, or unselects it with LAST_ELEMENT below the root |
| MenuTreeProofs.IncreaseAsWrittenAtRoot | sw/zcu102/src/util.cc:277-335 | as written, on the root exactly one file stays selected: a later one, or the first |
| MenuTreeProofs.IncreaseSkipsAfterEmptyFolder | sw/zcu102/src/util.cc:315-331 | with folders A{a}, B{}, C{c} under the root and a selected, increaseSelection as written returns OK with a selected again, so c is never reached |
| MenuTreeProofs.IncreaseReachesAfterEmptyFolder | sw/zcu102/src/util.cc:315-331 | on the same tree the corrected increaseSelection selects c |
| MenuTreeProofs.DecreaseSpec | sw/zcu102/src/util.cc:214-270 | with exactly file k selected, decreaseSelection moves the selection to k−1, wraps to the last file at the root, and below the root unselects the first file and returns FIRST_ELEMENT |
| MenuTreeProofs.DecreaseAtRoot | sw/zcu102/src/util.cc:214-270 | on the root, decreaseSelection returns OK with exactly the previous file selected, wrapping to the last |
| MenuTreeProofs.FolderPathOfChild | sw/zcu102/src/util.cc:139-147 | a subfolder's path is its parent's path followed by its name and "/" |
| MenuTreeProofs.FilePathOfFile | sw/zcu102/src/util.cc:21-29 | a file's path is its folder's path followed by the file's name |
| Scene.Wrap | sw/nyuzi_sw/software/apps/scene_viewer/SceneView.cpp:217-222 | one correction by 2π brings every angle in [−2π, 4π) into [0, 2π) and leaves angles already there unchanged |
| Scene.Rotated | sw/nyuzi_sw/software/apps/scene_viewer/SceneView.cpp:194-237 | after rotate the camera looks at the origin, with the up vector chosen from the new fPsi |
| Scene.Turned | sw/nyuzi_sw/software/apps/scene_viewer/SceneView.cpp:259-280 | turn keeps fPsi, the location and the up vector, and keeps fTheta in [0, 2π) for an angle in [0, 2π) |
| Scene.WrapSpec | sw/nyuzi_sw/software/apps/scene_viewer/SceneView.cpp:202-222 | wrapping keeps the angle modulo 2π, brings every angle in [−2π, 4π) into [0, 2π), and leaves angles already there unchanged |
| Scene.RotateSpec | sw/nyuzi_sw/software/apps/scene_viewer/SceneView.cpp:194-237 | RIGHT adds and LEFT subtracts delta from fTheta, UP adds and DOWN subtracts it from fPsi, modulo 2π, and other directions keep the angle; angles stay in [0, 2π) for 0 ≤ delta < 2π; the camera sits on the orbit and looks at the origin; up is (0,1,0) iff fPsi < π/2 or ≥ 3π/2, else (0,−1,0) |
| Scene.TurnSpec | sw/nyuzi_sw/software/apps/scene_viewer/SceneView.cpp:259-280 | RIGHT subtracts and LEFT adds the angle, modulo 2π; fTheta stays in [0, 2π), and an angle of 0 keeps it; the look-at point becomes the heading at height CAMERA_DISTANCE_OFFSET; nothing else changes |
| Scene.Moved | sw/nyuzi_sw/software/apps/scene_viewer/SceneView.cpp:244-252 | a move changes only the location, and only for UP or DOWN |
| Scene.MoveUpThenDown | sw/nyuzi_sw/software/apps/scene_viewer/SceneView.cpp:244-252 | moving up and then down by the same step restores the camera |
| Scene.TurnOppositeToRotate | sw/nyuzi_sw/software/apps/scene_viewer/SceneView.cpp:196-208 | turning right gives the fTheta of rotating left, and turning left that of rotating right |
| Scene.ResetPoseConsistent | sw/nyuzi_sw/software/apps/scene_viewer/SceneView.cpp:285-293 | the reset pose has both angles in range, the up vector rotate would choose for its fPsi, and the origin as look-at point |
| Scene.NextFb | sw/nyuzi_sw/software/apps/scene_viewer/SceneView.cpp:147-165 | the next render target is FB_NULL iff the current one is, and otherwise differs from it |
| Scene.Shown | sw/nyuzi_sw/software/apps/scene_viewer/SceneView.cpp:147-165 | switch_fb shows the current buffer, never the next render target, and nothing when the current one is FB_NULL |
| Scene.FbCycle | sw/nyuzi_sw/software/apps/scene_viewer/SceneView.cpp:147-165 | starting from a real buffer, renders never reach FB_NULL and return to the same buffer every 3 renders |
| Scene.SceneView.constructor | sw/nyuzi_sw/software/apps/scene_viewer/SceneView.cpp:21-37 | a new view has both angles 0.1, every look-at vector the origin except up (0,1,0), FB_1 as current buffer and no render target |
| Scene.SceneView.Start | sw/nyuzi_sw/software/apps/scene_viewer/SceneView.cpp:104-119 | start leaves the camera in the reset pose and targets colour buffer 1 |
| Scene.SceneView.Render | sw/nyuzi_sw/software/apps/scene_viewer/SceneView.cpp:142-186 | render shows the old current buffer, advances the cycle, targets the new buffer, which is not the one shown, and keeps the camera |
| Scene.SceneView.Rotate | sw/nyuzi_sw/software/apps/scene_viewer/SceneView.cpp:194-237 | the camera after rotate is Rotated of the camera before, whose properties RotateSpec states; the buffers are unchanged |
| Scene.SceneView.RotateTheta | sw/nyuzi_sw/software/apps/scene_viewer/SceneView.cpp:196-208 | only fTheta changes: stepped by delta for LEFT or RIGHT, then wrapped |
| Scene.SceneView.RotatePsi | sw/nyuzi_sw/software/apps/scene_viewer/SceneView.cpp:210-222 | only fPsi changes: stepped by delta for UP or DOWN, then wrapped |
| Scene.SceneView.Move | sw/nyuzi_sw/software/apps/scene_viewer/SceneView.cpp:244-252 | the camera after move is Moved of the camera before; the buffers are unchanged |
| Scene.SceneView.Turn | sw/nyuzi_sw/software/apps/scene_viewer/SceneView.cpp:259-280 | the camera after turn is Turned of the camera before, whose properties TurnSpec states; the buffers are unchanged |
| Scene.SceneView.ResetCamera | sw/nyuzi_sw/software/apps/scene_viewer/SceneView.cpp:285-293 | whatever the state before, the camera is the reset pose (so resetting twice is resetting once); the buffers are unchanged |
| SceneViewer.Horizontal | sw/nyuzi_sw/software/apps/scene_viewer/scene_viewer.cpp:66-71 | LEFT iff the left bit is set; RIGHT iff the right bit is set and the left bit is not; NONE iff neither |
| SceneViewer.Vertical | sw/nyuzi_sw/software/apps/scene_viewer/scene_viewer.cpp:72-77 | UP iff the up bit is set; DOWN iff the down bit is set and the up bit is not; NONE iff neither |
| SceneViewer.MovementCalls | sw/nyuzi_sw/software/apps/scene_viewer/scene_viewer.cpp:88-109 | the movement branch turns first when a horizontal direction is set, walks last when a vertical one is set, only walks then, and precedes the very first walk by turn(LEFT, 0); first_move stays armed iff it was and no direction was set |
| SceneViewer.FrameCalls | sw/nyuzi_sw/software/apps/scene_viewer/scene_viewer.cpp:64-110 | with the rotate bit set the frame makes exactly one rotate call, even with no direction, and enters rotation mode; with it clear it never rotates, leaves rotation mode, and resets the camera exactly once, first, iff it was in rotation mode |
| SceneViewer.FrameAsWritten | sw/nyuzi_sw/software/apps/scene_viewer/scene_viewer.cpp:45-109 | as written, first_move is never armed again once it is spent |
| SceneViewer.Frame | sw/nyuzi_sw/software/apps/scene_viewer/scene_viewer.cpp:82-109 | the corrected frame differs from the written one only when leaving rotation mode, where first_move is re-armed unless a direction is used in that frame |
| SceneViewer.ApplyAppend | sw/nyuzi_sw/software/apps/scene_viewer/scene_viewer.cpp:64-110 | running two call sequences in turn is running their concatenation |
| SceneViewer.FrameMovesAlongHeading | sw/nyuzi_sw/software/apps/scene_viewer/scene_viewer.cpp:82-109 | with the corrected frame, every move of every frame starts from a camera with a heading, and the invariant carries over to the next frame |
| SceneViewer.StartHasHeading | sw/nyuzi_sw/software/apps/scene_viewer/scene_viewer.cpp:40-46 | the invariant holds when the loop starts after start() |
| SceneViewer.FrameAsWrittenWalksFromOrigin | sw/nyuzi_sw/software/apps/scene_viewer/scene_viewer.cpp:82-109 | as written, UP, then ROTATE, then UP makes the third frame reset the camera and walk while it looks at the origin, without the zero turn |
| SceneViewer.FrameWalksAlongHeadingAfterRotation | sw/nyuzi_sw/software/apps/scene_viewer/scene_viewer.cpp:82-109 | with the corrected frame the same inputs reset, turn by 0 and then walk along a heading |
| SceneViewer.InvalidateEventsSpec | sw/nyuzi_sw/software/apps/scene_viewer/scene_viewer.cpp:124-129 | invalidate_cache invalidates exactly the addresses start+i for i = 0, 4, … below size, each once and in increasing order, then issues one barrier |
| SceneViewer.StartupCoversDatabase | sw/nyuzi_sw/software/apps/scene_viewer/scene_viewer.cpp:37-38 | sizeof(smdb_t) is 24, and the start-up invalidation covers all six members of the database |
| SceneViewer.InvalidateCache | sw/nyuzi_sw/software/apps/scene_viewer/scene_viewer.cpp:124-129 | the loop emits the events InvalidateEventsSpec describes |
| SceneViewer.FrameLoop.constructor | sw/nyuzi_sw/software/apps/scene_viewer/scene_viewer.cpp:37-46 | after set-up the database is invalidated, the view is started (reset pose, target FB_1) and both flags have their initial values |
| SceneViewer.FrameLoop.Tick | sw/nyuzi_sw/software/apps/scene_viewer/scene_viewer.cpp:48-110 | one frame appends render, frame-rate write (the rendering time cut to the 32 bits of frame_rate), flush, invalidate, barrier and read to the trace in that order, advances the framebuffers, and moves the camera and the flags as FrameAsWritten says, and targets the new current buffer (the old target when the current buffer is FB_NULL) |
| SceneViewer.FrameLoop.RotationBranch | sw/nyuzi_sw/software/apps/scene_viewer/scene_viewer.cpp:64-80 | with the rotate bit set, the camera and flags change as FrameAsWritten says and the trace is unchanged; the framebuffers, current and render target, are unchanged |
| SceneViewer.FrameLoop.MovementBranch | sw/nyuzi_sw/software/apps/scene_viewer/scene_viewer.cpp:81-110 | with the rotate bit clear, the camera and flags change as FrameAsWritten says (first_move is not re-armed) and the trace is unchanged; the framebuffers, current and render target, are unchanged |
| SceneViewer.FrameLoop.TurnAndWalk | sw/nyuzi_sw/software/apps/scene_viewer/scene_viewer.cpp:88-109 | the turn and walk change the camera and first_move as MovementCalls says; the framebuffers, current and render target, are unchanged |
| SceneViewer.FrameLoop.TurnStep | sw/nyuzi_sw/software/apps/scene_viewer/scene_viewer.cpp:88-95 | left wins over right; any turn spends first_move; no horizontal bit leaves the camera as it was; the framebuffers, current and render target, are unchanged |
| SceneViewer.FrameLoop.WalkStep | sw/nyuzi_sw/software/apps/scene_viewer/scene_viewer.cpp:97-108 | one walk makes the zero turn first iff first_move is armed, then the move; first_move ends spent, and the framebuffers are unchanged |
| SceneViewer.FrameLoop.WalkOrStay | sw/nyuzi_sw/software/apps/scene_viewer/scene_viewer.cpp:96-109 | up wins over down; a walk is preceded by the zero turn while first_move is armed and spends it; no vertical bit leaves the camera as it was; the framebuffers, current and render target, are unchanged |
| IntelHex.H2s | sw/nyuzi_sw/tools/misc/util.py:25-26 | format(v, '02X') gives uppercase hex digits, exactly two for a byte, and a leading '-' exactly for negative values |
| IntelHex.H2sRoundTrip | sw/nyuzi_sw/tools/misc/util.py:25-30 | reading back what h2s wrote gives the value, for every integer |
| IntelHex.H2sReadsBytes | sw/nyuzi_sw/tools/misc/util.py:25-30 | every byte is written as two digits that s2h reads back as the byte |
| IntelHex.S2h | sw/nyuzi_sw/tools/misc/util.py:29-30 | int(s, 16) succeeds iff s is non-empty and, after an optional sign, a non-empty run of hexadecimal digits; a negative result needs a leading '-' |
| IntelHex.ChecksumOf | sw/nyuzi_sw/tools/misc/util.py:5-22 | the checksum exists iff the digit groups are readable, is below 256, and added to the sum of the groups gives 0 modulo 256 |
| IntelHex.ElaFrame | sw/nyuzi_sw/tools/misc/util.py:33-46 | the Extended Linear Address record starts with ':', has record type "04" at characters 7-8 and ends with a newline |
| IntelHex.Complement | sw/nyuzi_sw/tools/misc/util.py:22 | the checksum expression is below 256, equals (256 − sum mod 256) mod 256, and added to the sum gives 0 modulo 256 |
| IntelHex.GroupsSplit | sw/nyuzi_sw/tools/misc/util.py:14-19 | summing the digit groups taken from the right is additive over an even-length split, so the groups are fixed pairs counted from the end |
| IntelHex.GroupStep | sw/nyuzi_sw/tools/misc/util.py:14-19 | adding one group, two digits or the odd leading one next to the record mark, adds its value, and an unreadable group makes the whole sum unreadable |
| IntelHex.Checksum | sw/nyuzi_sw/tools/misc/util.py:5-22 | the loop skips the record mark, sums the groups from the right end, and returns ChecksumOf the frame (none when a group is not hexadecimal) |
| IntelHex.GroupsOfBytes | sw/nyuzi_sw/tools/misc/util.py:14-19 | the groups of the two-digit encoding of a byte list sum to the sum of the bytes |
| IntelHex.ChecksumOfRecord | sw/nyuzi_sw/tools/misc/util.py:5-22 | for a record ':' followed by the two-digit bytes, the checksum is the two's complement of the byte sum, so record and checksum sum to 0 modulo 256 |
| IntelHex.ElaFrameValue | sw/nyuzi_sw/tools/misc/util.py:33-46 | for bytes h and l the builder returns ":02000004", h and l in two digits each, the checksum of 6 + h + l, and a newline |
| IntelHex.ElaFrameSpec | sw/nyuzi_sw/tools/misc/util.py:33-46 | the Extended Linear Address record is 16 characters, and its bytes 02, 00, 00, 04, h, l and checksum sum to 0 modulo 256 |
| IntelHex.ElaFrameExample | sw/nyuzi_sw/tools/misc/util.py:33-46 | the record for base address 0x0000 is ":020000040000FA" and a newline |

## Left out

- SD card and files: sdcard.cc, `sdcard_detect`, `sdcard_init`, `sdcard_load` and
  `write_file` (main.cc:362-419) read the card. Their results on one pass (the status, the
  tree read and the number of bytes written) are the fields of `Controller.Inputs`.
- GPIO, interrupts and timing: `init` (main.cc:314-351), `usleep` and the `XGpio_*` writes
  are hardware plumbing. `interrupt_handler` (main.cc:425-431) only stores the button byte,
  which is `Inputs.pressed`. The handler can run at any point of a pass, while `main` reads the
  plain `u8` `button_pressed` several times (main.cc:111, 149-194 or 213-276, and 282). A byte
  that changes between those reads can make a pass act on one byte and record another as
  `button_pressed_last`, losing an edge. The model takes one byte per pass and assumes it
  stable for the whole pass. The constant written to the reset port at main.cc:297 is a
  hardware side effect. Only the variable `reset_vector` is modelled.
- `Xil_In32BE`/`Xil_Out32BE` are treated as plain reads and writes of `camera_actions`,
  because the controller only reads back what it wrote itself. The byte order in which the
  renderer then sees `camera_actions` is not modelled. The controller writes it big-endian
  (main.cc:142, 146, 166, 179, 192, 205, 231), and the renderer reads it with a plain load
  (scene_viewer.cpp:62). Both sides are modelled as sharing the same set of bits. `Xil_EndianSwap32` is given
  its documented meaning, a reversal of the four bytes (`Controller.EndianSwap32`).
- Printing: `printMenu`, `printDirectory` (util.cc:156-207), `xil_printf`, the logger and the
  frame counter's `printf` in scene_viewer.cpp:112-114 produce output only.
- Controller words: the button byte, the switches, `camera_actions` and `reset_vector` are
  32-bit words in the source. Here they are sets of bit positions. Every operation on them is
  a single-bit test, set or clear, so each word is determined by its set.
- The menu tree: util.cc updates `is_selected` and `file_mode` in place through pointers,
  and each folder has a parent pointer. Here the tree is a value. Every operation returns the
  new tree with its status, and "this folder has no parent" is the parameter `atRoot`.
  Aliasing between folders does not arise in the model. The loops over `files` and
  `subfolders` are recursions over the same indices in the same order.
- Rendering and numerics: mesh and texture loading, bounding boxes, the drawing part of
  `render`, projection matrices and `clock()` timing are out of scope. The rendering time
  `render` returns is an input of `SceneViewer.FrameLoop.Tick`; its store into the 32-bit
  `frame_rate` keeps the low 32 bits (`RendererMem.Truncate32`). `sin`, `cos` and `normalized`
  are uninterpreted parameters. Angles and vectors are exact reals, without float rounding.
- Cache coherence: `dflush`, `dinvalidate` and `membar` matter only for visibility between
  the two processors. They are kept as the order of events in a trace, and concurrency is not
  modelled.
- The worker threads of scene_viewer.cpp:32-34 and 42 (`worker_thread`,
  `start_all_threads`) only help render.
- `loadImports` in util.py and hex2bin.py are file-system scripts.
- IntelHex.S2h: models `int(s, 16)` on strings of ASCII hexadecimal digits with an optional
  sign. The checksum loop only passes groups of one or two characters, where a `0x` prefix
  or an underscore cannot form a number. Surrounding whitespace and non-ASCII digits, which
  Python also accepts, are not modelled.
- IntelHex.Checksum: a group that is not hexadecimal raises an exception in Python; here the
  result is `None`.
- SceneViewer.InvalidateCache: requires `size <= 0xFFFF_FFFC`. With a larger size the
  `uint32_t` counter wraps and the source's loop never ends. The only call uses 24.

## Findings

| source | as written | input that shows it | evidently intended | confidence | as-written member | corrected member |
|---|---|---|---|---|---|---|
| sw/zcu102/src/main.cc:433-452 | the code contradicts its doc comment: `endian_swap64` byte-swaps each 32-bit half but keeps the halves in place. write_file (main.cc:396-405) relies on the code, which keeps the order of the big-endian file words that hex2bin.py writes, so the comment is the likelier error | 0x0123456789ABCDEF gives 0x67452301EFCDAB89 | as documented: 0xEFCDAB8967452301, the full 8-byte reversal, which would exchange the two words of every 8-byte chunk | low; not executed | Controller.EndianSwap64AsWritten, Controller.EndianSwapExample, Controller.SwapKeepsFileWordOrder | Controller.EndianSwap64, Controller.EndianSwap64Involution, Controller.DocumentedSwapExchangesWords |
| sw/zcu102/src/util.cc:315-331 | after subfolder i reports LAST_ELEMENT, `increaseSelection` tries `selectFirstElement` on subfolder i+1 only; if that one is empty it gives up on the later subfolders and wraps (root) or reports LAST_ELEMENT | folders A{a}, B{}, C{c} under the root with a selected: DOWN wraps back to a, so c is never reached. The controller (`Controller.MenuStep`) calls the function as written | try the later subfolders in turn, as the loop at util.cc:286-290 does after a folder's own last file | high; not executed | MenuTree.IncreaseSelectionAsWritten, MenuTreeProofs.IncreaseSkipsAfterEmptyFolder | MenuTree.IncreaseSelection, MenuTreeProofs.IncreaseSpec, MenuTreeProofs.IncreaseReachesAfterEmptyFolder |
| sw/nyuzi_sw/software/apps/scene_viewer/scene_viewer.cpp:46 | `first_move` is cleared by the first turn or move and never set again, although leaving rotation mode calls `resetCamera`, which puts the look-at point back at the origin | UP, then ROTATE, then UP: the third frame resets and moves along normalized((0,0,0)) without the zero turn. The frame loop class (`SceneViewer.FrameLoop`) follows the code as written | leaving rotation mode arms `first_move` again, so the next walk is preceded by `turn(DIR_LEFT, 0)` | medium; not executed | SceneViewer.FrameAsWritten, SceneViewer.FrameAsWrittenWalksFromOrigin | SceneViewer.Frame, SceneViewer.FrameMovesAlongHeading |
