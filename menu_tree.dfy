/**
 * The controller's SD-card menu (sw/zcu102/src/util.hpp, util.cc): a tree of folders
 * holding files. At most one file is selected; each file carries a FILE_MODE saying
 * whether it is loaded as the program, as the resource data, or both, in binary or ASCII.
 *
 * The C++ tree is linked by parent pointers and updated in place. Here it is a value:
 * every operation returns the updated tree together with its S_STATUS, and the test
 * `parent == nullptr` ("this is the root folder") becomes the parameter `atRoot`.
 * A pointer to a file becomes a location: the subfolder indices leading to its folder
 * and its index among that folder's files.
 *
 * The properties are stated on the pre-order list of files, Files(f) (a folder's own
 * files, then those of each subfolder in order), which is the order in which the menu
 * lists them and in which every search of util.cc visits them.
 */
module MenuTree {
  import opened Wrappers

  datatype Status = NotFound | Ok | LastElement | FirstElement

  datatype FileMode = Nothing | ResBin | ResAscii | ProgBin | ProgAscii | ProgResBin | ProgResAscii

  datatype File = File(name: string, size: nat, selected: bool, mode: FileMode)

  datatype Folder = Folder(name: string, files: seq<File>, subfolders: seq<Folder>)

  /** What a selection operation returns: the updated tree and the S_STATUS. */
  datatype Outcome = Outcome(tree: Folder, status: Status)

  /** A file's position: the subfolder indices from the root, then the file index. */
  datatype Loc = Loc(dirs: seq<nat>, index: nat)

  // ---------------------------------------------------------------------------
  // FILE_MODE and its classifiers
  // ---------------------------------------------------------------------------

  /** The enumerator's integer value, as `(int)file_mode` gives it. */
  function Ordinal(m: FileMode): (k: nat)
    ensures k < 7
  {
    match m
    case Nothing => 0
    case ResBin => 1
    case ResAscii => 2
    case ProgBin => 3
    case ProgAscii => 4
    case ProgResBin => 5
    case ProgResAscii => 6
  }

  /** `static_cast<FILE_MODE>(k)` */
  function FromOrdinal(k: nat): (m: FileMode)
    requires k < 7
    ensures Ordinal(m) == k
  {
    if k == 0 then Nothing
    else if k == 1 then ResBin
    else if k == 2 then ResAscii
    else if k == 3 then ProgBin
    else if k == 4 then ProgAscii
    else if k == 5 then ProgResBin
    else ProgResAscii
  }

  /** The step of increaseFileMode: the next enumerator, FM_PROG_RES_ASCII wrapping to FM_NOTHING. */
  function NextMode(m: FileMode): (r: FileMode)
    ensures Ordinal(r) == (Ordinal(m) + 1) % 7
  {
    if Ordinal(m) < Ordinal(ProgResAscii) then FromOrdinal(Ordinal(m) + 1) else Nothing
  }

  /** The step of decreaseFileMode: the previous enumerator, FM_NOTHING wrapping to FM_PROG_RES_ASCII. */
  function PrevMode(m: FileMode): (r: FileMode)
    ensures Ordinal(r) == (Ordinal(m) + 6) % 7
  {
    if Ordinal(m) > Ordinal(Nothing) then FromOrdinal(Ordinal(m) - 1) else ProgResAscii
  }

  lemma ModeStepsInverse(m: FileMode)
    ensures PrevMode(NextMode(m)) == m && NextMode(PrevMode(m)) == m
  {
  }

  /** `file::is_ascii` */
  predicate IsAscii(m: FileMode) {
    match m
    case ProgAscii | ResAscii | ProgResAscii => true
    case _ => false
  }

  /** `file::is_program` */
  predicate IsProgram(m: FileMode) {
    match m
    case ProgBin | ProgAscii | ProgResBin | ProgResAscii => true
    case _ => false
  }

  /** `file::is_resource` */
  predicate IsResource(m: FileMode) {
    match m
    case ResBin | ResAscii | ProgResBin | ProgResAscii => true
    case _ => false
  }

  /** The mode a menu user picks by saying what the file is for and how it is encoded. */
  function ModeFor(program: bool, resource: bool, ascii: bool): (m: FileMode)
    requires program || resource
    ensures m != Nothing
  {
    if program && resource then (if ascii then ProgResAscii else ProgResBin)
    else if program then (if ascii then ProgAscii else ProgBin)
    else (if ascii then ResAscii else ResBin)
  }

  /** The three classifiers decode a mode exactly: FM_NOTHING is none of them, every other mode
      is the one ModeFor builds from its classification, and ModeFor's result classifies back. */
  lemma ClassifiersDecodeMode(m: FileMode, program: bool, resource: bool, ascii: bool)
    ensures m == Nothing <==> !IsProgram(m) && !IsResource(m)
    ensures m == Nothing ==> !IsAscii(m)
    ensures m != Nothing ==> ModeFor(IsProgram(m), IsResource(m), IsAscii(m)) == m
    ensures program || resource ==>
      var e := ModeFor(program, resource, ascii);
      IsProgram(e) == program && IsResource(e) == resource && IsAscii(e) == ascii
  {
  }

  predicate Selected(x: File) { x.selected }
  predicate IsProgramFile(x: File) { IsProgram(x.mode) }
  predicate IsResourceFile(x: File) { IsResource(x.mode) }

  // ---------------------------------------------------------------------------
  // The pre-order view of a tree
  // ---------------------------------------------------------------------------

  /** The files of a tree in pre-order. */
  function Files(f: Folder): seq<File>
    decreases f, 1
  {
    f.files + FilesSeq(f.subfolders)
  }

  function FilesSeq(fs: seq<Folder>): seq<File>
    decreases fs, 0
  {
    if fs == [] then [] else Files(fs[0]) + FilesSeq(fs[1..])
  }

  /** Everything of a tree but its files' records: folder names and how many files each holds. */
  datatype Shape = Shape(name: string, fileCount: nat, subs: seq<Shape>)

  function Skeleton(f: Folder): Shape
  {
    Shape(f.name, |f.files|, seq(|f.subfolders|, i requires 0 <= i < |f.subfolders| => Skeleton(f.subfolders[i])))
  }

  /** Where the files of subfolder i start in Files(f). */
  function Offset(f: Folder, i: nat): nat
    requires i <= |f.subfolders|
  {
    |f.files| + |FilesSeq(f.subfolders[..i])|
  }

  /** The list with the selection flag of entry i set to b (unchanged when i is out of range). */
  function Mark(fs: seq<File>, i: nat, b: bool): (r: seq<File>)
    ensures |r| == |fs|
  {
    if i < |fs| then fs[i := fs[i].(selected := b)] else fs
  }

  /** The selection moved from entry a to entry b. */
  function Move(fs: seq<File>, a: nat, b: nat): (r: seq<File>)
    ensures |r| == |fs|
  {
    Mark(Mark(fs, a, false), b, true)
  }

  ghost predicate NoMatch(fs: seq<File>, p: File -> bool) {
    forall j :: 0 <= j < |fs| ==> !p(fs[j])
  }

  ghost predicate IsFirstMatch(fs: seq<File>, p: File -> bool, k: nat) {
    k < |fs| && p(fs[k]) && forall j :: 0 <= j < k ==> !p(fs[j])
  }

  /** Exactly one file, entry k, is selected. */
  ghost predicate OneSelected(fs: seq<File>, k: nat) {
    k < |fs| && forall j :: 0 <= j < |fs| ==> (fs[j].selected <==> j == k)
  }

  ghost predicate NoneSelected(fs: seq<File>) {
    forall j :: 0 <= j < |fs| ==> !fs[j].selected
  }

  // ---------------------------------------------------------------------------
  // Searches: getSelectedFile, getProgramFile, getResourceFile
  // ---------------------------------------------------------------------------

  /** The loop `for (i = from; i < files.size(); i++) if (p(files[i])) return i;` */
  function FirstMatch(fs: seq<File>, p: File -> bool, from: nat): (r: Option<nat>)
    requires from <= |fs|
    decreases |fs| - from
    ensures r.Some? ==> from <= r.value < |fs| && p(fs[r.value])
    ensures r.Some? ==> forall j :: from <= j < r.value ==> !p(fs[j])
    ensures r.None? ==> forall j :: from <= j < |fs| ==> !p(fs[j])
  {
    if from == |fs| then None
    else if p(fs[from]) then Some(from)
    else FirstMatch(fs, p, from + 1)
  }

  ghost predicate ValidDirs(f: Folder, dirs: seq<nat>)
    decreases |dirs|
  {
    dirs == [] || (dirs[0] < |f.subfolders| && ValidDirs(f.subfolders[dirs[0]], dirs[1..]))
  }

  function FolderAt(f: Folder, dirs: seq<nat>): Folder
    requires ValidDirs(f, dirs)
    decreases |dirs|
  {
    if dirs == [] then f else FolderAt(f.subfolders[dirs[0]], dirs[1..])
  }

  ghost predicate ValidLoc(f: Folder, loc: Loc) {
    ValidDirs(f, loc.dirs) && loc.index < |FolderAt(f, loc.dirs).files|
  }

  function FileAt(f: Folder, loc: Loc): File
    requires ValidLoc(f, loc)
  {
    FolderAt(f, loc.dirs).files[loc.index]
  }

  /** The tree with the file at loc replaced by x: what a write through a `file*` does. */
  function WithFileAt(f: Folder, loc: Loc, x: File): Folder
    requires ValidLoc(f, loc)
    decreases |loc.dirs|
  {
    if loc.dirs == [] then f.(files := f.files[loc.index := x])
    else
      var d := loc.dirs[0];
      f.(subfolders := f.subfolders[d := WithFileAt(f.subfolders[d], Loc(loc.dirs[1..], loc.index), x)])
  }

  /** The position of the file at loc in Files(f). */
  function FlatIndex(f: Folder, loc: Loc): nat
    requires ValidLoc(f, loc)
    decreases |loc.dirs|
  {
    if loc.dirs == [] then loc.index
    else Offset(f, loc.dirs[0]) + FlatIndex(f.subfolders[loc.dirs[0]], Loc(loc.dirs[1..], loc.index))
  }

  /** The common shape of `folder::getSelectedFile`, `getProgramFile` and `getResourceFile`:
      the folder's own files first, then each subfolder recursively; None for nullptr. */
  function Find(f: Folder, p: File -> bool): (r: Option<Loc>)
    decreases f, 1
    ensures r.Some? ==> ValidLoc(f, r.value) && p(FileAt(f, r.value))
  {
    match FirstMatch(f.files, p, 0)
    case Some(i) => Some(Loc([], i))
    case None => FindFrom(f, p, 0)
  }

  /** The subfolder loop of Find, from subfolder i on. */
  function FindFrom(f: Folder, p: File -> bool, i: nat): (r: Option<Loc>)
    requires i <= |f.subfolders|
    decreases f, 0, |f.subfolders| - i
    ensures r.Some? ==> ValidLoc(f, r.value) && p(FileAt(f, r.value))
  {
    if i == |f.subfolders| then None
    else
      match Find(f.subfolders[i], p)
      case Some(loc) =>
        var r := Loc([i] + loc.dirs, loc.index);
        assert r.dirs[1..] == loc.dirs;
        Some(r)
      case None => FindFrom(f, p, i + 1)
  }

  /** `folder::getSelectedFile` */
  function SelectedFile(f: Folder): Option<Loc> { Find(f, Selected) }

  /** `folder::getProgramFile` */
  function ProgramFile(f: Folder): Option<Loc> { Find(f, IsProgramFile) }

  /** `folder::getResourceFile` */
  function ResourceFile(f: Folder): Option<Loc> { Find(f, IsResourceFile) }

  // ---------------------------------------------------------------------------
  // Paths
  // ---------------------------------------------------------------------------

  /** The path of the folder at dirs, spelled from the root: every folder's name followed by "/". */
  function FolderPath(f: Folder, dirs: seq<nat>): (r: string)
    requires ValidDirs(f, dirs)
    decreases |dirs|
    ensures f.name + "/" <= r && r[|r| - 1] == '/'
  {
    if dirs == [] then f.name + "/" else f.name + "/" + FolderPath(f.subfolders[dirs[0]], dirs[1..])
  }

  /** The path of the file at loc, spelled from the root. */
  function FilePath(f: Folder, loc: Loc): (r: string)
    requires ValidLoc(f, loc)
    decreases |loc.dirs|
    ensures f.name + "/" <= r
    ensures |r| > |FileAt(f, loc).name| && r[|r| - |FileAt(f, loc).name| - 1..] == "/" + FileAt(f, loc).name
  {
    if loc.dirs == [] then f.name + "/" + f.files[loc.index].name
    else f.name + "/" + FilePath(f.subfolders[loc.dirs[0]], Loc(loc.dirs[1..], loc.index))
  }

  // ---------------------------------------------------------------------------
  // File modes: increaseFileMode, decreaseFileMode
  // ---------------------------------------------------------------------------

  function IncreaseFileMode(f: Folder): (r: Outcome)
    ensures r.status == Ok || r.status == NotFound
    ensures r.status == NotFound ==> r.tree == f
  {
    match SelectedFile(f)
    case None => Outcome(f, NotFound)
    case Some(loc) =>
      var x := FileAt(f, loc);
      Outcome(WithFileAt(f, loc, x.(mode := NextMode(x.mode))), Ok)
  }

  function DecreaseFileMode(f: Folder): (r: Outcome)
    ensures r.status == Ok || r.status == NotFound
    ensures r.status == NotFound ==> r.tree == f
  {
    match SelectedFile(f)
    case None => Outcome(f, NotFound)
    case Some(loc) =>
      var x := FileAt(f, loc);
      Outcome(WithFileAt(f, loc, x.(mode := PrevMode(x.mode))), Ok)
  }

  // ---------------------------------------------------------------------------
  // Selection: selectFirstElement, selectLastElement
  // ---------------------------------------------------------------------------

  /** `selectFirstElement` */
  function SelectFirst(f: Folder): (r: Outcome)
    decreases f, 1
    ensures r.status == Ok || r.status == NotFound
    ensures r.status == NotFound ==> r.tree == f
    ensures |f.files| > 0 ==> r.status == Ok
  {
    if |f.files| > 0 then Outcome(f.(files := Mark(f.files, 0, true)), Ok)
    else SelectFirstFrom(f, 0)
  }

  /** The loop of selectFirstElement over subfolders i, i+1, ...: the first that accepts a
      selection wins. A subfolder that answers S_NOT_FOUND was left unchanged (SelectFirstSpec). */
  function SelectFirstFrom(f: Folder, i: nat): (r: Outcome)
    requires i <= |f.subfolders|
    decreases f, 0, |f.subfolders| - i
    ensures r.status == Ok || r.status == NotFound
    ensures r.status == NotFound ==> r.tree == f
  {
    if i == |f.subfolders| then Outcome(f, NotFound)
    else
      var o := SelectFirst(f.subfolders[i]);
      if o.status == Ok then Outcome(f.(subfolders := f.subfolders[i := o.tree]), Ok)
      else SelectFirstFrom(f, i + 1)
  }

  /** `selectLastElement` */
  function SelectLast(f: Folder): (r: Outcome)
    decreases f, 1
    ensures r.status == Ok || r.status == NotFound
    ensures r.status == NotFound ==> r.tree == f
    ensures |f.files| > 0 ==> r.status == Ok
  {
    SelectLastFrom(f, |f.subfolders|)
  }

  /** selectLastElement's loop over subfolders i-1, i-2, ..., 0, then its own last file. */
  function SelectLastFrom(f: Folder, i: nat): (r: Outcome)
    requires i <= |f.subfolders|
    decreases f, 0, i
    ensures r.status == Ok || r.status == NotFound
    ensures r.status == NotFound ==> r.tree == f
    ensures |f.files| > 0 ==> r.status == Ok
  {
    if i == 0 then
      if |f.files| > 0 then Outcome(f.(files := Mark(f.files, |f.files| - 1, true)), Ok)
      else Outcome(f, NotFound)
    else
      var o := SelectLast(f.subfolders[i - 1]);
      if o.status == Ok then Outcome(f.(subfolders := f.subfolders[i - 1 := o.tree]), Ok)
      else SelectLastFrom(f, i - 1)
  }

  // ---------------------------------------------------------------------------
  // increaseSelection, as written and corrected (see README, Findings)
  // ---------------------------------------------------------------------------

  /** What increaseSelection does once the last file of a stretch has been unselected, with f1
      the folder after that: select the first file of subfolders from, from+1, ...; failing
      that, wrap to the first file at the root, and elsewhere answer S_LAST_ELEMENT. */
  function AfterLast(f1: Folder, from: nat, atRoot: bool): (r: Outcome)
    requires from <= |f1.subfolders|
    ensures r.status != FirstElement
    ensures atRoot ==> r.status != LastElement
  {
    var next := SelectFirstFrom(f1, from);
    if next.status == Ok then next
    else if atRoot then SelectFirst(f1)
    else Outcome(f1, LastElement)
  }

  /** The same step in the subfolder loop of increaseSelection as written, after subfolder i
      gave up its last file: only subfolder i+1 is tried. */
  function AfterLastAsWritten(f1: Folder, i: nat, atRoot: bool): (r: Outcome)
    requires i < |f1.subfolders|
    ensures r.status != FirstElement
    ensures atRoot ==> r.status != LastElement
  {
    if i < |f1.subfolders| - 1 && SelectFirst(f1.subfolders[i + 1]).status == Ok then
      Outcome(f1.(subfolders := f1.subfolders[i + 1 := SelectFirst(f1.subfolders[i + 1]).tree]), Ok)
    else if atRoot then SelectFirst(f1)
    else Outcome(f1, LastElement)
  }

  /** `increaseSelection` as written. */
  function IncreaseSelectionAsWritten(f: Folder, atRoot: bool): (r: Outcome)
    decreases f, 1
    ensures r.status != FirstElement
    ensures atRoot ==> r.status != LastElement
  {
    match FirstMatch(f.files, Selected, 0)
    case Some(i) =>
      var f1 := f.(files := Mark(f.files, i, false));
      if i == |f.files| - 1 then AfterLast(f1, 0, atRoot)
      else Outcome(f1.(files := Mark(f1.files, i + 1, true)), Ok)
    case None => IncreaseFromAsWritten(f, 0, atRoot)
  }

  /** The subfolder loop of increaseSelection as written: after subfolder i gave up its last
      file, only subfolder i+1 is tried. A subfolder answering S_NOT_FOUND was left unchanged. */
  function IncreaseFromAsWritten(f: Folder, i: nat, atRoot: bool): (r: Outcome)
    requires i <= |f.subfolders|
    decreases f, 0, |f.subfolders| - i
    ensures r.status != FirstElement
    ensures atRoot ==> r.status != LastElement
  {
    if i == |f.subfolders| then Outcome(f, NotFound)
    else
      var o := IncreaseSelectionAsWritten(f.subfolders[i], false);
      var f1 := f.(subfolders := f.subfolders[i := o.tree]);
      if o.status == Ok then Outcome(f1, Ok)
      else if o.status == LastElement then AfterLastAsWritten(f1, i, atRoot)
      else IncreaseFromAsWritten(f, i + 1, atRoot)
  }

  /** `increaseSelection` with the subfolder loop corrected: every later subfolder is tried. */
  function IncreaseSelection(f: Folder, atRoot: bool): (r: Outcome)
    decreases f, 1
    ensures r.status != FirstElement
    ensures atRoot ==> r.status != LastElement
  {
    match FirstMatch(f.files, Selected, 0)
    case Some(i) =>
      var f1 := f.(files := Mark(f.files, i, false));
      if i == |f.files| - 1 then AfterLast(f1, 0, atRoot)
      else Outcome(f1.(files := Mark(f1.files, i + 1, true)), Ok)
    case None => IncreaseFrom(f, 0, atRoot)
  }

  function IncreaseFrom(f: Folder, i: nat, atRoot: bool): (r: Outcome)
    requires i <= |f.subfolders|
    decreases f, 0, |f.subfolders| - i
    ensures r.status != FirstElement
    ensures atRoot ==> r.status != LastElement
  {
    if i == |f.subfolders| then Outcome(f, NotFound)
    else
      var o := IncreaseSelection(f.subfolders[i], false);
      var f1 := f.(subfolders := f.subfolders[i := o.tree]);
      if o.status == Ok then Outcome(f1, Ok)
      else if o.status == LastElement then AfterLast(f1, i + 1, atRoot)
      else IncreaseFrom(f, i + 1, atRoot)
  }

  // ---------------------------------------------------------------------------
  // decreaseSelection
  // ---------------------------------------------------------------------------

  /** What decreaseSelection's subfolder loop does once subfolder i gave up its first file, with
      f1 the folder after that: select the last file of subfolders i-1, ..., 0 or else the
      folder's own last file; failing that, wrap to the last file at the root, and elsewhere
      answer S_FIRST_ELEMENT. */
  function BeforeFirst(f1: Folder, i: nat, atRoot: bool): (r: Outcome)
    requires i <= |f1.subfolders|
    ensures r.status != LastElement
    ensures atRoot ==> r.status != FirstElement
  {
    var prev := SelectLastFrom(f1, i);
    if prev.status == Ok then prev
    else if atRoot then SelectLast(f1)
    else Outcome(f1, FirstElement)
  }

  /** `decreaseSelection` */
  function DecreaseSelection(f: Folder, atRoot: bool): (r: Outcome)
    decreases f, 1
    ensures r.status != LastElement
    ensures atRoot ==> r.status != FirstElement
  {
    match FirstMatch(f.files, Selected, 0)
    case Some(i) =>
      var f1 := f.(files := Mark(f.files, i, false));
      if i == 0 then
        if atRoot then SelectLast(f1) else Outcome(f1, FirstElement)
      else Outcome(f1.(files := Mark(f1.files, i - 1, true)), Ok)
    case None => DecreaseFrom(f, |f.subfolders|, atRoot)
  }

  /** decreaseSelection's loop over subfolders i-1 down to 0. A subfolder answering
      S_NOT_FOUND was left unchanged. */
  function DecreaseFrom(f: Folder, i: nat, atRoot: bool): (r: Outcome)
    requires i <= |f.subfolders|
    decreases f, 0, i
    ensures r.status != LastElement
    ensures atRoot ==> r.status != FirstElement
  {
    if i == 0 then Outcome(f, NotFound)
    else
      var o := DecreaseSelection(f.subfolders[i - 1], false);
      var f1 := f.(subfolders := f.subfolders[i - 1 := o.tree]);
      if o.status == Ok then Outcome(f1, Ok)
      else if o.status == FirstElement then BeforeFirst(f1, i - 1, atRoot)
      else DecreaseFrom(f, i - 1, atRoot)
  }
}
