/**
 * What the menu operations of util.cc do to the pre-order list of files, Files(f):
 * selecting the first or last file, moving the selection forward and backward (wrapping
 * at the root), stepping the selected file's mode, the searches and the paths.
 */
module MenuTreeProofs {
  import opened Wrappers
  import opened MenuTree

  // ---------------------------------------------------------------------------
  // Splitting Files(f) around one subfolder
  // ---------------------------------------------------------------------------

  lemma {:induction false} FilesSeqAppend(a: seq<Folder>, b: seq<Folder>)
    decreases |a|
    ensures FilesSeq(a + b) == FilesSeq(a) + FilesSeq(b)
  {
    if a == [] {
      assert a + b == b;
    } else {
      assert (a + b)[1..] == a[1..] + b;
      FilesSeqAppend(a[1..], b);
    }
  }

  lemma FilesSeqCons(s: seq<Folder>, i: nat)
    requires i < |s|
    ensures FilesSeq(s[i..]) == Files(s[i]) + FilesSeq(s[i + 1..])
  {
    assert s[i..][1..] == s[i + 1..];
  }

  /** Files(f) is the folder's own files, then those of the subfolders before i, of subfolder i,
      and of the subfolders after it. */
  lemma SplitAt(f: Folder, i: nat)
    requires i < |f.subfolders|
    ensures Files(f) == f.files + FilesSeq(f.subfolders[..i]) + Files(f.subfolders[i]) + FilesSeq(f.subfolders[i + 1..])
    ensures Offset(f, i + 1) == Offset(f, i) + |Files(f.subfolders[i])|
    ensures |Files(f)| == Offset(f, i) + |FilesSeq(f.subfolders[i..])|
  {
    var s := f.subfolders;
    assert s == s[..i] + [s[i]] + s[i + 1..];
    FilesSeqAppend(s[..i] + [s[i]], s[i + 1..]);
    FilesSeqAppend(s[..i], [s[i]]);
    assert [s[i]][1..] == [];
    assert s[..i + 1] == s[..i] + [s[i]];
    FilesSeqCons(s, i);
  }

  lemma OffsetBounds(f: Folder, i: nat)
    requires i <= |f.subfolders|
    ensures |f.files| <= Offset(f, i) <= |Files(f)|
    ensures Offset(f, i) + |FilesSeq(f.subfolders[i..])| == |Files(f)|
  {
    var s := f.subfolders;
    assert s == s[..i] + s[i..];
    FilesSeqAppend(s[..i], s[i..]);
  }

  /** Subfolder i's files fill Files(f) from Offset(f, i) to Offset(f, i + 1). */
  lemma OffsetNext(f: Folder, i: nat)
    requires i < |f.subfolders|
    ensures Offset(f, i + 1) == Offset(f, i) + |Files(f.subfolders[i])| <= |Files(f)|
  {
    SplitAt(f, i);
    OffsetBounds(f, i + 1);
  }

  lemma OffsetAll(f: Folder)
    ensures Offset(f, |f.subfolders|) == |Files(f)|
    ensures Offset(f, 0) == |f.files|
  {
    assert f.subfolders[..|f.subfolders|] == f.subfolders;
    assert f.subfolders[..0] == [];
  }

  /** Replacing subfolder i by g changes Files(f) only in subfolder i's stretch. */
  lemma ReplaceSub(f: Folder, i: nat, g: Folder)
    requires i < |f.subfolders|
    ensures var f1 := f.(subfolders := f.subfolders[i := g]);
      && Files(f1) == f.files + FilesSeq(f.subfolders[..i]) + Files(g) + FilesSeq(f.subfolders[i + 1..])
      && f1.subfolders[..i] == f.subfolders[..i]
      && f1.subfolders[i + 1..] == f.subfolders[i + 1..]
      && Offset(f1, i) == Offset(f, i)
      && Offset(f1, i + 1) == Offset(f, i) + |Files(g)|
  {
    var f1 := f.(subfolders := f.subfolders[i := g]);
    assert f1.subfolders[..i] == f.subfolders[..i];
    assert f1.subfolders[i + 1..] == f.subfolders[i + 1..];
    SplitAt(f1, i);
  }

  lemma SkeletonReplace(f: Folder, i: nat, g: Folder)
    requires i < |f.subfolders|
    requires Skeleton(g) == Skeleton(f.subfolders[i])
    ensures Skeleton(f.(subfolders := f.subfolders[i := g])) == Skeleton(f)
  {
    var f1 := f.(subfolders := f.subfolders[i := g]);
    assert Skeleton(f1).subs == Skeleton(f).subs by {
      forall j | 0 <= j < |f.subfolders|
        ensures Skeleton(f1).subs[j] == Skeleton(f).subs[j]
      {
      }
    }
  }

  lemma MarkInside(pre: seq<File>, mid: seq<File>, post: seq<File>, j: nat, b: bool)
    requires j < |mid|
    ensures pre + Mark(mid, j, b) + post == Mark(pre + mid + post, |pre| + j, b)
  {
  }

  lemma MoveInside(pre: seq<File>, mid: seq<File>, post: seq<File>, a: nat, b: nat)
    requires a < |mid| && b < |mid|
    ensures pre + Move(mid, a, b) + post == Move(pre + mid + post, |pre| + a, |pre| + b)
  {
    MarkInside(pre, mid, post, a, false);
    MarkInside(pre, Mark(mid, a, false), post, b, true);
  }

  /** The stretch of subfolder i holds the selected entry k exactly when k falls in it. */
  lemma SelectionInSub(f: Folder, i: nat, k: nat)
    requires i < |f.subfolders|
    requires OneSelected(Files(f), k)
    ensures Offset(f, i) <= k < Offset(f, i + 1) ==> OneSelected(Files(f.subfolders[i]), k - Offset(f, i))
    ensures !(Offset(f, i) <= k < Offset(f, i + 1)) ==> NoneSelected(Files(f.subfolders[i]))
    ensures Offset(f, i + 1) == Offset(f, i) + |Files(f.subfolders[i])| <= |Files(f)|
  {
    SplitAt(f, i);
    OffsetBounds(f, i + 1);
    var o := Offset(f, i);
    var s := Files(f.subfolders[i]);
    assert forall j :: 0 <= j < |s| ==> s[j] == Files(f)[o + j];
  }

  lemma NoneSelectedInSub(f: Folder, i: nat)
    requires i < |f.subfolders|
    requires NoneSelected(Files(f))
    ensures NoneSelected(Files(f.subfolders[i]))
  {
    SplitAt(f, i);
    var o := Offset(f, i);
    var s := Files(f.subfolders[i]);
    assert forall j :: 0 <= j < |s| ==> s[j] == Files(f)[o + j];
  }

  // ---------------------------------------------------------------------------
  // selectFirstElement and selectLastElement
  // ---------------------------------------------------------------------------

  /** selectFirstElement selects the first file in pre-order and changes nothing else; it
      answers S_NOT_FOUND, leaving the tree as it was, exactly when the tree has no file. */
  lemma {:induction false} SelectFirstSpec(f: Folder)
    decreases f, 1
    ensures var o := SelectFirst(f);
      && Skeleton(o.tree) == Skeleton(f)
      && (Files(f) == [] ==> o == Outcome(f, NotFound))
      && (Files(f) != [] ==> o.status == Ok && Files(o.tree) == Mark(Files(f), 0, true))
  {
    if |f.files| > 0 {
      MarkInside([], f.files, FilesSeq(f.subfolders), 0, true);
    } else {
      SelectFirstFromSpec(f, 0);
      OffsetAll(f);
      assert f.subfolders[0..] == f.subfolders;
    }
  }

  lemma {:induction false} SelectFirstFromSpec(f: Folder, i: nat)
    requires i <= |f.subfolders|
    decreases f, 0, |f.subfolders| - i
    ensures var o := SelectFirstFrom(f, i);
      && Skeleton(o.tree) == Skeleton(f)
      && (FilesSeq(f.subfolders[i..]) == [] ==> o == Outcome(f, NotFound))
      && (FilesSeq(f.subfolders[i..]) != [] ==> o.status == Ok && Files(o.tree) == Mark(Files(f), Offset(f, i), true))
  {
    if i < |f.subfolders| {
      var s := f.subfolders[i];
      FilesSeqCons(f.subfolders, i);
      SelectFirstSpec(s);
      OffsetNext(f, i);
      if Files(s) == [] {
        SelectFirstFromSpec(f, i + 1);
      } else {
        LiftMark(f, i, SelectFirst(s).tree, 0, true);
      }
    }
  }

  /** selectLastElement selects the last file in pre-order and changes nothing else; it
      answers S_NOT_FOUND, leaving the tree as it was, exactly when the tree has no file. */
  lemma {:induction false} SelectLastSpec(f: Folder)
    decreases f, 1
    ensures var o := SelectLast(f);
      && Skeleton(o.tree) == Skeleton(f)
      && (Files(f) == [] ==> o == Outcome(f, NotFound))
      && (Files(f) != [] ==> o.status == Ok && Files(o.tree) == Mark(Files(f), |Files(f)| - 1, true))
  {
    SelectLastFromSpec(f, |f.subfolders|);
    OffsetAll(f);
  }

  lemma {:induction false} SelectLastFromSpec(f: Folder, i: nat)
    requires i <= |f.subfolders|
    decreases f, 0, i
    ensures var o := SelectLastFrom(f, i);
      && Skeleton(o.tree) == Skeleton(f)
      && (Offset(f, i) == 0 ==> o == Outcome(f, NotFound))
      && (Offset(f, i) > 0 ==> o.status == Ok && Files(o.tree) == Mark(Files(f), Offset(f, i) - 1, true))
  {
    if i == 0 {
      SelectLastOwnSpec(f);
    } else {
      var j := i - 1;
      var s := f.subfolders[j];
      SelectLastSpec(s);
      OffsetNext(f, j);
      if Files(s) == [] {
        SelectLastFromSpec(f, j);
      } else {
        SelectLastInSub(f, j);
      }
    }
  }

  /** The end of selectLastElement's loop: the folder's own last file, if any. */
  lemma SelectLastOwnSpec(f: Folder)
    ensures var o := SelectLastFrom(f, 0);
      && Skeleton(o.tree) == Skeleton(f)
      && (Offset(f, 0) == 0 ==> o == Outcome(f, NotFound))
      && (Offset(f, 0) > 0 ==> o.status == Ok && Files(o.tree) == Mark(Files(f), Offset(f, 0) - 1, true))
  {
    OffsetAll(f);
    if |f.files| > 0 {
      MarkInside([], f.files, FilesSeq(f.subfolders), |f.files| - 1, true);
    }
  }

  /** A subfolder with files takes the selection: its last file is the last file of the stretch. */
  lemma SelectLastInSub(f: Folder, j: nat)
    requires j < |f.subfolders| && Files(f.subfolders[j]) != []
    requires var o := SelectLast(f.subfolders[j]);
      Skeleton(o.tree) == Skeleton(f.subfolders[j]) && o.status == Ok &&
      Files(o.tree) == Mark(Files(f.subfolders[j]), |Files(f.subfolders[j])| - 1, true)
    requires Offset(f, j + 1) == Offset(f, j) + |Files(f.subfolders[j])|
    ensures var o := SelectLastFrom(f, j + 1);
      && Skeleton(o.tree) == Skeleton(f)
      && Offset(f, j + 1) > 0
      && o.status == Ok && Files(o.tree) == Mark(Files(f), Offset(f, j + 1) - 1, true)
  {
    var s := f.subfolders[j];
    var o := SelectLast(s);
    LiftMark(f, j, o.tree, |Files(s)| - 1, true);
    assert SelectLastFrom(f, j + 1) == Outcome(f.(subfolders := f.subfolders[j := o.tree]), Ok);
  }

  // ---------------------------------------------------------------------------
  // Facts about one selected entry
  // ---------------------------------------------------------------------------

  /** With exactly one file selected, the files loop of increase/decreaseSelection finds it
      among the folder's own files exactly when it is one of them. */
  lemma FirstSelectedOwn(f: Folder, k: nat)
    requires OneSelected(Files(f), k)
    ensures k < |f.files| ==> FirstMatch(f.files, Selected, 0) == Some(k)
    ensures k >= |f.files| ==> FirstMatch(f.files, Selected, 0) == None
  {
    assert forall j :: 0 <= j < |f.files| ==> f.files[j] == Files(f)[j];
    if k < |f.files| {
      assert Selected(f.files[k]);
    }
  }

  lemma NoneSelectedOwn(f: Folder)
    requires NoneSelected(Files(f))
    ensures FirstMatch(f.files, Selected, 0) == None
  {
    assert forall j :: 0 <= j < |f.files| ==> f.files[j] == Files(f)[j];
  }

  /** Replacing one file inside subfolder i is replacing it at its place in Files(f). */
  lemma LiftUpdate(f: Folder, i: nat, g: Folder, a: nat, x: File)
    requires i < |f.subfolders| && a < |Files(f.subfolders[i])|
    requires Skeleton(g) == Skeleton(f.subfolders[i]) && Files(g) == Files(f.subfolders[i])[a := x]
    ensures var f1 := f.(subfolders := f.subfolders[i := g]);
      && Skeleton(f1) == Skeleton(f)
      && Offset(f, i) + a < |Files(f)|
      && Files(f1) == Files(f)[Offset(f, i) + a := x]
      && Offset(f1, i) == Offset(f, i) && Offset(f1, i + 1) == Offset(f, i + 1)
  {
    var s := f.subfolders[i];
    SplitAt(f, i);
    ReplaceSub(f, i, g);
    SkeletonReplace(f, i, g);
    var pre := f.files + FilesSeq(f.subfolders[..i]);
    var post := FilesSeq(f.subfolders[i + 1..]);
    assert pre + Files(s)[a := x] + post == (pre + Files(s) + post)[|pre| + a := x];
  }

  /** Changing one flag inside subfolder i is changing that flag at its place in Files(f). */
  lemma LiftMark(f: Folder, i: nat, g: Folder, a: nat, b: bool)
    requires i < |f.subfolders| && a < |Files(f.subfolders[i])|
    requires Skeleton(g) == Skeleton(f.subfolders[i]) && Files(g) == Mark(Files(f.subfolders[i]), a, b)
    ensures var f1 := f.(subfolders := f.subfolders[i := g]);
      && Skeleton(f1) == Skeleton(f)
      && Files(f1) == Mark(Files(f), Offset(f, i) + a, b)
      && Offset(f1, i) == Offset(f, i) && Offset(f1, i + 1) == Offset(f, i + 1)
  {
    var s := f.subfolders[i];
    LiftUpdate(f, i, g, a, Files(s)[a].(selected := b));
    SubEntries(f, i);
    assert Files(f)[Offset(f, i) + a] == Files(s)[a];
  }

  /** Moving the selection inside subfolder i is moving it at its place in Files(f). */
  lemma LiftMove(f: Folder, i: nat, g: Folder, a: nat, b: nat)
    requires i < |f.subfolders| && a < |Files(f.subfolders[i])| && b < |Files(f.subfolders[i])|
    requires Skeleton(g) == Skeleton(f.subfolders[i]) && Files(g) == Move(Files(f.subfolders[i]), a, b)
    ensures var f1 := f.(subfolders := f.subfolders[i := g]);
      && Skeleton(f1) == Skeleton(f)
      && Files(f1) == Move(Files(f), Offset(f, i) + a, Offset(f, i) + b)
  {
    var s := f.subfolders[i];
    SplitAt(f, i);
    ReplaceSub(f, i, g);
    SkeletonReplace(f, i, g);
    MoveInside(f.files + FilesSeq(f.subfolders[..i]), Files(s), FilesSeq(f.subfolders[i + 1..]), a, b);
  }

  /** Some entry after k received the selection that k gave up. */
  ghost predicate MovedAfter(fs: seq<File>, gs: seq<File>, k: nat) {
    exists j :: k < j < |fs| && gs == Move(fs, k, j)
  }

  /** Moving the one selection to entry j leaves exactly entry j selected. */
  lemma MoveKeepsOneSelected(fs: seq<File>, k: nat, j: nat)
    requires OneSelected(fs, k) && j < |fs|
    ensures OneSelected(Move(fs, k, j), j)
  {
  }

  // ---------------------------------------------------------------------------
  // increaseSelection (corrected)
  // ---------------------------------------------------------------------------

  /** After the last file of a stretch was unselected, the selection goes to the first file from
      subfolder `from` on; failing that, to the first file at the root; elsewhere nothing is
      selected and the answer is S_LAST_ELEMENT. */
  lemma AfterLastSpec(f1: Folder, from: nat, atRoot: bool)
    requires from <= |f1.subfolders|
    ensures var o := AfterLast(f1, from, atRoot); var n := |Files(f1)|; var c := Offset(f1, from);
      && Skeleton(o.tree) == Skeleton(f1)
      && (c < n ==> o.status == Ok && Files(o.tree) == Mark(Files(f1), c, true))
      && (c == n && atRoot && n > 0 ==> o.status == Ok && Files(o.tree) == Mark(Files(f1), 0, true))
      && (c == n && !atRoot ==> o == Outcome(f1, LastElement))
  {
    SelectFirstFromSpec(f1, from);
    OffsetBounds(f1, from);
    SelectFirstSpec(f1);
  }

  lemma {:induction false} IncreaseNoneSpec(f: Folder, atRoot: bool)
    requires NoneSelected(Files(f))
    decreases f, 1
    ensures IncreaseSelection(f, atRoot) == Outcome(f, NotFound)
  {
    NoneSelectedOwn(f);
    IncreaseFromNoneSpec(f, 0, atRoot);
  }

  lemma {:induction false} IncreaseFromNoneSpec(f: Folder, i: nat, atRoot: bool)
    requires i <= |f.subfolders|
    requires NoneSelected(Files(f))
    decreases f, 0, |f.subfolders| - i
    ensures IncreaseFrom(f, i, atRoot) == Outcome(f, NotFound)
  {
    if i < |f.subfolders| {
      NoneSelectedInSub(f, i);
      IncreaseNoneSpec(f.subfolders[i], false);
      assert f.subfolders[i := f.subfolders[i]] == f.subfolders;
      IncreaseFromNoneSpec(f, i + 1, atRoot);
    }
  }

  /** The files loop of increaseSelection, when the selected file k is one of the folder's own. */
  lemma IncreaseOwnSpec(f: Folder, atRoot: bool, k: nat)
    requires OneSelected(Files(f), k) && k < |f.files|
    ensures var o := IncreaseSelection(f, atRoot); var n := |Files(f)|;
      && Skeleton(o.tree) == Skeleton(f)
      && (k + 1 < n ==> o.status == Ok && Files(o.tree) == Move(Files(f), k, k + 1))
      && (k + 1 == n && atRoot ==> o.status == Ok && Files(o.tree) == Move(Files(f), k, 0))
      && (k + 1 == n && !atRoot ==> o.status == LastElement && Files(o.tree) == Mark(Files(f), k, false))
  {
    var fs := f.files;
    var rest := FilesSeq(f.subfolders);
    FirstSelectedOwn(f, k);
    var f1 := f.(files := Mark(fs, k, false));
    MarkInside([], fs, rest, k, false);
    assert Files(f1) == Mark(Files(f), k, false);
    if k == |fs| - 1 {
      assert IncreaseSelection(f, atRoot) == AfterLast(f1, 0, atRoot);
      AfterLastSpec(f1, 0, atRoot);
      OffsetAll(f1);
    } else {
      MoveInside([], fs, rest, k, k + 1);
    }
  }

  /** increaseSelection moves the one selection to the next file in pre-order. Past the last
      file it wraps to the first at the root, and elsewhere it unselects and answers
      S_LAST_ELEMENT so that the caller carries on. Nothing but the two flags changes. */
  lemma {:induction false} IncreaseSpec(f: Folder, atRoot: bool, k: nat)
    requires OneSelected(Files(f), k)
    decreases f, 1
    ensures var o := IncreaseSelection(f, atRoot); var n := |Files(f)|;
      && Skeleton(o.tree) == Skeleton(f)
      && (k + 1 < n ==> o.status == Ok && Files(o.tree) == Move(Files(f), k, k + 1))
      && (k + 1 == n && atRoot ==> o.status == Ok && Files(o.tree) == Move(Files(f), k, 0))
      && (k + 1 == n && !atRoot ==> o.status == LastElement && Files(o.tree) == Mark(Files(f), k, false))
  {
    if k < |f.files| {
      IncreaseOwnSpec(f, atRoot, k);
    } else {
      FirstSelectedOwn(f, k);
      OffsetAll(f);
      assert IncreaseSelection(f, atRoot) == IncreaseFrom(f, 0, atRoot);
      IncreaseFromSpec(f, 0, atRoot, k);
    }
  }

  lemma {:induction false} IncreaseFromSpec(f: Folder, i: nat, atRoot: bool, k: nat)
    requires i <= |f.subfolders|
    requires OneSelected(Files(f), k) && Offset(f, i) <= k
    decreases f, 0, |f.subfolders| - i, 1
    ensures var o := IncreaseFrom(f, i, atRoot); var n := |Files(f)|;
      && Skeleton(o.tree) == Skeleton(f)
      && (k + 1 < n ==> o.status == Ok && Files(o.tree) == Move(Files(f), k, k + 1))
      && (k + 1 == n && atRoot ==> o.status == Ok && Files(o.tree) == Move(Files(f), k, 0))
      && (k + 1 == n && !atRoot ==> o.status == LastElement && Files(o.tree) == Mark(Files(f), k, false))
  {
    OffsetAll(f);
    assert i < |f.subfolders|;
    SplitAt(f, i);
    SelectionInSub(f, i, k);
    if k < Offset(f, i + 1) {
      IncreaseInSub(f, i, atRoot, k);
    } else {
      var s := f.subfolders[i];
      IncreaseNoneSpec(s, false);
      assert f.subfolders[i := s] == f.subfolders;
      assert IncreaseFrom(f, i, atRoot) == IncreaseFrom(f, i + 1, atRoot);
      IncreaseFromSpec(f, i + 1, atRoot, k);
    }
  }

  /** The subfolder loop of increaseSelection at the subfolder holding the selected file k. */
  lemma {:induction false} IncreaseInSub(f: Folder, i: nat, atRoot: bool, k: nat)
    requires i < |f.subfolders|
    requires OneSelected(Files(f), k) && Offset(f, i) <= k < Offset(f, i + 1)
    decreases f, 0, |f.subfolders| - i, 0
    ensures var o := IncreaseFrom(f, i, atRoot); var n := |Files(f)|;
      && Skeleton(o.tree) == Skeleton(f)
      && (k + 1 < n ==> o.status == Ok && Files(o.tree) == Move(Files(f), k, k + 1))
      && (k + 1 == n && atRoot ==> o.status == Ok && Files(o.tree) == Move(Files(f), k, 0))
      && (k + 1 == n && !atRoot ==> o.status == LastElement && Files(o.tree) == Mark(Files(f), k, false))
  {
    var s := f.subfolders[i];
    var o := Offset(f, i);
    SelectionInSub(f, i, k);
    IncreaseSpec(s, false, k - o);
    var r := IncreaseSelection(s, false);
    if k - o + 1 < |Files(s)| {
      IncreaseInSubNext(f, i, atRoot, k, r.tree);
    } else {
      IncreaseInSubLast(f, i, atRoot, k, r.tree);
    }
  }

  /** Subfolder i moved its selection on by itself: so did the folder. */
  lemma IncreaseInSubNext(f: Folder, i: nat, atRoot: bool, k: nat, g: Folder)
    requires i < |f.subfolders|
    requires Offset(f, i) <= k && k + 1 < Offset(f, i + 1) == Offset(f, i) + |Files(f.subfolders[i])| <= |Files(f)|
    requires IncreaseSelection(f.subfolders[i], false) == Outcome(g, Ok)
    requires Skeleton(g) == Skeleton(f.subfolders[i])
    requires Files(g) == Move(Files(f.subfolders[i]), k - Offset(f, i), k - Offset(f, i) + 1)
    ensures var o := IncreaseFrom(f, i, atRoot);
      o.status == Ok && Skeleton(o.tree) == Skeleton(f) && Files(o.tree) == Move(Files(f), k, k + 1)
  {
    var f1 := f.(subfolders := f.subfolders[i := g]);
    assert IncreaseFrom(f, i, atRoot) == Outcome(f1, Ok);
    LiftMove(f, i, g, k - Offset(f, i), k - Offset(f, i) + 1);
  }

  /** Subfolder i gave up its last file: the selection goes to the first file after it. */
  lemma IncreaseInSubLast(f: Folder, i: nat, atRoot: bool, k: nat, g: Folder)
    requires i < |f.subfolders|
    requires Offset(f, i) <= k && k + 1 == Offset(f, i + 1) == Offset(f, i) + |Files(f.subfolders[i])| <= |Files(f)|
    requires IncreaseSelection(f.subfolders[i], false) == Outcome(g, LastElement)
    requires Skeleton(g) == Skeleton(f.subfolders[i])
    requires Files(g) == Mark(Files(f.subfolders[i]), k - Offset(f, i), false)
    ensures var o := IncreaseFrom(f, i, atRoot); var n := |Files(f)|;
      && Skeleton(o.tree) == Skeleton(f)
      && (k + 1 < n ==> o.status == Ok && Files(o.tree) == Move(Files(f), k, k + 1))
      && (k + 1 == n && atRoot ==> o.status == Ok && Files(o.tree) == Move(Files(f), k, 0))
      && (k + 1 == n && !atRoot ==> o.status == LastElement && Files(o.tree) == Mark(Files(f), k, false))
  {
    var f1 := f.(subfolders := f.subfolders[i := g]);
    assert IncreaseFrom(f, i, atRoot) == AfterLast(f1, i + 1, atRoot);
    LiftMark(f, i, g, k - Offset(f, i), false);
    var fs1 := Mark(Files(f), k, false);
    assert Files(f1) == fs1 && Offset(f1, i + 1) == k + 1;
    AfterLastSpec(f1, i + 1, atRoot);
    assert Move(Files(f), k, k + 1) == Mark(fs1, k + 1, true);
    assert Move(Files(f), k, 0) == Mark(fs1, 0, true);
  }

  /** From exactly one selected file, increaseSelection on the root answers S_OK and leaves
      exactly one file selected: the next one in pre-order, or the first after the last. */
  lemma IncreaseAtRoot(f: Folder, k: nat)
    requires OneSelected(Files(f), k)
    ensures var o := IncreaseSelection(f, true);
      o.status == Ok && OneSelected(Files(o.tree), if k + 1 < |Files(f)| then k + 1 else 0)
  {
    IncreaseSpec(f, true, k);
    var n := |Files(f)|;
    if k + 1 < n {
      MoveKeepsOneSelected(Files(f), k, k + 1);
    } else {
      MoveKeepsOneSelected(Files(f), k, 0);
    }
  }

  // ---------------------------------------------------------------------------
  // increaseSelection as written
  // ---------------------------------------------------------------------------

  /** After subfolder i gave up its last file, the selection goes to the first file of
      subfolder i+1 alone; failing that, to the first file at the root; elsewhere nothing is
      selected and the answer is S_LAST_ELEMENT. */
  lemma AfterLastAsWrittenSpec(f1: Folder, i: nat, atRoot: bool)
    requires i < |f1.subfolders| && |Files(f1)| > 0
    ensures var o := AfterLastAsWritten(f1, i, atRoot); var n := |Files(f1)|; var c := Offset(f1, i + 1);
      && Skeleton(o.tree) == Skeleton(f1)
      && (o.status == Ok || (!atRoot && o == Outcome(f1, LastElement)))
      && (o.status == Ok ==>
            (c < n && Files(o.tree) == Mark(Files(f1), c, true)) || (atRoot && Files(o.tree) == Mark(Files(f1), 0, true)))
  {
    if i < |f1.subfolders| - 1 && SelectFirst(f1.subfolders[i + 1]).status == Ok {
      AfterLastAsWrittenNext(f1, i, atRoot);
    } else if atRoot {
      assert AfterLastAsWritten(f1, i, atRoot) == SelectFirst(f1);
      SelectFirstSpec(f1);
    }
  }

  /** Subfolder i+1 accepts the selection: its first file, right after subfolder i's stretch. */
  lemma AfterLastAsWrittenNext(f1: Folder, i: nat, atRoot: bool)
    requires i + 1 < |f1.subfolders| && SelectFirst(f1.subfolders[i + 1]).status == Ok
    ensures var o := AfterLastAsWritten(f1, i, atRoot); var c := Offset(f1, i + 1);
      && o.status == Ok && Skeleton(o.tree) == Skeleton(f1)
      && c < |Files(f1)| && Files(o.tree) == Mark(Files(f1), c, true)
  {
    var t := f1.subfolders[i + 1];
    SelectFirstSpec(t);
    OffsetNext(f1, i + 1);
    LiftMark(f1, i + 1, SelectFirst(t).tree, 0, true);
  }

  lemma {:induction false} IncreaseAsWrittenNoneSpec(f: Folder, atRoot: bool)
    requires NoneSelected(Files(f))
    decreases f, 1
    ensures IncreaseSelectionAsWritten(f, atRoot) == Outcome(f, NotFound)
  {
    NoneSelectedOwn(f);
    IncreaseFromAsWrittenNoneSpec(f, 0, atRoot);
  }

  lemma {:induction false} IncreaseFromAsWrittenNoneSpec(f: Folder, i: nat, atRoot: bool)
    requires i <= |f.subfolders|
    requires NoneSelected(Files(f))
    decreases f, 0, |f.subfolders| - i
    ensures IncreaseFromAsWritten(f, i, atRoot) == Outcome(f, NotFound)
  {
    if i < |f.subfolders| {
      NoneSelectedInSub(f, i);
      IncreaseAsWrittenNoneSpec(f.subfolders[i], false);
      assert f.subfolders[i := f.subfolders[i]] == f.subfolders;
      IncreaseFromAsWrittenNoneSpec(f, i + 1, atRoot);
    }
  }

  /** increaseSelection as written: when it answers S_OK the selection moved to the next file
      or, at the root, to the first; otherwise it unselected the file and answered
      S_LAST_ELEMENT, which never happens at the root. It may answer S_LAST_ELEMENT, or wrap,
      while later files exist (IncreaseSkipsAfterEmptyFolder). */
  lemma {:induction false} IncreaseAsWrittenSpec(f: Folder, atRoot: bool, k: nat)
    requires OneSelected(Files(f), k)
    decreases f, 1
    ensures var o := IncreaseSelectionAsWritten(f, atRoot); var n := |Files(f)|;
      && Skeleton(o.tree) == Skeleton(f)
      && (o.status == Ok || (o.status == LastElement && !atRoot))
      && (o.status == Ok ==> MovedAfter(Files(f), Files(o.tree), k) || (atRoot && Files(o.tree) == Move(Files(f), k, 0)))
      && (o.status == LastElement ==> Files(o.tree) == Mark(Files(f), k, false))
  {
    FirstSelectedOwn(f, k);
    if k < |f.files| {
      IncreaseOwnSpec(f, atRoot, k);
      assert IncreaseSelectionAsWritten(f, atRoot) == IncreaseSelection(f, atRoot);
      if k + 1 < |Files(f)| {
        assert Files(IncreaseSelection(f, atRoot).tree) == Move(Files(f), k, k + 1);
      }
    } else {
      OffsetAll(f);
      assert IncreaseSelectionAsWritten(f, atRoot) == IncreaseFromAsWritten(f, 0, atRoot);
      IncreaseFromAsWrittenSpec(f, 0, atRoot, k);
    }
  }

  lemma {:induction false} IncreaseFromAsWrittenSpec(f: Folder, i: nat, atRoot: bool, k: nat)
    requires i <= |f.subfolders|
    requires OneSelected(Files(f), k) && Offset(f, i) <= k
    decreases f, 0, |f.subfolders| - i, 1
    ensures var o := IncreaseFromAsWritten(f, i, atRoot); var n := |Files(f)|;
      && Skeleton(o.tree) == Skeleton(f)
      && (o.status == Ok || (o.status == LastElement && !atRoot))
      && (o.status == Ok ==> MovedAfter(Files(f), Files(o.tree), k) || (atRoot && Files(o.tree) == Move(Files(f), k, 0)))
      && (o.status == LastElement ==> Files(o.tree) == Mark(Files(f), k, false))
  {
    OffsetAll(f);
    assert i < |f.subfolders|;
    SplitAt(f, i);
    SelectionInSub(f, i, k);
    if k < Offset(f, i + 1) {
      IncreaseAsWrittenInSub(f, i, atRoot, k);
    } else {
      var s := f.subfolders[i];
      IncreaseAsWrittenNoneSpec(s, false);
      assert f.subfolders[i := s] == f.subfolders;
      assert IncreaseFromAsWritten(f, i, atRoot) == IncreaseFromAsWritten(f, i + 1, atRoot);
      IncreaseFromAsWrittenSpec(f, i + 1, atRoot, k);
    }
  }

  lemma {:induction false} IncreaseAsWrittenInSub(f: Folder, i: nat, atRoot: bool, k: nat)
    requires i < |f.subfolders|
    requires OneSelected(Files(f), k) && Offset(f, i) <= k < Offset(f, i + 1)
    decreases f, 0, |f.subfolders| - i, 0
    ensures var o := IncreaseFromAsWritten(f, i, atRoot); var n := |Files(f)|;
      && Skeleton(o.tree) == Skeleton(f)
      && (o.status == Ok || (o.status == LastElement && !atRoot))
      && (o.status == Ok ==> MovedAfter(Files(f), Files(o.tree), k) || (atRoot && Files(o.tree) == Move(Files(f), k, 0)))
      && (o.status == LastElement ==> Files(o.tree) == Mark(Files(f), k, false))
  {
    var s := f.subfolders[i];
    SelectionInSub(f, i, k);
    IncreaseAsWrittenSpec(s, false, k - Offset(f, i));
    var r := IncreaseSelectionAsWritten(s, false);
    if r.status == Ok {
      AsWrittenSubMoved(f, i, atRoot, k, r);
    } else {
      AsWrittenSubGaveUp(f, i, atRoot, k, r);
    }
  }

  /** Subfolder i moved the selection on by itself. */
  lemma AsWrittenSubMoved(f: Folder, i: nat, atRoot: bool, k: nat, r: Outcome)
    requires i < |f.subfolders| && Offset(f, i) <= k < Offset(f, i + 1)
    requires r == IncreaseSelectionAsWritten(f.subfolders[i], false) && r.status == Ok
    requires Skeleton(r.tree) == Skeleton(f.subfolders[i])
    requires MovedAfter(Files(f.subfolders[i]), Files(r.tree), k - Offset(f, i))
    ensures var o := IncreaseFromAsWritten(f, i, atRoot);
      && Skeleton(o.tree) == Skeleton(f)
      && o.status == Ok && MovedAfter(Files(f), Files(o.tree), k)
  {
    var f1 := f.(subfolders := f.subfolders[i := r.tree]);
    assert IncreaseFromAsWritten(f, i, atRoot) == Outcome(f1, Ok);
    LiftMovedAfter(f, i, r.tree, k - Offset(f, i));
  }

  /** A move to a later entry inside subfolder i is a move to a later entry of Files(f). */
  lemma LiftMovedAfter(f: Folder, i: nat, g: Folder, a: nat)
    requires i < |f.subfolders|
    requires Skeleton(g) == Skeleton(f.subfolders[i]) && MovedAfter(Files(f.subfolders[i]), Files(g), a)
    ensures var f1 := f.(subfolders := f.subfolders[i := g]);
      && Skeleton(f1) == Skeleton(f)
      && MovedAfter(Files(f), Files(f1), Offset(f, i) + a)
  {
    var s := f.subfolders[i];
    var o := Offset(f, i);
    var j :| a < j < |Files(s)| && Files(g) == Move(Files(s), a, j);
    LiftMove(f, i, g, a, j);
    OffsetNext(f, i);
    assert o + a < o + j < |Files(f)|;
  }

  /** Subfolder i gave up its last file: only subfolder i+1 is tried next. */
  lemma AsWrittenSubGaveUp(f: Folder, i: nat, atRoot: bool, k: nat, r: Outcome)
    requires i < |f.subfolders| && Offset(f, i) <= k < Offset(f, i + 1)
    requires r == IncreaseSelectionAsWritten(f.subfolders[i], false) && r.status == LastElement
    requires Skeleton(r.tree) == Skeleton(f.subfolders[i])
    requires Files(r.tree) == Mark(Files(f.subfolders[i]), k - Offset(f, i), false)
    ensures var o := IncreaseFromAsWritten(f, i, atRoot);
      && Skeleton(o.tree) == Skeleton(f)
      && (o.status == Ok || (o.status == LastElement && !atRoot))
      && (o.status == Ok ==> MovedAfter(Files(f), Files(o.tree), k) || (atRoot && Files(o.tree) == Move(Files(f), k, 0)))
      && (o.status == LastElement ==> Files(o.tree) == Mark(Files(f), k, false))
  {
    var f1 := f.(subfolders := f.subfolders[i := r.tree]);
    assert IncreaseFromAsWritten(f, i, atRoot) == AfterLastAsWritten(f1, i, atRoot);
    OffsetNext(f, i);
    LiftMark(f, i, r.tree, k - Offset(f, i), false);
    AfterLastAsWrittenSpec(f1, i, atRoot);
    var c := Offset(f1, i + 1);
    if c < |Files(f1)| {
      assert Mark(Files(f1), c, true) == Move(Files(f), k, c);
    }
  }

  /** From exactly one selected file, increaseSelection as written on the root answers S_OK and
      leaves exactly one file selected: a later one in pre-order, or the first. */
  lemma IncreaseAsWrittenAtRoot(f: Folder, k: nat)
    requires OneSelected(Files(f), k)
    ensures var o := IncreaseSelectionAsWritten(f, true);
      o.status == Ok && exists j :: (j == 0 || k < j) && OneSelected(Files(o.tree), j)
  {
    IncreaseAsWrittenSpec(f, true, k);
    var o := IncreaseSelectionAsWritten(f, true);
    if MovedAfter(Files(f), Files(o.tree), k) {
      var j :| k < j < |Files(f)| && Files(o.tree) == Move(Files(f), k, j);
      MoveKeepsOneSelected(Files(f), k, j);
    } else {
      MoveKeepsOneSelected(Files(f), k, 0);
    }
  }

  /** The skip: under a root holding folders A (file a, selected), B (empty) and C (file c),
      increaseSelection as written gives up after trying B and wraps back to a, so c, the next
      file in pre-order, is never reached. */
  lemma IncreaseSkipsAfterEmptyFolder()
    ensures
      var a := File("a", 0, true, Nothing);
      var c := File("c", 0, false, Nothing);
      var root := Folder("", [], [Folder("A", [a], []), Folder("B", [], []), Folder("C", [c], [])]);
      && Files(root) == [a, c] && OneSelected(Files(root), 0)
      && IncreaseSelectionAsWritten(root, true) == Outcome(root, Ok)
  {
    var a := File("a", 0, true, Nothing);
    var c := File("c", 0, false, Nothing);
    var a0 := a.(selected := false);
    var fa, fb, fc := Folder("A", [a], []), Folder("B", [], []), Folder("C", [c], []);
    var fa0 := Folder("A", [a0], []);
    var root := Folder("", [], [fa, fb, fc]);
    var r1 := Folder("", [], [fa0, fb, fc]);
    ExampleFiles(a, c, fa, fb, fc);
    // Subfolder A gives up its only file.
    assert Mark([a], 0, false) == [a0];
    assert FirstMatch([a], Selected, 0) == Some(0);
    assert SelectFirstFrom(fa.(files := [a0]), 0) == Outcome(fa0, NotFound);
    assert AfterLast(fa0, 0, false) == Outcome(fa0, LastElement);
    assert IncreaseSelectionAsWritten(fa, false) == Outcome(fa0, LastElement);
    assert root.subfolders[0 := fa0] == [fa0, fb, fc];
    // Only B is tried, then the root wraps to a.
    assert SelectFirst(fb) == Outcome(fb, NotFound) by {
      assert SelectFirstFrom(fb, 0) == Outcome(fb, NotFound);
    }
    assert Mark([a0], 0, true) == [a];
    assert SelectFirst(fa0) == Outcome(fa, Ok);
    assert [fa0, fb, fc][0 := fa] == [fa, fb, fc];
    assert SelectFirstFrom(r1, 0) == Outcome(root, Ok);
    assert AfterLastAsWritten(r1, 0, true) == Outcome(root, Ok);
    assert FirstMatch([], Selected, 0) == None;
    assert IncreaseFromAsWritten(root, 0, true) == Outcome(root, Ok);
  }

  /** On the same tree the corrected loop goes on to C and selects c. */
  lemma IncreaseReachesAfterEmptyFolder()
    ensures
      var a := File("a", 0, true, Nothing);
      var c := File("c", 0, false, Nothing);
      var root := Folder("", [], [Folder("A", [a], []), Folder("B", [], []), Folder("C", [c], [])]);
      IncreaseSelection(root, true)
      == Outcome(Folder("", [], [Folder("A", [a.(selected := false)], []), Folder("B", [], []), Folder("C", [c.(selected := true)], [])]), Ok)
  {
    var a := File("a", 0, true, Nothing);
    var c := File("c", 0, false, Nothing);
    var a0 := a.(selected := false);
    var c1 := c.(selected := true);
    var fa, fb, fc := Folder("A", [a], []), Folder("B", [], []), Folder("C", [c], []);
    var fa0, fc1 := Folder("A", [a0], []), Folder("C", [c1], []);
    var root := Folder("", [], [fa, fb, fc]);
    var r1 := Folder("", [], [fa0, fb, fc]);
    assert Mark([a], 0, false) == [a0];
    assert FirstMatch([a], Selected, 0) == Some(0);
    assert SelectFirstFrom(fa.(files := [a0]), 0) == Outcome(fa0, NotFound);
    assert AfterLast(fa0, 0, false) == Outcome(fa0, LastElement);
    assert IncreaseSelection(fa, false) == Outcome(fa0, LastElement);
    assert root.subfolders[0 := fa0] == [fa0, fb, fc];
    assert SelectFirst(fb) == Outcome(fb, NotFound) by {
      assert SelectFirstFrom(fb, 0) == Outcome(fb, NotFound);
    }
    assert Mark([c], 0, true) == [c1];
    assert SelectFirst(fc) == Outcome(fc1, Ok);
    assert [fa0, fb, fc][2 := fc1] == [fa0, fb, fc1];
    assert SelectFirstFrom(r1, 2) == Outcome(Folder("", [], [fa0, fb, fc1]), Ok);
    assert SelectFirstFrom(r1, 1) == SelectFirstFrom(r1, 2);
    assert AfterLast(r1, 1, true) == Outcome(Folder("", [], [fa0, fb, fc1]), Ok);
    assert FirstMatch([], Selected, 0) == None;
    assert IncreaseFrom(root, 0, true) == Outcome(Folder("", [], [fa0, fb, fc1]), Ok);
  }

  lemma ExampleFiles(a: File, c: File, fa: Folder, fb: Folder, fc: Folder)
    requires fa == Folder("A", [a], []) && fb == Folder("B", [], []) && fc == Folder("C", [c], [])
    ensures Files(Folder("", [], [fa, fb, fc])) == [a, c]
  {
    assert Files(fa) == [a] && Files(fb) == [] && Files(fc) == [c] by {
      assert FilesSeq([]) == [];
    }
    assert FilesSeq([fc]) == [c] by {
      assert [fc][1..] == [];
    }
    assert FilesSeq([fb, fc]) == [c] by {
      assert [fb, fc][1..] == [fc];
    }
    assert FilesSeq([fa, fb, fc]) == [a, c] by {
      assert [fa, fb, fc][1..] == [fb, fc];
    }
  }

  // ---------------------------------------------------------------------------
  // decreaseSelection
  // ---------------------------------------------------------------------------

  /** After subfolder i gave up its first file, the selection goes to the last file before
      subfolder i; failing that, to the last file at the root; elsewhere nothing is selected
      and the answer is S_FIRST_ELEMENT. */
  lemma BeforeFirstSpec(f1: Folder, i: nat, atRoot: bool)
    requires i <= |f1.subfolders|
    ensures var o := BeforeFirst(f1, i, atRoot); var n := |Files(f1)|; var c := Offset(f1, i);
      && Skeleton(o.tree) == Skeleton(f1)
      && (c > 0 ==> o.status == Ok && Files(o.tree) == Mark(Files(f1), c - 1, true))
      && (c == 0 && atRoot && n > 0 ==> o.status == Ok && Files(o.tree) == Mark(Files(f1), n - 1, true))
      && (c == 0 && !atRoot ==> o == Outcome(f1, FirstElement))
  {
    SelectLastFromSpec(f1, i);
    SelectLastSpec(f1);
  }

  lemma {:induction false} DecreaseNoneSpec(f: Folder, atRoot: bool)
    requires NoneSelected(Files(f))
    decreases f, 1
    ensures DecreaseSelection(f, atRoot) == Outcome(f, NotFound)
  {
    NoneSelectedOwn(f);
    DecreaseFromNoneSpec(f, |f.subfolders|, atRoot);
  }

  lemma {:induction false} DecreaseFromNoneSpec(f: Folder, i: nat, atRoot: bool)
    requires i <= |f.subfolders|
    requires NoneSelected(Files(f))
    decreases f, 0, i
    ensures DecreaseFrom(f, i, atRoot) == Outcome(f, NotFound)
  {
    if i > 0 {
      NoneSelectedInSub(f, i - 1);
      DecreaseNoneSpec(f.subfolders[i - 1], false);
      assert f.subfolders[i - 1 := f.subfolders[i - 1]] == f.subfolders;
      DecreaseFromNoneSpec(f, i - 1, atRoot);
    }
  }

  /** The files loop of decreaseSelection, when the selected file k is one of the folder's own. */
  lemma DecreaseOwnSpec(f: Folder, atRoot: bool, k: nat)
    requires OneSelected(Files(f), k) && k < |f.files|
    ensures var o := DecreaseSelection(f, atRoot); var n := |Files(f)|;
      && Skeleton(o.tree) == Skeleton(f)
      && (k > 0 ==> o.status == Ok && Files(o.tree) == Move(Files(f), k, k - 1))
      && (k == 0 && atRoot ==> o.status == Ok && Files(o.tree) == Move(Files(f), k, n - 1))
      && (k == 0 && !atRoot ==> o.status == FirstElement && Files(o.tree) == Mark(Files(f), k, false))
  {
    var fs := f.files;
    var rest := FilesSeq(f.subfolders);
    FirstSelectedOwn(f, k);
    var f1 := f.(files := Mark(fs, k, false));
    MarkInside([], fs, rest, k, false);
    assert Files(f1) == Mark(Files(f), k, false);
    if k == 0 {
      SelectLastSpec(f1);
    } else {
      MoveInside([], fs, rest, k, k - 1);
    }
  }

  /** decreaseSelection moves the one selection to the previous file in pre-order. Before the
      first file it wraps to the last at the root, and elsewhere it unselects and answers
      S_FIRST_ELEMENT so that the caller carries on. Nothing but the two flags changes. */
  lemma {:induction false} DecreaseSpec(f: Folder, atRoot: bool, k: nat)
    requires OneSelected(Files(f), k)
    decreases f, 1
    ensures var o := DecreaseSelection(f, atRoot); var n := |Files(f)|;
      && Skeleton(o.tree) == Skeleton(f)
      && (k > 0 ==> o.status == Ok && Files(o.tree) == Move(Files(f), k, k - 1))
      && (k == 0 && atRoot ==> o.status == Ok && Files(o.tree) == Move(Files(f), k, n - 1))
      && (k == 0 && !atRoot ==> o.status == FirstElement && Files(o.tree) == Mark(Files(f), k, false))
  {
    if k < |f.files| {
      DecreaseOwnSpec(f, atRoot, k);
    } else {
      FirstSelectedOwn(f, k);
      OffsetAll(f);
      assert DecreaseSelection(f, atRoot) == DecreaseFrom(f, |f.subfolders|, atRoot);
      DecreaseFromSpec(f, |f.subfolders|, atRoot, k);
    }
  }

  lemma {:induction false} DecreaseFromSpec(f: Folder, i: nat, atRoot: bool, k: nat)
    requires i <= |f.subfolders|
    requires OneSelected(Files(f), k) && |f.files| <= k < Offset(f, i)
    decreases f, 0, i, 1
    ensures var o := DecreaseFrom(f, i, atRoot); var n := |Files(f)|;
      && Skeleton(o.tree) == Skeleton(f)
      && (k > 0 ==> o.status == Ok && Files(o.tree) == Move(Files(f), k, k - 1))
      && (k == 0 && atRoot ==> o.status == Ok && Files(o.tree) == Move(Files(f), k, n - 1))
      && (k == 0 && !atRoot ==> o.status == FirstElement && Files(o.tree) == Mark(Files(f), k, false))
  {
    OffsetAll(f);
    assert i > 0;
    var j := i - 1;
    SplitAt(f, j);
    SelectionInSub(f, j, k);
    if Offset(f, j) <= k {
      DecreaseInSub(f, i, atRoot, k);
    } else {
      var s := f.subfolders[j];
      DecreaseNoneSpec(s, false);
      assert f.subfolders[j := s] == f.subfolders;
      assert DecreaseFrom(f, i, atRoot) == DecreaseFrom(f, j, atRoot);
      DecreaseFromSpec(f, j, atRoot, k);
    }
  }

  /** The subfolder loop of decreaseSelection at subfolder i-1, which holds the selected file k. */
  lemma {:induction false} DecreaseInSub(f: Folder, i: nat, atRoot: bool, k: nat)
    requires 0 < i <= |f.subfolders|
    requires OneSelected(Files(f), k) && Offset(f, i - 1) <= k < Offset(f, i)
    decreases f, 0, i, 0
    ensures var o := DecreaseFrom(f, i, atRoot); var n := |Files(f)|;
      && Skeleton(o.tree) == Skeleton(f)
      && (k > 0 ==> o.status == Ok && Files(o.tree) == Move(Files(f), k, k - 1))
      && (k == 0 && atRoot ==> o.status == Ok && Files(o.tree) == Move(Files(f), k, n - 1))
      && (k == 0 && !atRoot ==> o.status == FirstElement && Files(o.tree) == Mark(Files(f), k, false))
  {
    var j := i - 1;
    var s := f.subfolders[j];
    var o := Offset(f, j);
    SelectionInSub(f, j, k);
    DecreaseSpec(s, false, k - o);
    var r := DecreaseSelection(s, false);
    if k - o > 0 {
      DecreaseInSubPrev(f, j, atRoot, k, r.tree);
    } else {
      DecreaseInSubFirst(f, j, atRoot, k, r.tree);
    }
  }

  /** Subfolder j moved its selection back by itself: so did the folder. */
  lemma DecreaseInSubPrev(f: Folder, j: nat, atRoot: bool, k: nat, g: Folder)
    requires j < |f.subfolders|
    requires Offset(f, j) < k < Offset(f, j + 1) == Offset(f, j) + |Files(f.subfolders[j])|
    requires DecreaseSelection(f.subfolders[j], false) == Outcome(g, Ok)
    requires Skeleton(g) == Skeleton(f.subfolders[j])
    requires Files(g) == Move(Files(f.subfolders[j]), k - Offset(f, j), k - Offset(f, j) - 1)
    ensures var o := DecreaseFrom(f, j + 1, atRoot);
      o.status == Ok && Skeleton(o.tree) == Skeleton(f) && Files(o.tree) == Move(Files(f), k, k - 1)
  {
    var f1 := f.(subfolders := f.subfolders[j := g]);
    assert DecreaseFrom(f, j + 1, atRoot) == Outcome(f1, Ok);
    LiftMove(f, j, g, k - Offset(f, j), k - Offset(f, j) - 1);
  }

  /** Subfolder j gave up its first file: the selection goes to the last file before it. */
  lemma DecreaseInSubFirst(f: Folder, j: nat, atRoot: bool, k: nat, g: Folder)
    requires j < |f.subfolders|
    requires Offset(f, j) == k < Offset(f, j + 1) == Offset(f, j) + |Files(f.subfolders[j])| <= |Files(f)|
    requires DecreaseSelection(f.subfolders[j], false) == Outcome(g, FirstElement)
    requires Skeleton(g) == Skeleton(f.subfolders[j])
    requires Files(g) == Mark(Files(f.subfolders[j]), 0, false)
    ensures var o := DecreaseFrom(f, j + 1, atRoot); var n := |Files(f)|;
      && Skeleton(o.tree) == Skeleton(f)
      && (k > 0 ==> o.status == Ok && Files(o.tree) == Move(Files(f), k, k - 1))
      && (k == 0 && atRoot ==> o.status == Ok && Files(o.tree) == Move(Files(f), k, n - 1))
      && (k == 0 && !atRoot ==> o.status == FirstElement && Files(o.tree) == Mark(Files(f), k, false))
  {
    var f1 := f.(subfolders := f.subfolders[j := g]);
    assert DecreaseFrom(f, j + 1, atRoot) == BeforeFirst(f1, j, atRoot);
    LiftMark(f, j, g, 0, false);
    BeforeFirstSpec(f1, j, atRoot);
  }

  /** From exactly one selected file, decreaseSelection on the root answers S_OK and leaves
      exactly one file selected: the previous one in pre-order, or the last before the first. */
  lemma DecreaseAtRoot(f: Folder, k: nat)
    requires OneSelected(Files(f), k)
    ensures var o := DecreaseSelection(f, true); var n := |Files(f)|;
      o.status == Ok && OneSelected(Files(o.tree), if k > 0 then k - 1 else n - 1)
  {
    DecreaseSpec(f, true, k);
    var n := |Files(f)|;
    if k > 0 {
      MoveKeepsOneSelected(Files(f), k, k - 1);
    } else {
      MoveKeepsOneSelected(Files(f), k, n - 1);
    }
  }

  // ---------------------------------------------------------------------------
  // Searches and locations
  // ---------------------------------------------------------------------------

  /** Entry j of subfolder i's files is entry Offset(f, i) + j of Files(f). */
  lemma SubEntries(f: Folder, i: nat)
    requires i < |f.subfolders|
    ensures Offset(f, i + 1) == Offset(f, i) + |Files(f.subfolders[i])| <= |Files(f)|
    ensures forall j :: 0 <= j < |Files(f.subfolders[i])| ==> Files(f)[Offset(f, i) + j] == Files(f.subfolders[i])[j]
  {
    SplitAt(f, i);
    OffsetNext(f, i);
  }

  /** The file at a location is the entry FlatIndex of Files(f). */
  lemma {:induction false} FlatIndexSpec(f: Folder, loc: Loc)
    requires ValidLoc(f, loc)
    decreases |loc.dirs|
    ensures FlatIndex(f, loc) < |Files(f)| && Files(f)[FlatIndex(f, loc)] == FileAt(f, loc)
  {
    if loc.dirs != [] {
      var d := loc.dirs[0];
      var sub := Loc(loc.dirs[1..], loc.index);
      assert FolderAt(f, loc.dirs) == FolderAt(f.subfolders[d], sub.dirs);
      FlatIndexSpec(f.subfolders[d], sub);
      SubEntries(f, d);
    }
  }

  /** Writing through a location replaces exactly entry FlatIndex of Files(f). */
  lemma {:induction false} WithFileAtSpec(f: Folder, loc: Loc, x: File)
    requires ValidLoc(f, loc)
    decreases |loc.dirs|
    ensures Skeleton(WithFileAt(f, loc, x)) == Skeleton(f)
    ensures FlatIndex(f, loc) < |Files(f)| && Files(WithFileAt(f, loc, x)) == Files(f)[FlatIndex(f, loc) := x]
  {
    if loc.dirs != [] {
      var d := loc.dirs[0];
      var sub := Loc(loc.dirs[1..], loc.index);
      var s := f.subfolders[d];
      assert FolderAt(f, loc.dirs) == FolderAt(s, sub.dirs);
      WithFileAtSpec(s, sub, x);
      FlatIndexSpec(s, sub);
      LiftUpdate(f, d, WithFileAt(s, sub, x), FlatIndex(s, sub), x);
    }
  }

  /** The first match is unique: whatever satisfies IsFirstMatch is what FirstMatch finds. */
  lemma FirstMatchUnique(fs: seq<File>, p: File -> bool, k: nat)
    requires IsFirstMatch(fs, p, k)
    ensures FirstMatch(fs, p, 0) == Some(k)
  {
    assert p(fs[k]);
  }

  lemma NoMatchNone(fs: seq<File>, p: File -> bool)
    requires NoMatch(fs, p)
    ensures FirstMatch(fs, p, 0) == None
  {
  }

  /** getSelectedFile, getProgramFile and getResourceFile visit the files in pre-order: they
      return nullptr exactly when no file of the tree matches, and otherwise the first match. */
  lemma {:induction false} FindSpec(f: Folder, p: File -> bool)
    decreases f, 1
    ensures Find(f, p).None? <==> NoMatch(Files(f), p)
    ensures Find(f, p).Some? ==> IsFirstMatch(Files(f), p, FlatIndex(f, Find(f, p).value))
  {
    assert forall j :: 0 <= j < |f.files| ==> Files(f)[j] == f.files[j];
    var m := FirstMatch(f.files, p, 0);
    if m.None? {
      OffsetAll(f);
      FindFromSpec(f, p, 0);
    }
    var r := Find(f, p);
    if r.Some? {
      FlatIndexSpec(f, r.value);
    }
  }

  lemma {:induction false} FindFromSpec(f: Folder, p: File -> bool, i: nat)
    requires i <= |f.subfolders|
    requires NoMatchBelow(Files(f), p, Offset(f, i))
    decreases f, 0, |f.subfolders| - i, 1
    ensures FindFrom(f, p, i).None? <==> NoMatch(Files(f), p)
    ensures FindFrom(f, p, i).Some? ==> IsFirstMatch(Files(f), p, FlatIndex(f, FindFrom(f, p, i).value))
  {
    if i == |f.subfolders| {
      OffsetAll(f);
    } else if Find(f.subfolders[i], p).Some? {
      FindFromHit(f, p, i);
    } else {
      FindFromMiss(f, p, i);
      FindFromSpec(f, p, i + 1);
    }
  }

  /** The subfolder loop of Find past a subfolder without match. */
  lemma {:induction false} FindFromMiss(f: Folder, p: File -> bool, i: nat)
    requires i < |f.subfolders|
    requires NoMatchBelow(Files(f), p, Offset(f, i))
    requires Find(f.subfolders[i], p).None?
    decreases f, 0, |f.subfolders| - i, 0
    ensures FindFrom(f, p, i) == FindFrom(f, p, i + 1)
    ensures NoMatchBelow(Files(f), p, Offset(f, i + 1))
  {
    var s := f.subfolders[i];
    FindSpec(s, p);
    SubEntries(f, i);
    FindFromStep(f, p, i);
    NoMatchAfterPrefix(Files(f), Files(s), Offset(f, i), p);
  }

  /** The subfolder loop of Find at the first subfolder holding a match. */
  lemma {:induction false} FindFromHit(f: Folder, p: File -> bool, i: nat)
    requires i < |f.subfolders|
    requires NoMatchBelow(Files(f), p, Offset(f, i))
    requires Find(f.subfolders[i], p).Some?
    decreases f, 0, |f.subfolders| - i, 0
    ensures FindFrom(f, p, i).Some? && IsFirstMatch(Files(f), p, FlatIndex(f, FindFrom(f, p, i).value))
  {
    var s := f.subfolders[i];
    FindSpec(s, p);
    var q := FlatIndex(s, Find(s, p).value);
    assert IsFirstMatch(Files(s), p, q);
    FindFromStep(f, p, i);
    var r := FindFrom(f, p, i).value;
    assert FlatIndex(f, r) == Offset(f, i) + q;
    SubEntries(f, i);
    MatchAfterPrefix(Files(f), Files(s), Offset(f, i), p, q);
  }

  /** One round of the subfolder loop of Find, unfolded. */
  lemma FindFromStep(f: Folder, p: File -> bool, i: nat)
    requires i < |f.subfolders|
    ensures var s := f.subfolders[i]; var r := Find(s, p);
      && (r.None? ==> FindFrom(f, p, i) == FindFrom(f, p, i + 1))
      && (r.Some? ==> FindFrom(f, p, i).Some?
                      && FlatIndex(f, FindFrom(f, p, i).value) == Offset(f, i) + FlatIndex(s, r.value))
  {
    var s := f.subfolders[i];
    if Find(s, p).Some? {
      var loc := Find(s, p).value;
      var r := Loc([i] + loc.dirs, loc.index);
      assert r.dirs[0] == i && r.dirs[1..] == loc.dirs;
      assert FindFrom(f, p, i) == Some(r);
    }
  }

  /** No entry of fs before n matches. */
  ghost predicate NoMatchBelow(fs: seq<File>, p: File -> bool, n: nat) {
    n <= |fs| && forall j :: 0 <= j < n ==> !p(fs[j])
  }

  /** A stretch sub of fs starting at o, after a prefix without match: a first match in sub is
      one in fs. */
  lemma MatchAfterPrefix(fs: seq<File>, sub: seq<File>, o: nat, p: File -> bool, q: nat)
    requires o + |sub| <= |fs| && forall j :: 0 <= j < |sub| ==> fs[o + j] == sub[j]
    requires NoMatchBelow(fs, p, o) && IsFirstMatch(sub, p, q)
    ensures IsFirstMatch(fs, p, o + q)
  {
    forall j | o <= j < o + q
      ensures !p(fs[j])
    {
      assert fs[o + (j - o)] == sub[j - o];
    }
  }

  /** ... and without a match in sub, the prefix without match extends over sub. */
  lemma NoMatchAfterPrefix(fs: seq<File>, sub: seq<File>, o: nat, p: File -> bool)
    requires o + |sub| <= |fs| && forall j :: 0 <= j < |sub| ==> fs[o + j] == sub[j]
    requires NoMatchBelow(fs, p, o) && NoMatch(sub, p)
    ensures NoMatchBelow(fs, p, o + |sub|)
  {
    forall j | o <= j < o + |sub|
      ensures !p(fs[j])
    {
      assert fs[o + (j - o)] == sub[j - o];
    }
  }

  // ---------------------------------------------------------------------------
  // increaseFileMode and decreaseFileMode
  // ---------------------------------------------------------------------------

  /** The entry k of fs with its mode replaced by m. */
  function WithMode(fs: seq<File>, k: nat, m: FileMode): (r: seq<File>)
    requires k < |fs|
    ensures |r| == |fs| && r[k].mode == m && r[k].selected == fs[k].selected
    ensures forall j :: 0 <= j < |fs| && j != k ==> r[j] == fs[j]
  {
    fs[k := fs[k].(mode := m)]
  }

  /** increaseFileMode answers S_NOT_FOUND and changes nothing when no file is selected; otherwise
      it answers S_OK and steps forward the mode of the first selected file in pre-order, the one
      getSelectedFile returns, and of no other. */
  lemma IncreaseFileModeSpec(f: Folder)
    ensures var o := IncreaseFileMode(f); var m := FirstMatch(Files(f), Selected, 0);
      && Skeleton(o.tree) == Skeleton(f)
      && (m.None? ==> o == Outcome(f, NotFound))
      && (m.Some? ==> o.status == Ok && Files(o.tree) == WithMode(Files(f), m.value, NextMode(Files(f)[m.value].mode)))
  {
    FindSpec(f, Selected);
    var r := SelectedFile(f);
    if r.Some? {
      FlatIndexSpec(f, r.value);
      FirstMatchUnique(Files(f), Selected, FlatIndex(f, r.value));
      var x := FileAt(f, r.value);
      WithFileAtSpec(f, r.value, x.(mode := NextMode(x.mode)));
    } else {
      NoMatchNone(Files(f), Selected);
    }
  }

  /** decreaseFileMode: the same, stepping the mode backward. */
  lemma DecreaseFileModeSpec(f: Folder)
    ensures var o := DecreaseFileMode(f); var m := FirstMatch(Files(f), Selected, 0);
      && Skeleton(o.tree) == Skeleton(f)
      && (m.None? ==> o == Outcome(f, NotFound))
      && (m.Some? ==> o.status == Ok && Files(o.tree) == WithMode(Files(f), m.value, PrevMode(Files(f)[m.value].mode)))
  {
    FindSpec(f, Selected);
    var r := SelectedFile(f);
    if r.Some? {
      FlatIndexSpec(f, r.value);
      FirstMatchUnique(Files(f), Selected, FlatIndex(f, r.value));
      var x := FileAt(f, r.value);
      WithFileAtSpec(f, r.value, x.(mode := PrevMode(x.mode)));
    } else {
      NoMatchNone(Files(f), Selected);
    }
  }

  /** Trees with the same skeleton have the same number of files. */
  lemma {:induction false} SkeletonCount(f: Folder, g: Folder)
    requires Skeleton(f) == Skeleton(g)
    decreases f, 1
    ensures |Files(f)| == |Files(g)|
  {
    assert |f.subfolders| == |Skeleton(f).subs| == |g.subfolders|;
    assert forall i :: 0 <= i < |f.subfolders| ==> Skeleton(f.subfolders[i]) == Skeleton(f).subs[i];
    assert forall i :: 0 <= i < |g.subfolders| ==> Skeleton(g.subfolders[i]) == Skeleton(g).subs[i];
    SkeletonCountSeq(f.subfolders, g.subfolders);
  }

  lemma {:induction false} SkeletonCountSeq(fs: seq<Folder>, gs: seq<Folder>)
    requires |fs| == |gs| && forall i :: 0 <= i < |fs| ==> Skeleton(fs[i]) == Skeleton(gs[i])
    decreases fs, 0
    ensures |FilesSeq(fs)| == |FilesSeq(gs)|
  {
    if fs != [] {
      SkeletonCount(fs[0], gs[0]);
      SkeletonCountSeq(fs[1..], gs[1..]);
    }
  }

  /** A tree is determined by its skeleton and its files in pre-order. */
  lemma {:induction false} TreeDetermined(f: Folder, g: Folder)
    requires Skeleton(f) == Skeleton(g) && Files(f) == Files(g)
    decreases f, 1
    ensures f == g
  {
    assert |f.subfolders| == |Skeleton(f).subs| == |g.subfolders|;
    assert forall i :: 0 <= i < |f.subfolders| ==> Skeleton(f.subfolders[i]) == Skeleton(f).subs[i];
    assert forall i :: 0 <= i < |g.subfolders| ==> Skeleton(g.subfolders[i]) == Skeleton(g).subs[i];
    assert f.files == Files(f)[..|f.files|];
    assert g.files == Files(g)[..|g.files|];
    assert FilesSeq(f.subfolders) == Files(f)[|f.files|..];
    assert FilesSeq(g.subfolders) == Files(g)[|g.files|..];
    SeqDetermined(f.subfolders, g.subfolders);
  }

  lemma {:induction false} SeqDetermined(fs: seq<Folder>, gs: seq<Folder>)
    requires |fs| == |gs| && forall i :: 0 <= i < |fs| ==> Skeleton(fs[i]) == Skeleton(gs[i])
    requires FilesSeq(fs) == FilesSeq(gs)
    decreases fs, 0
    ensures fs == gs
  {
    if fs != [] {
      SkeletonCount(fs[0], gs[0]);
      var n := |Files(fs[0])|;
      assert Files(fs[0]) == FilesSeq(fs)[..n];
      assert Files(gs[0]) == FilesSeq(gs)[..n];
      assert FilesSeq(fs[1..]) == FilesSeq(fs)[n..];
      assert FilesSeq(gs[1..]) == FilesSeq(gs)[n..];
      TreeDetermined(fs[0], gs[0]);
      SeqDetermined(fs[1..], gs[1..]);
      assert fs == [fs[0]] + fs[1..];
      assert gs == [gs[0]] + gs[1..];
    }
  }

  /** Pressing "mode down" after "mode up" restores the tree. */
  lemma DecreaseUndoesIncrease(f: Folder)
    ensures DecreaseFileMode(IncreaseFileMode(f).tree).tree == f
  {
    IncreaseFileModeSpec(f);
    var up := IncreaseFileMode(f).tree;
    DecreaseFileModeSpec(up);
    var m := FirstMatch(Files(f), Selected, 0);
    if m.Some? {
      var k := m.value;
      assert IsFirstMatch(Files(up), Selected, k);
      FirstMatchUnique(Files(up), Selected, k);
      ModeStepsInverse(Files(f)[k].mode);
      assert Files(DecreaseFileMode(up).tree) == Files(f);
      TreeDetermined(DecreaseFileMode(up).tree, f);
    }
  }

  /** Pressing "mode up" after "mode down" restores the tree. */
  lemma IncreaseUndoesDecrease(f: Folder)
    ensures IncreaseFileMode(DecreaseFileMode(f).tree).tree == f
  {
    DecreaseFileModeSpec(f);
    var down := DecreaseFileMode(f).tree;
    IncreaseFileModeSpec(down);
    var m := FirstMatch(Files(f), Selected, 0);
    if m.Some? {
      var k := m.value;
      assert IsFirstMatch(Files(down), Selected, k);
      FirstMatchUnique(Files(down), Selected, k);
      ModeStepsInverse(Files(f)[k].mode);
      assert Files(IncreaseFileMode(down).tree) == Files(f);
      TreeDetermined(IncreaseFileMode(down).tree, f);
    }
  }

  // ---------------------------------------------------------------------------
  // Paths
  // ---------------------------------------------------------------------------

  lemma {:induction false} FolderAtAppend(f: Folder, dirs: seq<nat>, d: nat)
    requires ValidDirs(f, dirs) && d < |FolderAt(f, dirs).subfolders|
    decreases |dirs|
    ensures ValidDirs(f, dirs + [d]) && FolderAt(f, dirs + [d]) == FolderAt(f, dirs).subfolders[d]
  {
    if dirs == [] {
      assert ([] + [d])[1..] == [];
    } else {
      assert (dirs + [d])[0] == dirs[0] && (dirs + [d])[1..] == dirs[1..] + [d];
      FolderAtAppend(f.subfolders[dirs[0]], dirs[1..], d);
    }
  }

  /** folder::getPath: a subfolder's path is its parent's path, its name and "/". */
  lemma {:induction false} FolderPathOfChild(f: Folder, dirs: seq<nat>, d: nat)
    requires ValidDirs(f, dirs) && d < |FolderAt(f, dirs).subfolders|
    decreases |dirs|
    ensures ValidDirs(f, dirs + [d])
    ensures FolderPath(f, dirs + [d]) == FolderPath(f, dirs) + FolderAt(f, dirs).subfolders[d].name + "/"
  {
    FolderAtAppend(f, dirs, d);
    if dirs == [] {
      assert ([] + [d])[1..] == [];
    } else {
      assert (dirs + [d])[0] == dirs[0] && (dirs + [d])[1..] == dirs[1..] + [d];
      FolderPathOfChild(f.subfolders[dirs[0]], dirs[1..], d);
    }
  }

  /** file::getPath: a file's path is its folder's path followed by its name. */
  lemma {:induction false} FilePathOfFile(f: Folder, loc: Loc)
    requires ValidLoc(f, loc)
    decreases |loc.dirs|
    ensures FilePath(f, loc) == FolderPath(f, loc.dirs) + FileAt(f, loc).name
  {
    if loc.dirs != [] {
      var sub := Loc(loc.dirs[1..], loc.index);
      assert FolderAt(f, loc.dirs) == FolderAt(f.subfolders[loc.dirs[0]], sub.dirs);
      FilePathOfFile(f.subfolders[loc.dirs[0]], sub);
    }
  }
}
