/**
 * The marker file that keeps a reset request alive: reading it, and writing it aside, removing the old one and
 * renaming, with every point at which that can stop.
 */
module ResetMarker {
  import opened Outcomes
  import opened ResetTree

  const MARKER_VERSION: nat := 1
  const MARKER_NAME := ".cfms-local-data-reset.json"

  /** Whether downloads go too, if the marker can be read. */
  function ReadMarker(t: Tree, marker: Path): Option<bool> {
    if marker !in t then None
    else
      match t[marker]
      case File(Marker(version, deleteDownloads)) =>
        if version == MARKER_VERSION then Some(deleteDownloads) else None
      case _ => None
  }

  // ---- Writing ----

  predicate MarkerPath(p: Path) {
    |p| > 0 && p[|p| - 1] == MARKER_NAME
  }

  function TemporaryPath(marker: Path): (p: Path)
    requires |marker| > 0
    ensures |p| == |marker| && MarkerPath(marker) ==> p != marker
  {
    var p := marker[..|marker| - 1] + [MARKER_NAME + ".tmp"];
    assert |p[|marker| - 1]| == |MARKER_NAME| + 4;
    p
  }

  function Ancestors(p: Path): set<Path> {
    set k | 0 <= k < |p| :: p[..k]
  }

  function WithDirectories(t: Tree, dirs: set<Path>): Tree {
    t + map p | p in dirs :: Dir
  }

  lemma DirectoriesKeepTree(t: Tree, p: Path)
    requires IsTree(t) && forall a :: a in Ancestors(p) && a in t ==> t[a] == Dir
    ensures IsTree(WithDirectories(t, Ancestors(p)))
  {
    var r := WithDirectories(t, Ancestors(p));
    forall q | q in r && |q| > 0 ensures q[..|q| - 1] in r && r[q[..|q| - 1]] == Dir {
      if q in Ancestors(p) {
        var k :| 0 <= k < |p| && q == p[..k];
        assert q[..|q| - 1] == p[..k - 1];
      }
    }
  }

  /** Only the marker and the file it is prepared in have changed, and missing directories above them were made. */
  ghost predicate OnlyMarker(before: Tree, after: Tree, marker: Path)
    requires |marker| > 0
  {
    && (forall p :: p in before && p != marker && p != TemporaryPath(marker) ==> p in after && after[p] == before[p])
    && (forall p :: p in after && p !in before && p != marker && p != TemporaryPath(marker) ==>
          p in Ancestors(marker) && after[p] == Dir)
  }

  lemma OnlyMarkerSame(t: Tree, marker: Path)
    requires |marker| > 0
    ensures OnlyMarker(t, t, marker)
  {
  }

  lemma OnlyMarkerWrites(before: Tree, t: Tree, marker: Path, n: Node)
    requires |marker| > 0 && OnlyMarker(before, t, marker)
    ensures OnlyMarker(before, t[marker := n], marker) && OnlyMarker(before, t - {marker}, marker)
    ensures OnlyMarker(before, t[TemporaryPath(marker) := n], marker)
    ensures OnlyMarker(before, t - {TemporaryPath(marker)}, marker)
  {
    hide TemporaryPath, Ancestors;
  }

  lemma FileKeepsTree(t: Tree, p: Path, content: Content)
    requires IsTree(t) && |p| > 0 && p[..|p| - 1] in t && t[p[..|p| - 1]] == Dir && (p in t ==> t[p] != Dir)
    ensures IsTree(t[p := File(content)])
  {
    var r := t[p := File(content)];
    forall q | q in r && |q| > 0 ensures q[..|q| - 1] in r && r[q[..|q| - 1]] == Dir {
      assert q != p ==> q in t;
      assert q[..|q| - 1] != p;
    }
  }

  /** Where a write stops, if it does: while directories are made, at the file aside, or before one of the last steps. */
  datatype StopPoint =
    | Nowhere
    | MakingDirectories(made: nat)
    | Writing(written: Option<string>)
    | Removing
    | Renaming

  /** What goes wrong in a retry; stopping is a failed call or the end of the process. */
  datatype Faults = Faults(readFails: bool, stop: StopPoint, crash: bool)

  datatype Written = Written(tree: Tree, outcome: Outcome)

  function Stopped(crash: bool): Outcome { if crash then Crashed else Failed }

  predicate FileAbove(t: Tree, marker: Path) {
    exists a :: a in Ancestors(marker) && a in t && t[a] != Dir
  }

  predicate IsDir(t: Tree, p: Path) {
    p in t && t[p] == Dir
  }

  /** Something stands where the marker, the file aside, or a directory above them belongs. */
  predicate Blocked(t: Tree, marker: Path)
    requires |marker| > 0
  {
    FileAbove(t, marker) || IsDir(t, TemporaryPath(marker)) || IsDir(t, marker)
  }

  function Aside(t: Tree, marker: Path, content: Content, stop: StopPoint, crash: bool): Written
    requires |marker| > 0
  {
    if FileAbove(t, marker) then Written(t, Failed)
    else if stop.MakingDirectories? then
      var reached := marker[..if stop.made <= |marker| then stop.made else |marker|];
      Written(WithDirectories(t, Ancestors(reached)), Stopped(crash))
    else
      var made := WithDirectories(t, Ancestors(marker));
      var temporary := TemporaryPath(marker);
      if IsDir(made, temporary) then Written(made, Failed)
      else
        match stop
        case Writing(None) => Written(made, Stopped(crash))
        case Writing(Some(text)) => Written(made[temporary := File(Other(text))], Stopped(crash))
        case _ => Written(made[temporary := File(content)], Done)
  }

  function Scheduled(t: Tree, marker: Path, deleteDownloads: bool, stop: StopPoint, crash: bool): Written
    requires |marker| > 0
  {
    var content := Marker(MARKER_VERSION, deleteDownloads);
    var aside := Aside(t, marker, content, stop, crash);
    if aside.outcome != Done then aside
    else if IsDir(aside.tree, marker) then Written(aside.tree, Failed)
    else if marker in aside.tree && stop == Removing then Written(aside.tree, Stopped(crash))
    else
      var cleared := aside.tree - {marker};
      if stop == Renaming then Written(cleared, Stopped(crash))
      else Written((cleared - {TemporaryPath(marker)})[marker := File(content)], Done)
  }

  function Retried(t: Tree, marker: Path, f: Faults): Written
    requires |marker| > 0
  {
    if f.readFails || ReadMarker(t, marker).None? then Scheduled(t, marker, false, f.stop, f.crash)
    else Written(t, Done)
  }

  lemma ReachedDirectories(t: Tree, marker: Path, k: nat)
    requires MarkerPath(marker) && IsTree(t) && !FileAbove(t, marker) && k <= |marker|
    ensures var r := WithDirectories(t, Ancestors(marker[..k]));
            && IsTree(r) && OnlyMarker(t, r, marker)
            && (marker in r <==> marker in t) && (marker in r ==> r[marker] == t[marker])
            && (TemporaryPath(marker) in r <==> TemporaryPath(marker) in t)
            && (TemporaryPath(marker) in r ==> r[TemporaryPath(marker)] == t[TemporaryPath(marker)])
            && (k == |marker| ==> IsDir(r, marker[..|marker| - 1]))
  {
    var reached := marker[..k];
    forall a | a in Ancestors(reached) ensures a in Ancestors(marker) && |a| < |marker| {
      var j :| 0 <= j < k && a == reached[..j];
      assert a == marker[..j];
    }
    DirectoriesKeepTree(t, reached);
    if k == |marker| {
      assert reached == marker;
      assert marker[..|marker| - 1] in Ancestors(marker);
    }
  }

  lemma WroteAside(t: Tree, made: Tree, marker: Path, content: Content)
    requires MarkerPath(marker) && IsTree(made) && OnlyMarker(t, made, marker)
    requires IsDir(made, marker[..|marker| - 1]) && !IsDir(made, TemporaryPath(marker))
    ensures var r := made[TemporaryPath(marker) := File(content)];
            && IsTree(r) && OnlyMarker(t, r, marker) && IsDir(r, marker[..|marker| - 1])
            && (marker in r <==> marker in made) && (marker in r ==> r[marker] == made[marker])
  {
    hide IsTree, OnlyMarker, TemporaryPath;
    TemporaryBeside(marker);
    FileKeepsTree(made, TemporaryPath(marker), content);
    OnlyMarkerWrites(t, made, marker, File(content));
  }

  lemma AsideFacts(t: Tree, marker: Path, content: Content, stop: StopPoint, crash: bool)
    requires MarkerPath(marker) && IsTree(t)
    ensures var w := Aside(t, marker, content, stop, crash); var temporary := TemporaryPath(marker);
            && IsTree(w.tree) && OnlyMarker(t, w.tree, marker)
            && (marker in w.tree <==> marker in t) && (marker in w.tree ==> w.tree[marker] == t[marker])
            && (w.outcome == Done <==> !FileAbove(t, marker) && !IsDir(t, temporary)
                                       && !stop.MakingDirectories? && !stop.Writing?)
            && (w.outcome == Crashed ==> crash)
            && (w.outcome == Failed ==> !crash || FileAbove(t, marker) || IsDir(t, temporary))
            && (w.outcome == Done ==> IsDir(w.tree, marker[..|marker| - 1])
                                      && temporary in w.tree && w.tree[temporary] == File(content))
  {
    hide IsTree, OnlyMarker, Ancestors, WithDirectories, FileAbove, TemporaryPath;
    OnlyMarkerSame(t, marker);
    TemporaryBeside(marker);
    if !FileAbove(t, marker) {
      if stop.MakingDirectories? {
        ReachedDirectories(t, marker, if stop.made <= |marker| then stop.made else |marker|);
      } else {
        ReachedDirectories(t, marker, |marker|);
        assert marker[..|marker|] == marker;
        var made := WithDirectories(t, Ancestors(marker));
        if !IsDir(made, TemporaryPath(marker)) {
          WroteAside(t, made, marker, if stop.Writing? && stop.written.Some? then Other(stop.written.value) else content);
        }
      }
    }
  }

  lemma TemporaryBeside(marker: Path)
    requires MarkerPath(marker)
    ensures var temporary := TemporaryPath(marker);
            && |temporary| == |marker| && temporary[..|marker| - 1] == marker[..|marker| - 1] && temporary != marker
            && marker[..|marker| - 1] != temporary && marker[..|marker| - 1] != marker
  {
  }

  /** How a write ends and what becomes of the marker, for every tree and every point at which it can stop. */
  lemma ScheduledExactly(t: Tree, marker: Path, d: bool, stop: StopPoint, crash: bool)
    requires MarkerPath(marker) && IsTree(t)
    ensures var w := Scheduled(t, marker, d, stop, crash);
            && IsTree(w.tree) && OnlyMarker(t, w.tree, marker)
            && (w.outcome == Done <==> !Blocked(t, marker) && (stop == Nowhere || (stop == Removing && marker !in t)))
            && (w.outcome == Crashed ==> crash) && (w.outcome == Failed ==> !crash || Blocked(t, marker))
            && (w.outcome == Done ==> marker in w.tree && w.tree[marker] == File(Marker(MARKER_VERSION, d)))
            && (w.outcome != Done && marker in w.tree ==> marker in t && w.tree[marker] == t[marker])
            && (marker in t ==> (marker !in w.tree <==> !Blocked(t, marker) && stop == Renaming))
  {
    hide IsTree, OnlyMarker, Aside, FileAbove, TemporaryPath;
    var content := Marker(MARKER_VERSION, d);
    AsideFacts(t, marker, content, stop, crash);
    TemporaryBeside(marker);
    var aside := Aside(t, marker, content, stop, crash);
    if aside.outcome == Done && !IsDir(aside.tree, marker) {
      FileHasNothingUnder(aside.tree, marker);
      BetweenTree(aside.tree, aside.tree - {marker}, {marker});
      OnlyMarkerWrites(t, aside.tree, marker, File(content));
      var cleared := aside.tree - {marker};
      FileHasNothingUnder(cleared, TemporaryPath(marker));
      BetweenTree(cleared, cleared - {TemporaryPath(marker)}, {TemporaryPath(marker)});
      OnlyMarkerWrites(t, cleared, marker, File(content));
      var moved := cleared - {TemporaryPath(marker)};
      FileKeepsTree(moved, marker, content);
      OnlyMarkerWrites(t, moved, marker, File(content));
    }
  }

  lemma BetweenTree(a: Tree, b: Tree, doomed: set<Path>)
    requires Between(a, b, doomed)
    ensures IsTree(b)
  {
  }

  /** A readable marker has directories above it and is none itself. */
  lemma ReadableIsThere(t: Tree, marker: Path)
    requires IsTree(t) && ReadMarker(t, marker).Some?
    ensures marker in t && t[marker] != Dir && !FileAbove(t, marker)
  {
    if a :| a in Ancestors(marker) && a in t && t[a] != Dir {
      var k :| 0 <= k < |marker| && a == marker[..k];
      AncestorIsDir(t, a, marker);
    }
  }

  /**
   * What a retry does to a readable request. It stays what it was unless reading it fails although it could be
   * read, and the rewriting then goes through (which drops the order to delete downloads) or stops before the
   * rename (which leaves no request at all).
   */
  lemma RequestKept(t: Tree, marker: Path, f: Faults, d: bool)
    requires MarkerPath(marker) && IsTree(t) && ReadMarker(t, marker) == Some(d)
    ensures var now := ReadMarker(Retried(t, marker, f).tree, marker);
            var rewrites := f.readFails && !IsDir(t, TemporaryPath(marker));
            && (now == Some(d) <==> !(rewrites && (f.stop == Renaming || (f.stop == Nowhere && d))))
            && (now == None <==> rewrites && f.stop == Renaming)
            && (now == Some(!d) <==> rewrites && f.stop == Nowhere && d)
  {
    hide IsTree, OnlyMarker, Scheduled, FileAbove, TemporaryPath;
    ReadableIsThere(t, marker);
    if f.readFails {
      ScheduledExactly(t, marker, false, f.stop, f.crash);
    }
  }

  /** A retry without faults changes nothing about a readable request, and makes one out of anything that does not block it. */
  lemma RetryWithoutFaults(t: Tree, marker: Path)
    requires MarkerPath(marker) && IsTree(t)
    ensures var w := Retried(t, marker, Faults(false, Nowhere, false));
            && (ReadMarker(t, marker).Some? ==> w == Written(t, Done))
            && (ReadMarker(t, marker).None? && !Blocked(t, marker) ==>
                  w.outcome == Done && ReadMarker(w.tree, marker) == Some(false))
  {
    hide IsTree, OnlyMarker, Scheduled, FileAbove, TemporaryPath;
    ScheduledExactly(t, marker, false, Nowhere, false);
  }

  /** Whatever goes wrong, a retry never orders downloads to be deleted that were not ordered to be before. */
  lemma NeverUpgraded(t: Tree, marker: Path, f: Faults)
    requires MarkerPath(marker) && IsTree(t)
    ensures ReadMarker(Retried(t, marker, f).tree, marker) == Some(true) ==> ReadMarker(t, marker) == Some(true)
  {
    hide IsTree, OnlyMarker, Scheduled, FileAbove, TemporaryPath;
    ScheduledExactly(t, marker, false, f.stop, f.crash);
  }

  const EXAMPLE_MARKER: Path := ["data", MARKER_NAME]
  const EXAMPLE_TREE: Tree := map[[] := Dir, ["data"] := Dir, EXAMPLE_MARKER := File(Marker(1, true))]

  lemma ExampleIsTree()
    ensures MarkerPath(EXAMPLE_MARKER) && IsTree(EXAMPLE_TREE) && ReadMarker(EXAMPLE_TREE, EXAMPLE_MARKER) == Some(true)
    ensures !IsDir(EXAMPLE_TREE, TemporaryPath(EXAMPLE_MARKER))
  {
    assert ["data"][..0] == [] && EXAMPLE_MARKER[..1] == ["data"];
    assert |TemporaryPath(EXAMPLE_MARKER)| == 2 && EXAMPLE_MARKER != TemporaryPath(EXAMPLE_MARKER);
  }

  /** A request that is lost: reading it fails, and the process ends between removing the marker and the rename. */
  lemma LostBeforeRename()
    ensures ReadMarker(Retried(EXAMPLE_TREE, EXAMPLE_MARKER, Faults(true, Renaming, true)).tree, EXAMPLE_MARKER) == None
  {
    hide Retried;
    ExampleIsTree();
    RequestKept(EXAMPLE_TREE, EXAMPLE_MARKER, Faults(true, Renaming, true), true);
  }

  /** A request that is weakened in a retry that reports success: reading it fails once. */
  lemma WeakenedByFailedRead()
    ensures var w := Retried(EXAMPLE_TREE, EXAMPLE_MARKER, Faults(true, Nowhere, false));
            w.outcome == Done && ReadMarker(w.tree, EXAMPLE_MARKER) == Some(false)
  {
    hide Scheduled, IsTree;
    ExampleIsTree();
    ReadableIsThere(EXAMPLE_TREE, EXAMPLE_MARKER);
    ScheduledExactly(EXAMPLE_TREE, EXAMPLE_MARKER, false, Nowhere, false);
    RequestKept(EXAMPLE_TREE, EXAMPLE_MARKER, Faults(true, Nowhere, false), true);
  }
}
