/**
 * Clearing the device's local data on launch: directories are emptied around protected paths, download
 * leftovers are removed, and a marker file keeps the request alive until an attempt gets through.
 */
module LocalDataReset {
  import opened DownloadLeftovers
  import opened Outcomes
  import opened ResetMarker
  import opened ResetTree

  // ---- Emptying a directory around protected paths ----

  /** What emptying `root` leaves: all outside it, the protected subtrees in it, and the directories leading to those. */
  predicate Survives(p: Path, root: Path, protected: seq<Path>) {
    root < p ==> exists q :: q in protected && root < q && (q <= p || p < q)
  }

  /** The directories that are entered: the root, and those strictly above a protected path, short of any other. */
  predicate Entered(p: Path, root: Path, protected: seq<Path>) {
    && root <= p
    && (p == root || exists q :: q in protected && p < q)
    && !exists q :: q in protected && root < q && q <= p
  }

  /** No file stands where a directory is to be entered. */
  ghost predicate Unobstructed(t: Tree, root: Path, protected: seq<Path>) {
    forall p :: p in t && Entered(p, root, protected) ==> t[p] == Dir
  }

  ghost function Cleared(t: Tree, root: Path, protected: seq<Path>): set<Path> {
    set p | p in t && !Survives(p, root, protected)
  }

  /** What is under a doomed path is doomed, and all of it is under the root. */
  ghost predicate Sinking(t: Tree, root: Path, doomed: set<Path>) {
    && (forall p :: p in doomed ==> root < p)
    && forall p, q :: q in doomed && p in t && q < p ==> p in doomed
  }

  predicate Awaits(p: Path, todo: set<Path>) {
    exists e :: e in todo && e <= p
  }

  /** Midway: all that is not doomed, and all that lies at or under the entries still to come. */
  ghost function Remaining(t: Tree, doomed: set<Path>, todo: set<Path>): Tree {
    map p | p in t && (p !in doomed || Awaits(p, todo)) :: t[p]
  }

  predicate Child(e: Path, root: Path) {
    root < e && |e| == |root| + 1
  }

  /** Below an entry that leads to a protected path, the rules for it are those for the root. */
  lemma EnteringAgrees(p: Path, e: Path, root: Path, protected: seq<Path>, item: Path)
    requires Child(e, root) && e <= p && e !in protected && item in protected && e <= item
    ensures Survives(p, root, protected) == Survives(p, e, protected)
    ensures Entered(p, root, protected) == Entered(p, e, protected)
  {
    Nested(e, item, item);
    forall q | q in protected && root < q && (q <= p || p < q) ensures e < q {
      if p < q {
        Nested(e, q, q);
      } else if |q| <= |e| {
        Nested(q, e, p);
      } else {
        Nested(e, q, p);
      }
    }
  }

  /** At and below an entry that leads to nothing protected, nothing survives and nothing is entered. */
  lemma UnprotectedGoes(p: Path, e: Path, root: Path, protected: seq<Path>)
    requires Child(e, root) && e <= p && !exists item :: item in protected && e <= item
    ensures !Survives(p, root, protected) && !Entered(p, root, protected)
  {
    if q: Path :| q in protected && root < q && q <= p {
      Nested(e, q, p);
    }
  }

  lemma ProtectedStays(p: Path, e: Path, root: Path, protected: seq<Path>)
    requires Child(e, root) && e <= p && e in protected
    ensures Survives(p, root, protected) && !Entered(p, root, protected)
  {
  }

  lemma ClearedSinks(t: Tree, root: Path, protected: seq<Path>)
    ensures Sinking(t, root, Cleared(t, root, protected))
  {
    forall p: Path, q: Path | !Survives(q, root, protected) && q < p ensures !Survives(p, root, protected) {
      if z: Path :| z in protected && root < z && (z <= p || p < z) {
        if z <= p {
          if |z| <= |q| { Nested(z, q, p); } else { Nested(q, z, p); }
        }
      }
    }
  }

  lemma RemainingIsTree(t: Tree, root: Path, doomed: set<Path>, todo: set<Path>)
    requires IsTree(t) && Sinking(t, root, doomed) && forall e :: e in todo ==> Child(e, root)
    ensures Between(t, Remaining(t, doomed, todo), doomed)
  {
    var r := Remaining(t, doomed, todo);
    forall p | p in r && |p| > 0 ensures p[..|p| - 1] in r && r[p[..|p| - 1]] == Dir {
      var parent := p[..|p| - 1];
      if Awaits(p, todo) {
        var e :| e in todo && e <= p;
        if |e| == |p| {
          assert parent == root;
        } else {
          assert e <= parent;
        }
      }
    }
  }

  lemma NothingAwaits(t: Tree, doomed: set<Path>)
    ensures Remaining(t, doomed, {}) == t - doomed
  {
  }

  lemma AllAwait(t: Tree, root: Path, doomed: set<Path>, todo: set<Path>)
    requires IsTree(t) && Sinking(t, root, doomed) && todo == set e | e in t && Child(e, root)
    ensures Remaining(t, doomed, todo) == t
  {
    forall p | p in t && root < p ensures Awaits(p, todo) {
      UnderChild(t, root, todo, p);
    }
  }

  lemma UnderChild(t: Tree, root: Path, todo: set<Path>, p: Path)
    requires IsTree(t) && todo == set e | e in t && Child(e, root)
    requires p in t && root < p
    ensures Awaits(p, todo)
  {
    var e := p[..|root| + 1];
    assert Child(e, root);
    Nested(e, p, p);
    if e < p { AncestorIsDir(t, e, p); }
    assert e in todo;
  }

  lemma NothingInside(t: Tree, root: Path, protected: seq<Path>, doomed: set<Path>)
    requires IsTree(t) && root !in t && Sinking(t, root, doomed)
    ensures t - doomed == t && Between(t, t, doomed) && Unobstructed(t, root, protected)
  {
    forall p | p in t ensures !(root <= p) {
      if root < p { AncestorIsDir(t, root, p); }
      if root <= p { Nested(root, p, p); }
    }
  }

  /** One entry done: whatever lay at or under it and is doomed is gone. */
  lemma EntryDone(t: Tree, root: Path, doomed: set<Path>, todo: set<Path>, e: Path)
    requires e in todo && forall x :: x in todo ==> Child(x, root)
    ensures Remaining(t, doomed, todo - {e})
         == map p | p in Remaining(t, doomed, todo) && !(e <= p && p in doomed) :: t[p]
  {
    forall p | p in t && e <= p ensures !Awaits(p, todo - {e}) {
      if x: Path :| x in todo - {e} && x <= p {
        Nested(e, x, p);
      }
    }
    forall p | p in t && !(e <= p) && Awaits(p, todo) ensures Awaits(p, todo - {e}) {
      var x :| x in todo && x <= p;
      assert x in todo - {e};
    }
  }

  ghost function AtOrUnder(t: Tree, path: Path): set<Path> {
    set p | p in t && path <= p
  }

  /** No file where a directory is to be entered, except perhaps at or under the entries still to come. */
  ghost predicate EntersDirsOnly(t: Tree, root: Path, protected: seq<Path>, todo: set<Path>) {
    forall p :: p in t && Entered(p, root, protected) && t[p] != Dir ==> Awaits(p, todo)
  }

  lemma RootEntered(t: Tree, root: Path, protected: seq<Path>)
    ensures root in t && Unobstructed(t, root, protected) ==> t[root] == Dir
  {
    assert Entered(root, root, protected);
  }

  lemma EnteringBegins(t: Tree, root: Path, protected: seq<Path>, todo: set<Path>)
    requires IsTree(t) && root in t && t[root] == Dir && todo == set e | e in t && Child(e, root)
    ensures EntersDirsOnly(t, root, protected, todo)
  {
    forall p | p in t && root < p ensures Awaits(p, todo) {
      UnderChild(t, root, todo, p);
    }
  }

  lemma EnteringEnds(t: Tree, root: Path, protected: seq<Path>)
    requires EntersDirsOnly(t, root, protected, {})
    ensures Unobstructed(t, root, protected)
  {
  }

  lemma ProtectedEntry(t: Tree, root: Path, protected: seq<Path>, todo: set<Path>, e: Path)
    requires e in todo && forall x :: x in todo ==> Child(x, root)
    requires e in protected && EntersDirsOnly(t, root, protected, todo)
    ensures Remaining(t, Cleared(t, root, protected), todo) == Remaining(t, Cleared(t, root, protected), todo - {e})
    ensures EntersDirsOnly(t, root, protected, todo - {e})
  {
    hide Survives, Entered;
    EntryDone(t, root, Cleared(t, root, protected), todo, e);
    forall p: Path | e <= p ensures Survives(p, root, protected) && !Entered(p, root, protected) {
      ProtectedStays(p, e, root, protected);
    }
    StillAwaiting(todo, e);
  }

  lemma StillAwaiting(todo: set<Path>, e: Path)
    ensures forall p :: Awaits(p, todo) && !(e <= p) ==> Awaits(p, todo - {e})
  {
    forall p | Awaits(p, todo) && !(e <= p) ensures Awaits(p, todo - {e}) {
      var x :| x in todo && x <= p;
      assert x in todo - {e};
    }
  }

  lemma UnprotectedEntry(t: Tree, root: Path, protected: seq<Path>, todo: set<Path>, e: Path)
    requires e in todo && forall x :: x in todo ==> Child(x, root)
    requires EntersDirsOnly(t, root, protected, todo) && !exists item :: item in protected && e <= item
    ensures var mid := Remaining(t, Cleared(t, root, protected), todo);
            && AtOrUnder(mid, e) <= Cleared(t, root, protected)
            && mid - AtOrUnder(mid, e) == Remaining(t, Cleared(t, root, protected), todo - {e})
    ensures EntersDirsOnly(t, root, protected, todo - {e})
  {
    hide Survives, Entered;
    EntryDone(t, root, Cleared(t, root, protected), todo, e);
    forall p: Path | e <= p ensures !Survives(p, root, protected) && !Entered(p, root, protected) {
      UnprotectedGoes(p, e, root, protected);
    }
    StillAwaiting(todo, e);
  }

  lemma LeadingEntry(t: Tree, root: Path, protected: seq<Path>, todo: set<Path>, e: Path, item: Path)
    requires e in todo && forall x :: x in todo ==> Child(x, root)
    requires EntersDirsOnly(t, root, protected, todo)
    requires e !in protected && item in protected && e <= item
    ensures var mid := Remaining(t, Cleared(t, root, protected), todo);
            && Cleared(mid, e, protected) <= Cleared(t, root, protected)
            && mid - Cleared(mid, e, protected) == Remaining(t, Cleared(t, root, protected), todo - {e})
            && (Unobstructed(t, root, protected) ==> Unobstructed(mid, e, protected))
            && (Unobstructed(mid, e, protected) ==> EntersDirsOnly(t, root, protected, todo - {e}))
  {
    hide Survives, Entered;
    var mid := Remaining(t, Cleared(t, root, protected), todo);
    EntryDone(t, root, Cleared(t, root, protected), todo, e);
    forall p: Path | e <= p
      ensures Survives(p, root, protected) == Survives(p, e, protected)
      ensures Entered(p, root, protected) == Entered(p, e, protected)
    {
      EnteringAgrees(p, e, root, protected, item);
    }
    forall p: Path | !(e <= p) ensures Survives(p, e, protected) && !Entered(p, e, protected) {
      Elsewhere(p, e, protected);
    }
    forall p | p in t && e <= p ensures p in mid {
      assert Awaits(p, todo);
    }
    StillAwaiting(todo, e);
  }

  lemma Elsewhere(p: Path, root: Path, protected: seq<Path>)
    requires !(root <= p)
    ensures Survives(p, root, protected) && !Entered(p, root, protected)
  {
  }

  lemma EntryIsThere(t: Tree, doomed: set<Path>, todo: set<Path>, e: Path)
    requires e in todo && e in t
    ensures e in Remaining(t, doomed, todo) && Remaining(t, doomed, todo)[e] == t[e]
  {
    assert Awaits(e, todo);
  }

  /** What lies below an entry is less than what lay below its directory. */
  lemma Shrinks(before: Tree, now: Tree, root: Path, e: Path)
    requires Within(now, before) && e in before && Child(e, root)
    ensures (set p | p in now && e < p) < (set p | p in before && root < p)
  {
    var small := set p | p in now && e < p;
    var large := set p | p in before && root < p;
    assert e in large && e !in small;
  }

  // ---- Leftovers of downloads ----

  lemma LeftoversSink(t: Tree, root: Path)
    ensures Sinking(t, root, Leftovers(t, root))
  {
    forall p: Path, q: Path | Leftover(t, q, root) && q < p ensures Leftover(t, p, root) {
      var z :| z in t && root < z && z <= q && Artifact(z, t[z]);
      assert z <= p;
    }
  }

  lemma LeftoverEntry(t: Tree, root: Path, todo: set<Path>, e: Path)
    requires e in todo && e in t && Artifact(e, t[e]) && forall x :: x in todo ==> Child(x, root)
    ensures var mid := Remaining(t, Leftovers(t, root), todo);
            && AtOrUnder(mid, e) <= Leftovers(t, root)
            && mid - AtOrUnder(mid, e) == Remaining(t, Leftovers(t, root), todo - {e})
  {
    EntryDone(t, root, Leftovers(t, root), todo, e);
    forall p | p in t && e <= p ensures Leftover(t, p, root) {
      assert e in t && root < e;
    }
  }

  lemma DirectoryEntry(t: Tree, root: Path, todo: set<Path>, e: Path)
    requires e in todo && e in t && !Artifact(e, t[e]) && forall x :: x in todo ==> Child(x, root)
    ensures var mid := Remaining(t, Leftovers(t, root), todo);
            && Leftovers(mid, e) <= Leftovers(t, root)
            && mid - Leftovers(mid, e) == Remaining(t, Leftovers(t, root), todo - {e})
  {
    hide Artifact;
    var mid := Remaining(t, Leftovers(t, root), todo);
    EntryDone(t, root, Leftovers(t, root), todo, e);
    forall p | p in t && e <= p ensures p in mid {
      assert Awaits(p, todo);
    }
    forall p | p in mid && Leftover(mid, p, e) ensures e <= p && Leftover(t, p, root) {
      var q :| q in mid && e < q && q <= p && Artifact(q, mid[q]);
      assert root < q;
    }
    forall p | p in mid && e <= p && Leftover(t, p, root) ensures Leftover(mid, p, e) {
      var q :| q in t && root < q && q <= p && Artifact(q, t[q]);
      if |q| <= |e| { Nested(q, e, p); } else { Nested(e, q, p); }
      assert q in mid;
    }
  }

  lemma FileEntry(t: Tree, root: Path, todo: set<Path>, e: Path)
    requires IsTree(t) && forall x :: x in todo ==> Child(x, root)
    requires e in todo && e in t && t[e] != Dir && !Artifact(e, t[e])
    ensures Remaining(t, Leftovers(t, root), todo) == Remaining(t, Leftovers(t, root), todo - {e})
  {
    hide Artifact;
    EntryDone(t, root, Leftovers(t, root), todo, e);
    forall p | p in t && e <= p ensures p !in Leftovers(t, root) {
      Nested(e, p, p);
      if e < p { AncestorIsDir(t, e, p); }
      if q: Path :| q in t && root < q && q <= p && Artifact(q, t[q]) {
        Nested(e, q, p);
      }
    }
  }

  // ---- The reset as a whole ----

  /** Where things are on this device; what could not be resolved is missing. */
  datatype Config = Config(
    marker: Path,
    roots: Option<seq<(string, Path)>>,
    downloads: Option<Path>,
    home: Option<Path>,
    systemDownloads: Option<Path>)

  predicate SafeRoot(c: Config, root: Path) {
    |root| >= 2 && c.home != Some(root) && c.systemDownloads != Some(root)
  }

  predicate SafeDownloads(c: Config) {
    && c.downloads.Some?
    && SafeRoot(c, c.downloads.value)
    && c.downloads.value[|c.downloads.value| - 1] == "downloads"
  }

  /** The request an attempt acts on. */
  function Pending(c: Config, t: Tree): Option<bool> {
    if SafeDownloads(c) then ReadMarker(t, c.marker) else None
  }

  function Protected(c: Config, deleteDownloads: bool): seq<Path>
    requires SafeDownloads(c)
  {
    if deleteDownloads then [c.marker] else [c.marker, c.downloads.value]
  }

  function Roots(c: Config): seq<(string, Path)> {
    if c.roots.Some? then c.roots.value else []
  }

  ghost predicate AllSafe(c: Config, roots: seq<(string, Path)>) {
    forall r :: r in roots ==> SafeRoot(c, r.1)
  }

  ghost function ClearedBy(c: Config, t: Tree, roots: seq<(string, Path)>, protected: seq<Path>): set<Path> {
    set p | p in t && exists r :: r in roots && SafeRoot(c, r.1) && !Survives(p, r.1, protected)
  }

  ghost function DownloadsGone(c: Config, t: Tree, deleteDownloads: bool): set<Path>
    requires SafeDownloads(c)
  {
    if deleteDownloads then Cleared(t, c.downloads.value, [c.marker]) else Leftovers(t, c.downloads.value)
  }

  /** All that a reset removes, but for the marker. */
  ghost function Doomed(c: Config, t: Tree, deleteDownloads: bool): set<Path>
    requires SafeDownloads(c)
  {
    ClearedBy(c, t, Roots(c), Protected(c, deleteDownloads)) + DownloadsGone(c, t, deleteDownloads)
  }

  /** The reset is over: every root was fit to be cleared, and exactly what was doomed has gone, the marker with it. */
  ghost predicate Settled(c: Config, deleteDownloads: bool, before: Tree, after: Tree)
    requires SafeDownloads(c)
  {
    && c.roots.Some?
    && AllSafe(c, Roots(c))
    && after == before - (Doomed(c, before, deleteDownloads) + {c.marker})
  }

  /** What one attempt may do, however it ends. */
  ghost predicate Attempt(c: Config, before: Tree, after: Tree) {
    match Pending(c, before)
    case None => after == before
    case Some(deleteDownloads) =>
      && Between(before, after, Doomed(c, before, deleteDownloads) + {c.marker})
      && (c.marker !in after ==>
            Settled(c, deleteDownloads, before, after) || c.marker in Doomed(c, before, deleteDownloads))
  }

  /** Nothing stands in the way of an attempt but faults. */
  ghost predicate Feasible(c: Config, t: Tree) {
    && Pending(c, t).Some?
    && c.roots.Some?
    && AllSafe(c, Roots(c))
    && var d := Pending(c, t).value;
    && (forall r :: r in Roots(c) ==> Unobstructed(t, r.1, Protected(c, d)))
    && DownloadsOpen(c, t, d)
  }

  ghost predicate DownloadsOpen(c: Config, t: Tree, deleteDownloads: bool)
    requires SafeDownloads(c)
  {
    if deleteDownloads then Unobstructed(t, c.downloads.value, [c.marker])
    else c.downloads.value in t ==> t[c.downloads.value] == Dir
  }

  lemma ClearedWithin(t: Tree, mid: Tree, root: Path, protected: seq<Path>)
    requires Within(mid, t)
    ensures Cleared(mid, root, protected) == Cleared(t, root, protected) * mid.Keys
    ensures Unobstructed(t, root, protected) ==> Unobstructed(mid, root, protected)
  {
    hide Survives, Entered;
  }

  lemma LeftoversWithin(t: Tree, mid: Tree, root: Path)
    requires Within(mid, t) && IsTree(mid)
    ensures Leftovers(mid, root) == Leftovers(t, root) * mid.Keys
  {
    hide Artifact;
    forall p | p in mid && Leftover(t, p, root) ensures Leftover(mid, p, root) {
      var q :| q in t && root < q && q <= p && Artifact(q, t[q]);
      Nested(q, p, p);
      if q < p { AncestorIsDir(mid, q, p); }
    }
  }

  lemma ClearedByMore(c: Config, t: Tree, roots: seq<(string, Path)>, i: nat, protected: seq<Path>)
    requires i < |roots|
    ensures ClearedBy(c, t, roots[..i + 1], protected)
         == ClearedBy(c, t, roots[..i], protected)
          + (if SafeRoot(c, roots[i].1) then Cleared(t, roots[i].1, protected) else {})
    ensures AllSafe(c, roots[..i]) && SafeRoot(c, roots[i].1) ==> AllSafe(c, roots[..i + 1])
  {
    hide Survives, SafeRoot;
    assert roots[..i + 1] == roots[..i] + [roots[i]];
    forall r ensures r in roots[..i + 1] <==> r in roots[..i] || r == roots[i] {
    }
  }

  lemma DownloadsGoneWithin(c: Config, t: Tree, mid: Tree, d: bool)
    requires SafeDownloads(c) && Within(mid, t) && IsTree(mid)
    ensures DownloadsGone(c, mid, d) == DownloadsGone(c, t, d) * mid.Keys
    ensures DownloadsOpen(c, t, d) ==> DownloadsOpen(c, mid, d)
  {
    hide Cleared, Leftovers, Unobstructed, Survives;
    if d {
      ClearedWithin(t, mid, c.downloads.value, [c.marker]);
    } else {
      LeftoversWithin(t, mid, c.downloads.value);
    }
  }

  lemma NothingClearedYet(c: Config, t: Tree, roots: seq<(string, Path)>, protected: seq<Path>)
    requires IsTree(t)
    ensures ClearedBy(c, t, roots[..0], protected) == {}
    ensures Between(t, t, {}) && t - {} == t
  {
  }

  lemma ClearedByPrefix(c: Config, t: Tree, roots: seq<(string, Path)>, i: nat, protected: seq<Path>)
    requires i <= |roots|
    ensures ClearedBy(c, t, roots[..i], protected) <= ClearedBy(c, t, roots, protected)
  {
    hide Survives, SafeRoot;
    forall r | r in roots[..i] ensures r in roots {
    }
  }

  lemma AttemptIdle(c: Config, t: Tree)
    requires IsTree(t)
    ensures Attempt(c, t, t)
  {
    hide ClearedBy, DownloadsGone;
  }

  lemma DoomedParts(c: Config, before: Tree, d: bool, mid: Tree)
    requires SafeDownloads(c) && IsTree(before)
    requires Between(before, mid, ClearedBy(c, before, Roots(c), Protected(c, d)))
    ensures Between(before, mid, Doomed(c, before, d)) && IsTree(mid)
    ensures DownloadsGone(c, mid, d) <= Doomed(c, before, d)
    ensures DownloadsOpen(c, before, d) ==> DownloadsOpen(c, mid, d)
  {
    hide ClearedBy, DownloadsGone, DownloadsOpen;
    DownloadsGoneWithin(c, before, mid, d);
  }

  lemma AttemptStopped(c: Config, before: Tree, after: Tree, d: bool)
    requires Pending(c, before) == Some(d) && Between(before, after, Doomed(c, before, d))
    ensures Attempt(c, before, after) && IsTree(after)
  {
    hide Doomed;
    BetweenMore(before, after, Doomed(c, before, d), Doomed(c, before, d) + {c.marker});
  }

  lemma DownloadsResolved(c: Config)
    requires SafeDownloads(c)
    ensures c.downloads.Some?
  {
  }

  lemma StillNoLeftovers(t: Tree, marker: Path, root: Path)
    ensures NoLeftovers(t, root) ==> NoLeftovers(t - {marker}, root)
  {
    hide NoLeftovers;
    if NoLeftovers(t, root) { NoLeftoversWithin(t, t - {marker}, root); }
  }

  lemma StillTheMarker(before: Tree, after: Tree, doomed: set<Path>, marker: Path)
    requires Between(before, after, doomed) && marker in before && before[marker] != Dir
    ensures marker in after ==> after[marker] != Dir
  {
  }

  lemma AttemptFinished(c: Config, before: Tree, mid: Tree, after: Tree, d: bool)
    requires Pending(c, before) == Some(d) && c.roots.Some? && AllSafe(c, Roots(c))
    requires IsTree(before) && IsTree(mid) && IsTree(after)
    requires mid == before - ClearedBy(c, before, Roots(c), Protected(c, d))
    requires after == mid - DownloadsGone(c, mid, d)
    ensures Attempt(c, before, after - {c.marker}) && IsTree(after - {c.marker})
  {
    hide ClearedBy, DownloadsGone, AllSafe, Roots, Protected, IsTree;
    DownloadsGoneWithin(c, before, mid, d);
    var doomed := Doomed(c, before, d);
    var final := after - {c.marker};
    FileHasNothingUnder(after, c.marker);
    assert final == before - (doomed + {c.marker});
    assert IsTree(final);
  }

  // ---- Runs of attempts ----

  ghost predicate Attempts(c: Config, states: seq<Tree>) {
    && |states| > 0
    && IsTree(states[0])
    && forall i :: 0 <= i < |states| - 1 ==> Attempt(c, states[i], states[i + 1])
  }

  /** The marker does not lie in what would be taken for a leftover. */
  predicate MarkerApart(c: Config)
    requires SafeDownloads(c)
  {
    c.downloads.value < c.marker ==>
      forall k :: |c.downloads.value| <= k < |c.marker| ==> !(ARTIFACT_PREFIX <= c.marker[k])
  }

  lemma MarkerNoLeftover(c: Config, t: Tree)
    requires SafeDownloads(c) && MarkerApart(c)
    ensures !Leftover(t, c.marker, c.downloads.value)
  {
    var root := c.downloads.value;
    if q: Path :| q in t && root < q && q <= c.marker && Artifact(q, t[q]) {
      Nested(root, q, c.marker);
      LastComponent(q, c.marker);
    }
  }

  lemma MarkerNotDoomed(c: Config, t: Tree, d: bool)
    requires IsTree(t) && Pending(c, t) == Some(d) && MarkerApart(c)
    ensures c.marker !in Doomed(c, t, d)
  {
    hide Survives, SafeRoot, Artifact, IsTree;
    MarkerNoLeftover(c, t);
    forall r: Path ensures Survives(c.marker, r, Protected(c, d)) && Survives(c.marker, r, [c.marker]) {
      ItemSurvives(c.marker, r, Protected(c, d), 0);
      ItemSurvives(c.marker, r, [c.marker], 0);
    }
  }

  lemma DoomedWithin(c: Config, t: Tree, mid: Tree, d: bool)
    requires SafeDownloads(c) && Within(mid, t) && IsTree(mid)
    ensures Doomed(c, mid, d) == Doomed(c, t, d) * mid.Keys
  {
    hide DownloadsGone, DownloadsOpen, Survives, SafeRoot, SafeDownloads;
    DownloadsGoneWithin(c, t, mid, d);
  }

  lemma AttemptAgain(c: Config, first: Tree, mid: Tree, last: Tree, d: bool)
    requires Pending(c, first) == Some(d) && IsTree(mid) && MarkerApart(c) && Attempt(c, mid, last)
    requires Between(first, mid, Doomed(c, first, d) + {c.marker})
    requires c.marker in mid || Settled(c, d, first, mid)
    ensures Between(first, last, Doomed(c, first, d) + {c.marker})
    ensures c.marker in last || Settled(c, d, first, last)
  {
    hide Doomed, AllSafe, Roots, MarkerApart, IsTree;
    if c.marker in mid {
      assert Pending(c, mid) == Some(d);
      DoomedWithin(c, first, mid, d);
      MarkerNotDoomed(c, mid, d);
      BetweenTwice(first, mid, last, Doomed(c, first, d) + {c.marker}, Doomed(c, mid, d) + {c.marker});
      if c.marker !in last {
        assert last == first - (Doomed(c, first, d) + {c.marker});
      }
    }
  }

  /**
   * However many attempts fail or crash, with nothing else at work: nothing but what is doomed goes, the request
   * stays until it is carried out, and then the tree is what one undisturbed reset of the first state leaves.
   */
  lemma {:induction false} AttemptsSettle(c: Config, states: seq<Tree>, d: bool)
    requires Attempts(c, states) && Pending(c, states[0]) == Some(d) && MarkerApart(c)
    ensures var last := states[|states| - 1];
            && Between(states[0], last, Doomed(c, states[0], d) + {c.marker})
            && (c.marker in last || Settled(c, d, states[0], last))
    decreases |states|
  {
    hide Doomed, Settled, Attempt, MarkerApart;
    if |states| == 1 {
      BetweenSame(states[0], Doomed(c, states[0], d) + {c.marker});
      PendingMarker(c, states[0]);
    } else {
      var shorter := states[..|states| - 1];
      AttemptsSettle(c, shorter, d);
      AttemptAgain(c, states[0], shorter[|shorter| - 1], states[|states| - 1], d);
    }
  }

  lemma PendingMarker(c: Config, t: Tree)
    ensures Pending(c, t).Some? ==> c.marker in t
  {
  }

  /**
   * What happens over the life of a request: attempts, retries by the user, and other programs, which create
   * what they like and change or remove what they touch, but leave the marker alone.
   */
  datatype Event = Launch | Retry(f: Faults) | Elsewhere(touched: set<Path>)

  ghost predicate Follows(c: Config, before: Tree, e: Event, after: Tree)
    requires |c.marker| > 0
  {
    match e
    case Launch => Attempt(c, before, after)
    case Retry(f) => after == Retried(before, c.marker, f).tree
    case Elsewhere(touched) =>
      && IsTree(after)
      && c.marker !in touched && (c.marker in after ==> c.marker in before)
      && forall p :: p in before && p !in touched ==> p in after && after[p] == before[p]
  }

  ghost predicate Run(c: Config, states: seq<Tree>, events: seq<Event>)
    requires |c.marker| > 0
  {
    && |states| == |events| + 1
    && IsTree(states[0])
    && forall i :: 0 <= i < |events| ==> Follows(c, states[i], events[i], states[i + 1])
  }

  predicate Touches(events: seq<Event>, p: Path) {
    exists i :: 0 <= i < |events| && events[i].Elsewhere? && p in events[i].touched
  }

  lemma LeftoverMoves(t: Tree, u: Tree, p: Path, root: Path)
    requires IsTree(t) && IsTree(u) && p in t && p in u && t[p] == u[p] && Leftover(t, p, root)
    ensures Leftover(u, p, root)
  {
    hide Artifact;
    var q :| q in t && root < q && q <= p && Artifact(q, t[q]);
    Nested(q, p, p);
    if q < p {
      AncestorIsDir(t, q, p);
      AncestorIsDir(u, q, p);
    }
  }

  /** Whether an entry is doomed does not depend on what else is there. */
  lemma DoomedAlike(c: Config, t: Tree, u: Tree, d: bool, p: Path)
    requires SafeDownloads(c) && IsTree(t) && IsTree(u) && p in t && p in u && t[p] == u[p]
    ensures p in Doomed(c, t, d) <==> p in Doomed(c, u, d)
  {
    hide IsTree, Survives, SafeRoot, Leftover, Protected;
    if Leftover(t, p, c.downloads.value) { LeftoverMoves(t, u, p, c.downloads.value); }
    if Leftover(u, p, c.downloads.value) { LeftoverMoves(u, t, p, c.downloads.value); }
  }

  lemma LessProtected(p: Path, root: Path, marker: Path, downloads: Path)
    requires Survives(p, root, [marker])
    ensures Survives(p, root, [marker, downloads])
  {
    if root < p {
      var q :| q in [marker] && root < q && (q <= p || p < q);
      assert q == marker == [marker, downloads][0];
      assert q in [marker, downloads];
    }
  }

  /** Keeping the downloads dooms nothing that deleting them would not. */
  lemma KeepingDoomsLess(c: Config, t: Tree, p: Path)
    requires IsTree(t) && Pending(c, t).Some? && MarkerApart(c) && p in Doomed(c, t, false)
    ensures p in Doomed(c, t, true)
  {
    hide SafeRoot, MarkerApart, IsTree, Artifact;
    var downloads := c.downloads.value;
    if p in DownloadsGone(c, t, false) {
      LeftoverInside(c, t, p);
      assert p in DownloadsGone(c, t, true);
    } else {
      var r :| r in Roots(c) && SafeRoot(c, r.1) && !Survives(p, r.1, Protected(c, false));
      if Survives(p, r.1, [c.marker]) { LessProtected(p, r.1, c.marker, downloads); }
      assert !Survives(p, r.1, Protected(c, true));
    }
  }

  lemma LeftoverInside(c: Config, t: Tree, p: Path)
    requires IsTree(t) && Pending(c, t).Some? && MarkerApart(c) && Leftover(t, p, c.downloads.value)
    ensures !Survives(p, c.downloads.value, [c.marker])
  {
    hide SafeRoot, MarkerApart, IsTree, Artifact;
    var q :| q in t && c.downloads.value < q && q <= p && Artifact(q, t[q]);
    MarkerNoLeftover(c, t);
    if c.marker <= p {
      if |q| <= |c.marker| {
        Nested(q, c.marker, p);
      } else {
        Nested(c.marker, q, p);
        AncestorIsDir(t, c.marker, q);
      }
    }
  }

  /** One event leaves an entry alone that is not doomed, is no part of the marker's writing, and is not touched. */
  lemma EventKeeps(c: Config, before: Tree, e: Event, after: Tree, d: bool, p: Path)
    requires SafeDownloads(c) && MarkerPath(c.marker) && MarkerApart(c)
    requires IsTree(before) && Follows(c, before, e, after)
    requires ReadMarker(before, c.marker) == Some(true) ==> d
    ensures IsTree(after) && (ReadMarker(after, c.marker) == Some(true) ==> d)
    requires p in before && p !in Doomed(c, before, d) && p != c.marker && p != TemporaryPath(c.marker)
    requires e.Elsewhere? ==> p !in e.touched
    ensures p in after && after[p] == before[p]
  {
    hide Doomed, MarkerApart, Retried, TemporaryPath, SafeDownloads, Settled;
    match e
    case Launch =>
      if Pending(c, before) == Some(false) && p in Doomed(c, before, false) { KeepingDoomsLess(c, before, p); }
    case Retry(f) =>
      RetryKeeps(c, before, f);
    case Elsewhere(_) =>
  }

  lemma RetryKeeps(c: Config, t: Tree, f: Faults)
    requires MarkerPath(c.marker) && IsTree(t)
    ensures var w := Retried(t, c.marker, f);
            && IsTree(w.tree) && OnlyMarker(t, w.tree, c.marker)
            && (ReadMarker(w.tree, c.marker) == Some(true) ==> ReadMarker(t, c.marker) == Some(true))
  {
    hide IsTree, OnlyMarker, Scheduled;
    OnlyMarkerSame(t, c.marker);
    NeverUpgraded(t, c.marker, f);
    ScheduledExactly(t, c.marker, false, f.stop, f.crash);
  }

  /**
   * However launches and retries fail or crash, and whatever other programs do in between: an entry that the
   * request does not doom and nobody else touches is there at the end as it was at the beginning.
   */
  lemma {:induction false} RunKeeps(c: Config, states: seq<Tree>, events: seq<Event>, d: bool, p: Path)
    requires MarkerPath(c.marker) && Run(c, states, events) && Pending(c, states[0]) == Some(d) && MarkerApart(c)
    requires p != c.marker && p != TemporaryPath(c.marker) && !Touches(events, p)
    requires p in states[0] && p !in Doomed(c, states[0], d)
    ensures var last := states[|events|];
            && p in last && last[p] == states[0][p]
            && IsTree(last) && (ReadMarker(last, c.marker) == Some(true) ==> d)
    decreases |events|
  {
    hide Doomed, Follows, MarkerApart, TemporaryPath, IsTree;
    if events != [] {
      var n := |events| - 1;
      RunKeeps(c, states[..n + 1], events[..n], d, p);
      DoomedAlike(c, states[0], states[n], d, p);
      EventKeeps(c, states[n], events[n], states[n + 1], d, p);
    }
  }

  /** The request is carried out at event `i`: exactly what it dooms is gone, and the marker with it. */
  ghost predicate Settles(c: Config, states: seq<Tree>, events: seq<Event>, d: bool, i: nat)
    requires SafeDownloads(c) && |c.marker| > 0
  {
    i < |events| && events[i].Launch? && i + 1 < |states| && Settled(c, d, states[i], states[i + 1])
  }

  /** A retry that fails to read the marker, although it is there. */
  predicate Misreads(events: seq<Event>, i: nat) {
    i < |events| && events[i].Retry? && events[i].f.readFails
  }

  lemma RequestStep(c: Config, before: Tree, e: Event, after: Tree, d: bool)
    requires MarkerPath(c.marker) && IsTree(before) && Pending(c, before) == Some(d) && MarkerApart(c)
    requires Follows(c, before, e, after) && !(e.Retry? && e.f.readFails)
    ensures IsTree(after)
    ensures Pending(c, after) == Some(d) || (e.Launch? && Settled(c, d, before, after))
  {
    hide Doomed, MarkerApart, SafeDownloads, Settled;
    if e.Launch? {
      MarkerNotDoomed(c, before, d);
      assert c.marker in before;
    }
  }

  /**
   * The request stays, word for word, until a launch has carried it out; otherwise only a retry that fails to
   * read it can have changed it, and `RequestKept` says exactly how.
   */
  lemma {:induction false} RequestStays(c: Config, states: seq<Tree>, events: seq<Event>, d: bool)
    requires MarkerPath(c.marker) && Run(c, states, events) && Pending(c, states[0]) == Some(d) && MarkerApart(c)
    ensures (IsTree(states[|events|]) && Pending(c, states[|events|]) == Some(d))
            || (exists i :: Settles(c, states, events, d, i)) || exists i :: Misreads(events, i)
    decreases |events|
  {
    hide Follows, MarkerApart, IsTree, Settled, SafeDownloads;
    if events != [] {
      var n := |events| - 1;
      var front, shorter := events[..n], states[..n + 1];
      RequestStays(c, shorter, front, d);
      if i :| Settles(c, shorter, front, d, i) {
        assert Settles(c, states, events, d, i);
      } else if i :| Misreads(front, i) {
        assert Misreads(events, i);
      } else if !Misreads(events, n) {
        RequestStep(c, states[n], events[n], states[n + 1], d);
        if Pending(c, states[n + 1]) != Some(d) { assert Settles(c, states, events, d, n); }
      }
    }
  }

  /** No cleanup root is the download directory or lies in it. */
  ghost predicate RootsApart(c: Config)
    requires SafeDownloads(c)
  {
    forall r :: r in Roots(c) ==> !(c.downloads.value <= r.1)
  }

  /** With downloads to be kept, what was in their directory, is no leftover and is not touched stays over any run. */
  lemma RunKeepsDownloads(c: Config, states: seq<Tree>, events: seq<Event>, p: Path)
    requires MarkerPath(c.marker) && Run(c, states, events) && Pending(c, states[0]) == Some(false)
    requires MarkerApart(c) && RootsApart(c)
    requires p in states[0] && c.downloads.value <= p && !Leftover(states[0], p, c.downloads.value)
    requires p != c.marker && p != TemporaryPath(c.marker) && !Touches(events, p)
    ensures p in states[|events|] && states[|events|][p] == states[0][p]
  {
    hide Survives, Leftover, MarkerApart, IsTree, Follows, TemporaryPath;
    forall r | r in Roots(c) ensures Survives(p, r.1, Protected(c, false)) {
      DownloadsSurvive(c.marker, c.downloads.value, r.1, p);
    }
    RunKeeps(c, states, events, false, p);
  }

  lemma DownloadsSurvive(marker: Path, downloads: Path, root: Path, p: Path)
    requires !(downloads <= root) && downloads <= p
    ensures Survives(p, root, [marker, downloads])
  {
    if root < p {
      if |root| <= |downloads| { Nested(root, downloads, p); } else { Nested(downloads, root, p); }
      ItemSurvives(p, root, [marker, downloads], 1);
    }
  }

  lemma ItemSurvives(p: Path, root: Path, protected: seq<Path>, i: nat)
    requires i < |protected| && protected[i] <= p
    ensures root < protected[i] || root == p ==> Survives(p, root, protected)
    ensures protected[i] == p ==> Survives(p, root, protected)
  {
    var q := protected[i];
    assert q in protected && q <= p;
  }

  /** Protecting the download directory protects what is in it exactly from the roots that are not inside it. */
  lemma ProtectionNeedsRootOutside(marker: Path, downloads: Path, root: Path)
    ensures !(downloads <= root) <==> forall p :: downloads < p ==> Survives(p, root, [marker, downloads])
  {
    if downloads <= root {
      var name := if |root| < |marker| then marker[|root|] + "x" else "x";
      var p := root + [name];
      assert downloads <= p && p[|root|] == name;
      forall q | q in [marker, downloads] && root < q ensures !(q <= p) && !(p < q) {
        if q == marker {
          assert q[|root|] != name;
        }
      }
      assert !Survives(p, root, [marker, downloads]);
    } else {
      forall p | downloads < p ensures Survives(p, root, [marker, downloads]) {
        DownloadsSurvive(marker, downloads, root, p);
      }
    }
  }

  class FileSystem {
    var nodes: Tree

    /** Removal of a file or a whole directory; a directory may be left half removed when it does not end well. */
    method RemoveEntry(path: Path, faults: bool) returns (outcome: Outcome)
      requires IsTree(nodes)
      modifies this
      ensures Between(old(nodes), nodes, AtOrUnder(old(nodes), path))
      ensures outcome == Done ==> nodes == old(nodes) - AtOrUnder(old(nodes), path)
      ensures !faults ==> outcome == Done
    {
      hide IsTree, Within, Between;
      var removed: set<Path> := *;
      outcome := *;
      if !faults {
        outcome := Done;
      }
      var subtree := set p | p in nodes && path <= p;
      removed := if outcome == Done then subtree
                 else set p | p in removed && p in subtree && forall q :: q in subtree && p < q ==> q in removed;
      RemovalKeepsTree(nodes, removed, AtOrUnder(nodes, path));
      nodes := nodes - removed;
    }

    method Clear(root: Path, protected: seq<Path>, faults: bool) returns (outcome: Outcome)
      requires IsTree(nodes)
      modifies this
      ensures Between(old(nodes), nodes, Cleared(old(nodes), root, protected))
      ensures outcome == Done ==> nodes == old(nodes) - Cleared(old(nodes), root, protected)
      ensures outcome == Done ==> Unobstructed(old(nodes), root, protected)
      ensures !faults && Unobstructed(old(nodes), root, protected) ==> outcome == Done
      decreases set p | p in nodes && root < p
    {
      hide IsTree, Within, Between, Remaining, Cleared, Sinking, Entered, EntersDirsOnly, Unobstructed;
      ghost var before := nodes;
      ghost var doomed := Cleared(before, root, protected);
      outcome := Done;
      ClearedSinks(before, root, protected);
      if root !in nodes {
        NothingInside(before, root, protected, doomed);
        return Done;
      }
      var readable: bool := *;
      if nodes[root] != Dir || (faults && !readable) {
        BetweenSame(before, doomed);
        RootEntered(before, root, protected);
        return Failed;
      }
      var todo := set e | e in nodes && Child(e, root);
      AllAwait(before, root, doomed, todo);
      EnteringBegins(before, root, protected, todo);
      while todo != {}
        invariant outcome == Done
        invariant forall e :: e in todo ==> Child(e, root)
        invariant nodes == Remaining(before, doomed, todo)
        invariant EntersDirsOnly(before, root, protected, todo)
      {
        RemainingIsTree(before, root, doomed, todo);
        ghost var midway := nodes;
        readable := *;
        if faults && !readable {
          return Failed;
        }
        var e :| e in todo;
        ghost var going: set<Path> := {};
        if e in protected {
          ProtectedEntry(before, root, protected, todo, e);
          BetweenSame(midway, going);
          outcome := Done;
        } else if item :| item in protected && e <= item {
          LeadingEntry(before, root, protected, todo, e, item);
          going := Cleared(midway, e, protected);
          Shrinks(before, nodes, root, e);
          outcome := Clear(e, protected, faults);
        } else {
          UnprotectedEntry(before, root, protected, todo, e);
          going := AtOrUnder(midway, e);
          outcome := RemoveEntry(e, faults);
        }
        if outcome != Done {
          BetweenTwice(before, midway, nodes, doomed, going);
          return;
        }
        todo := todo - {e};
      }
      NothingAwaits(before, doomed);
      RemainingIsTree(before, root, doomed, {});
      EnteringEnds(before, root, protected);
    }

    method RemoveDownloadArtifacts(root: Path, faults: bool) returns (outcome: Outcome)
      requires IsTree(nodes)
      modifies this
      ensures Between(old(nodes), nodes, Leftovers(old(nodes), root))
      ensures outcome == Done ==> nodes == old(nodes) - Leftovers(old(nodes), root) && NoLeftovers(nodes, root)
      ensures outcome == Done ==> root in old(nodes) ==> old(nodes)[root] == Dir
      ensures !faults && (root in old(nodes) ==> old(nodes)[root] == Dir) ==> outcome == Done
      decreases set p | p in nodes && root < p
    {
      hide IsTree, Within, Between, Remaining, Leftovers, Sinking, Artifact, NoLeftovers;
      ghost var before := nodes;
      ghost var doomed := Leftovers(before, root);
      outcome := Done;
      LeftoversSink(before, root);
      if root !in nodes {
        NothingInside(before, root, [], doomed);
        RemovedByName(before, root);
        return Done;
      }
      var readable: bool := *;
      if nodes[root] != Dir || (faults && !readable) {
        BetweenSame(before, doomed);
        return Failed;
      }
      var todo := set e | e in nodes && Child(e, root);
      AllAwait(before, root, doomed, todo);
      while todo != {}
        invariant outcome == Done
        invariant forall e :: e in todo ==> Child(e, root) && e in before
        invariant nodes == Remaining(before, doomed, todo)
      {
        RemainingIsTree(before, root, doomed, todo);
        ghost var midway := nodes;
        readable := *;
        if faults && !readable {
          return Failed;
        }
        var e :| e in todo;
        EntryIsThere(before, doomed, todo, e);
        ghost var going: set<Path> := {};
        if Artifact(e, nodes[e]) {
          LeftoverEntry(before, root, todo, e);
          going := AtOrUnder(midway, e);
          outcome := RemoveEntry(e, faults);
        } else if nodes[e] == Dir {
          DirectoryEntry(before, root, todo, e);
          going := Leftovers(midway, e);
          Shrinks(before, nodes, root, e);
          outcome := RemoveDownloadArtifacts(e, faults);
        } else {
          FileEntry(before, root, todo, e);
          BetweenSame(midway, going);
          outcome := Done;
        }
        if outcome != Done {
          BetweenTwice(before, midway, nodes, doomed, going);
          return;
        }
        todo := todo - {e};
      }
      NothingAwaits(before, doomed);
      RemainingIsTree(before, root, doomed, {});
      RemovedByName(before, root);
    }

    method ClearRoots(c: Config, roots: seq<(string, Path)>, protected: seq<Path>, faults: bool)
      returns (crashed: bool, failures: seq<string>)
      requires IsTree(nodes)
      modifies this
      ensures Between(old(nodes), nodes, ClearedBy(c, old(nodes), roots, protected))
      ensures !crashed && failures == [] ==>
                AllSafe(c, roots) && nodes == old(nodes) - ClearedBy(c, old(nodes), roots, protected)
      ensures !faults && AllSafe(c, roots) && (forall r :: r in roots ==> Unobstructed(old(nodes), r.1, protected)) ==>
                !crashed && failures == []
    {
      hide IsTree, Cleared, ClearedBy, Unobstructed, SafeRoot;
      ghost var before := nodes;
      crashed, failures := false, [];
      NothingClearedYet(c, before, roots, protected);
      var i := 0;
      while i < |roots|
        invariant 0 <= i <= |roots|
        invariant Between(before, nodes, ClearedBy(c, before, roots[..i], protected))
        invariant !crashed
        invariant failures == [] ==>
                    AllSafe(c, roots[..i]) && nodes == before - ClearedBy(c, before, roots[..i], protected)
        invariant !faults && AllSafe(c, roots) && (forall r :: r in roots ==> Unobstructed(before, r.1, protected)) ==>
                    failures == []
      {
        var target, root := roots[i].0, roots[i].1;
        ghost var mid := nodes;
        ClearedByMore(c, before, roots, i, protected);
        ClearedWithin(before, mid, root, protected);
        if !SafeRoot(c, root) {
          failures := failures + [target];
        } else {
          var outcome := Clear(root, protected, faults);
          if outcome == Crashed {
            crashed := true;
            ClearedByPrefix(c, before, roots, i + 1, protected);
            return;
          }
          if outcome == Failed {
            failures := failures + [target];
          }
        }
        i := i + 1;
      }
      assert roots[..|roots|] == roots;
    }

    method ClearDownloads(c: Config, deleteDownloads: bool, faults: bool) returns (outcome: Outcome)
      requires IsTree(nodes) && SafeDownloads(c)
      modifies this
      ensures Between(old(nodes), nodes, DownloadsGone(c, old(nodes), deleteDownloads))
      ensures outcome == Done ==> nodes == old(nodes) - DownloadsGone(c, old(nodes), deleteDownloads)
      ensures outcome == Done && !deleteDownloads ==> NoLeftovers(nodes, c.downloads.value)
      ensures !faults && DownloadsOpen(c, old(nodes), deleteDownloads) ==> outcome == Done
    {
      if deleteDownloads {
        outcome := Clear(c.downloads.value, [c.marker], faults);
      } else {
        outcome := RemoveDownloadArtifacts(c.downloads.value, faults);
      }
    }

    method RemoveMarker(marker: Path, faults: bool) returns (outcome: Outcome)
      requires IsTree(nodes) && (marker in nodes ==> nodes[marker] != Dir)
      modifies this
      ensures Between(old(nodes), nodes, {marker})
      ensures nodes == if outcome == Done then old(nodes) - {marker} else old(nodes)
      ensures !faults ==> outcome == Done
    {
      FileHasNothingUnder(nodes, marker);
      outcome := *;
      if !faults {
        outcome := Done;
      }
      if outcome == Done {
        nodes := nodes - {marker};
      }
    }

    method CompletePendingReset(c: Config, faults: bool) returns (outcome: Outcome, failures: seq<string>)
      requires IsTree(nodes)
      modifies this
      ensures IsTree(nodes) && Attempt(c, old(nodes), nodes)
      ensures outcome == Done ==> c.marker !in nodes && failures == []
      ensures outcome == Done && Pending(c, old(nodes)) == Some(false) ==> NoLeftovers(nodes, c.downloads.value)
      ensures outcome == Failed ==> failures != []
      ensures !faults && Feasible(c, old(nodes)) ==> outcome == Done
      ensures !faults && c.marker in old(nodes) && Pending(c, old(nodes)).None? ==>
                outcome == Failed && failures == [if ReadMarker(old(nodes), c.marker).None? then "reset-marker" else "downloads"]
    {
      hide IsTree, Within, Between, SafeRoot, SafeDownloads, Unobstructed, Survives, Doomed, ClearedBy, DownloadsGone;
      hide DownloadsOpen, Protected, Attempt, NoLeftovers;
      ghost var before := nodes;
      failures := [];
      AttemptIdle(c, before);
      if c.marker !in nodes {
        return Done, [];
      }
      var readable: bool := *;
      var request := ReadMarker(nodes, c.marker);
      if request.None? || (faults && !readable) {
        return Failed, ["reset-marker"];
      }
      if !SafeDownloads(c) {
        return Failed, ["downloads"];
      }
      var d := request.value;
      var crashed := false;
      if c.roots.Some? {
        crashed, failures := ClearRoots(c, c.roots.value, Protected(c, d), faults);
      } else {
        BetweenSame(nodes, ClearedBy(c, before, Roots(c), Protected(c, d)));
        failures := ["application-storage"];
      }
      ghost var mid := nodes;
      DoomedParts(c, before, d, mid);
      if crashed {
        AttemptStopped(c, before, nodes, d);
        return Crashed, failures;
      }
      outcome := ClearDownloads(c, d, faults);
      BetweenTwice(before, mid, nodes, Doomed(c, before, d), DownloadsGone(c, mid, d));
      AttemptStopped(c, before, nodes, d);
      if outcome == Crashed {
        return Crashed, failures;
      }
      if outcome == Failed {
        failures := failures + [if d then "downloads" else "download-resume-data"];
      }
      if failures == [] {
        StillTheMarker(before, nodes, Doomed(c, before, d), c.marker);
        AttemptFinished(c, before, mid, nodes, d);
        DownloadsResolved(c);
        StillNoLeftovers(nodes, c.marker, c.downloads.value);
        outcome := RemoveMarker(c.marker, faults);
        if outcome == Failed {
          failures := ["reset-marker"];
        }
      } else {
        outcome := Failed;
      }
    }

    /** The request is written to a file beside the marker, in a directory made if need be. */
    method WriteAside(marker: Path, content: Content, stop: StopPoint, crash: bool) returns (outcome: Outcome)
      requires MarkerPath(marker)
      modifies this
      ensures Written(nodes, outcome) == Aside(old(nodes), marker, content, stop, crash)
    {
      hide Ancestors, WithDirectories;
      if a :| a in Ancestors(marker) && a in nodes && nodes[a] != Dir {
        return Failed;
      }
      if stop.MakingDirectories? {
        var reached := marker[..if stop.made <= |marker| then stop.made else |marker|];
        nodes := WithDirectories(nodes, Ancestors(reached));
        return Stopped(crash);
      }
      nodes := WithDirectories(nodes, Ancestors(marker));
      var temporary := TemporaryPath(marker);
      if temporary in nodes && nodes[temporary] == Dir {
        return Failed;
      }
      if stop.Writing? {
        if stop.written.Some? {
          nodes := nodes[temporary := File(Other(stop.written.value))];
        }
        return Stopped(crash);
      }
      nodes := nodes[temporary := File(content)];
      return Done;
    }

    /** Write aside, remove what is there, rename into place. */
    method ScheduleReset(marker: Path, deleteDownloads: bool, stop: StopPoint, crash: bool) returns (outcome: Outcome)
      requires IsTree(nodes) && MarkerPath(marker)
      modifies this
      ensures Written(nodes, outcome) == Scheduled(old(nodes), marker, deleteDownloads, stop, crash)
      ensures IsTree(nodes) && OnlyMarker(old(nodes), nodes, marker)
      ensures outcome == Done ==> ReadMarker(nodes, marker) == Some(deleteDownloads)
      ensures outcome != Done && marker in nodes ==> marker in old(nodes) && nodes[marker] == old(nodes)[marker]
      ensures outcome != Done && marker in old(nodes) && marker !in nodes ==> stop == Renaming
    {
      hide IsTree, OnlyMarker, Aside, TemporaryPath, FileAbove;
      ScheduledExactly(nodes, marker, deleteDownloads, stop, crash);
      var content := Marker(MARKER_VERSION, deleteDownloads);
      outcome := WriteAside(marker, content, stop, crash);
      if outcome != Done { return; }
      if marker in nodes {
        if nodes[marker] == Dir {
          return Failed;
        }
        if stop == Removing {
          return Stopped(crash);
        }
        nodes := nodes - {marker};
      }
      if stop == Renaming {
        return Stopped(crash);
      }
      nodes := (nodes - {TemporaryPath(marker)})[marker := File(content)];
      return Done;
    }

    /** A request that can be read stays as it is; anything else becomes one that keeps the downloads. */
    method EnsureRetryableMarker(marker: Path, f: Faults) returns (outcome: Outcome)
      requires IsTree(nodes) && MarkerPath(marker)
      modifies this
      ensures Written(nodes, outcome) == Retried(old(nodes), marker, f)
      ensures IsTree(nodes) && OnlyMarker(old(nodes), nodes, marker)
      ensures outcome == Done ==> ReadMarker(nodes, marker).Some?
      ensures ReadMarker(nodes, marker) == Some(true) ==> ReadMarker(old(nodes), marker) == Some(true)
    {
      hide IsTree, OnlyMarker, Scheduled;
      OnlyMarkerSame(nodes, marker);
      NeverUpgraded(nodes, marker, f);
      if !(marker in nodes) || f.readFails || ReadMarker(nodes, marker).None? {
        outcome := ScheduleReset(marker, false, f.stop, f.crash);
      } else {
        outcome := Done;
      }
    }
  }
}
