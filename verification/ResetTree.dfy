/** A file system as a finite tree of files and directories, and what removing entries leaves of it. */
module ResetTree {
  /** A normalised absolute path, as its components. */
  type Path = seq<string>

  datatype Content = Marker(version: nat, deleteDownloads: bool) | Other(bytes: string)
  datatype Node = Dir | File(content: Content)
  type Tree = map<Path, Node>

  /** How a step ended; after `Crashed` the process is gone and nothing further runs. */
  datatype Outcome = Done | Failed | Crashed

  /** Every entry lies in a directory. */
  ghost predicate IsTree(t: Tree) {
    forall p :: p in t && |p| > 0 ==> p[..|p| - 1] in t && t[p[..|p| - 1]] == Dir
  }

  ghost predicate Within(after: Tree, before: Tree) {
    forall p :: p in after ==> p in before && before[p] == after[p]
  }

  // ---- Prefixes ----

  lemma Nested(a: Path, b: Path, p: Path)
    requires a <= p && b <= p && |a| <= |b|
    ensures a <= b && (a == b || a < b)
  {
    assert forall i :: 0 <= i < |a| ==> a[i] == p[i] && b[i] == p[i];
    assert |a| == |b| ==> a == b;
  }

  lemma {:induction false} AncestorIsDir(t: Tree, q: Path, p: Path)
    requires IsTree(t) && p in t && q < p
    ensures q in t && t[q] == Dir
    decreases |p|
  {
    var parent := p[..|p| - 1];
    if q != parent {
      Nested(q, parent, p);
      AncestorIsDir(t, q, parent);
    }
  }

  // ---- Removal ----

  /** A tree again, from which nothing but doomed paths has gone. */
  ghost predicate Between(before: Tree, after: Tree, doomed: set<Path>) {
    && IsTree(after)
    && Within(after, before)
    && forall p :: p in before && p !in doomed ==> p in after
  }

  lemma RemovalKeepsTree(t: Tree, gone: set<Path>, doomed: set<Path>)
    requires IsTree(t) && gone <= doomed
    requires forall p, q :: q in gone && p in t && q < p ==> p in gone
    ensures Between(t, t - gone, doomed)
  {
    var r := t - gone;
    forall p | p in r && |p| > 0 ensures p[..|p| - 1] in r && r[p[..|p| - 1]] == Dir {
      assert p[..|p| - 1] < p;
    }
  }

  lemma BetweenSame(t: Tree, doomed: set<Path>)
    requires IsTree(t)
    ensures Between(t, t, doomed)
  {
  }

  lemma BetweenTwice(a: Tree, b: Tree, c: Tree, doomed: set<Path>, more: set<Path>)
    requires Between(a, b, doomed) && Between(b, c, more) && more <= doomed
    ensures Between(a, c, doomed)
  {
  }

  lemma BetweenMore(a: Tree, b: Tree, doomed: set<Path>, more: set<Path>)
    requires Between(a, b, doomed) && doomed <= more
    ensures Between(a, b, more)
  {
  }

  lemma FileHasNothingUnder(t: Tree, marker: Path)
    requires IsTree(t) && (marker in t ==> t[marker] != Dir)
    ensures Between(t, t - {marker}, {marker})
  {
    forall p | p in t && marker < p ensures false {
      AncestorIsDir(t, marker, p);
    }
    RemovalKeepsTree(t, {marker}, {marker});
  }
}
