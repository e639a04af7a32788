/** What interrupted downloads leave beside the files: temporary directories and resume files, known by their names. */
module DownloadLeftovers {
  import opened ResetTree

  const ARTIFACT_PREFIX := ".cfms-download-"

  predicate Contains(s: string, t: string) {
    exists i :: 0 <= i <= |s| && t <= s[i..]
  }

  predicate EndsWith(s: string, t: string) {
    |t| <= |s| && s[|s| - |t|..] == t
  }

  /** A temporary directory or a resume file of a download. */
  predicate Artifact(p: Path, n: Node) {
    && |p| > 0
    && ARTIFACT_PREFIX <= p[|p| - 1]
    && (n == Dir || Contains(p[|p| - 1], ".chunks.db") || EndsWith(p[|p| - 1], "-wal") || EndsWith(p[|p| - 1], "-shm"))
  }

  /** At or under a leftover that lies inside `root`. */
  ghost predicate Leftover(t: Tree, p: Path, root: Path) {
    exists q :: q in t && root < q && q <= p && Artifact(q, t[q])
  }

  ghost function Leftovers(t: Tree, root: Path): set<Path> {
    set p | p in t && Leftover(t, p, root)
  }

  lemma LastComponent(q: Path, p: Path)
    requires |q| > 0 && q <= p
    ensures q[|q| - 1] == p[|q| - 1]
  {
  }

  // ---- Names of leftovers ----

  predicate StartsWith(name: string, start: string) { start <= name }

  ghost predicate HasInside(name: string, part: string) {
    exists a: string, b: string :: name == a + part + b
  }

  ghost predicate HasEnding(name: string, end: string) {
    exists a: string :: name == a + end
  }

  lemma ContainsExactly(s: string, t: string)
    ensures Contains(s, t) <==> HasInside(s, t)
  {
    if i :| 0 <= i <= |s| && t <= s[i..] {
      assert s == s[..i] + t + s[i + |t|..];
    }
    if a: string, b: string :| s == a + t + b {
      assert s[|a|..] == t + b;
      assert t <= s[|a|..];
    }
  }

  lemma EndsExactly(s: string, t: string)
    ensures EndsWith(s, t) <==> HasEnding(s, t)
  {
    if EndsWith(s, t) {
      assert s == s[..|s| - |t|] + t;
    }
  }

  /** A leftover is a directory or a resume file, told by its name. */
  lemma LeftoverByName(p: Path, n: Node)
    requires |p| > 0
    ensures var name := p[|p| - 1];
      Artifact(p, n) <==>
        && StartsWith(name, ".cfms-download-")
        && (n == Dir || HasInside(name, ".chunks.db") || HasEnding(name, "-wal") || HasEnding(name, "-shm"))
  {
    var name := p[|p| - 1];
    ContainsExactly(name, ".chunks.db");
    EndsExactly(name, "-wal");
    EndsExactly(name, "-shm");
  }

  // ---- What is left of the downloads ----

  /** The resume database of a download and the two files beside it. */
  predicate ResumeFile(name: string, id: string) {
    var base := ".cfms-download-" + id + ".chunks.db";
    name == base || name == base + "-wal" || name == base + "-shm"
  }

  predicate NamedAsResumeFile(p: Path, id: string) {
    |p| > 0 && ResumeFile(p[|p| - 1], id)
  }

  lemma ResumeFileIsLeftover(p: Path, n: Node, id: string)
    requires NamedAsResumeFile(p, id)
    ensures Artifact(p, n)
  {
    hide Artifact;
    var name := p[|p| - 1];
    var start := ".cfms-download-" + id;
    var end := name[|start| + |".chunks.db"|..];
    assert name == start + ".chunks.db" + end;
    assert ".cfms-download-" <= name;
    LeftoverByName(p, n);
  }

  /** No directory of a download under way and no resume file is below the root. */
  ghost predicate NoLeftovers(t: Tree, root: Path) {
    && (forall p :: p in t && root < p && t[p] == Dir ==> !StartsWith(p[|p| - 1], ".cfms-download-"))
    && (forall p, id :: p in t && root < p ==> !NamedAsResumeFile(p, id))
  }

  /** Once leftovers are removed, none of those names is below the root. */
  lemma RemovedByName(t: Tree, root: Path)
    ensures NoLeftovers(t - Leftovers(t, root), root)
  {
    hide Artifact, NamedAsResumeFile;
    var r := t - Leftovers(t, root);
    forall p | p in r && root < p ensures !Artifact(p, t[p]) {
      if Artifact(p, t[p]) { IsOwnLeftover(t, p, root); }
    }
    forall p | p in r && root < p && r[p] == Dir ensures !StartsWith(p[|p| - 1], ".cfms-download-") {
      LeftoverByName(p, t[p]);
    }
    forall p, id | p in r && root < p ensures !NamedAsResumeFile(p, id) {
      if NamedAsResumeFile(p, id) { ResumeFileIsLeftover(p, t[p], id); }
    }
  }

  lemma IsOwnLeftover(t: Tree, p: Path, root: Path)
    requires p in t && root < p && Artifact(p, t[p])
    ensures Leftover(t, p, root)
  {
    Nested(p, p, p);
  }

  /** An entry stays if no name below the root on the way to it starts like a leftover's. */
  lemma OrdinaryStays(t: Tree, root: Path, p: Path)
    requires p in t && forall k :: |root| <= k < |p| ==> !StartsWith(p[k], ".cfms-download-")
    ensures p in t - Leftovers(t, root)
  {
    if q: Path :| q in t && root < q && q <= p && Artifact(q, t[q]) {
      LastComponent(q, p);
      LeftoverByName(q, t[q]);
    }
  }

  lemma NoLeftoversWithin(t: Tree, u: Tree, root: Path)
    requires NoLeftovers(t, root) && Within(u, t)
    ensures NoLeftovers(u, root)
  {
    hide NamedAsResumeFile, StartsWith;
  }
}
