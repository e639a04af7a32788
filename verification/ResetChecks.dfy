/**
 * What a finished reset leaves behind, said of paths and names alone: which directories were cleared, what of the
 * downloads has gone, and which markers count as a request.
 */
module ResetChecks {
  import opened DownloadLeftovers
  import opened LocalDataReset
  import opened Outcomes
  import opened ResetMarker
  import opened ResetTree

  // ---- Requests ----

  /** A marker counts exactly if it is a file of version 1. */
  lemma MarkerExactly(t: Tree, marker: Path, d: bool)
    ensures ReadMarker(t, marker) == Some(d) <==> marker in t && t[marker] == File(Marker(1, d))
  {
  }

  /** A directory that may be cleared: two levels down at least, not the home and not the system's download directory. */
  predicate FitToClear(c: Config, root: Path) {
    |root| >= 2 && (c.home.Some? ==> c.home.value != root) && (c.systemDownloads.Some? ==> c.systemDownloads.value != root)
  }

  /** A request is acted on exactly if it can be read and the download directory is resolved, fit, and named as it should be. */
  lemma ActsExactly(c: Config, t: Tree, d: bool)
    ensures Pending(c, t) == Some(d) <==>
      && c.marker in t && t[c.marker] == File(Marker(1, d))
      && c.downloads.Some? && FitToClear(c, c.downloads.value)
      && c.downloads.value[|c.downloads.value| - 1] == "downloads"
  {
  }

  // ---- What is left when the request has been carried out ----

  /** Below a cleared directory only the way to the marker stays, and the downloads to be kept with the way to them. */
  predicate MayStay(c: Config, d: bool, root: Path, p: Path)
    requires SafeDownloads(c)
  {
    || !(root < p)
      || p < c.marker
      || (!d && !(c.downloads.value <= root) && c.downloads.value <= p)
      || (!d && p < c.downloads.value)
  }

  lemma PrefixOn(a: Path, b: Path, c: Path)
    ensures a < b && b < c ==> a < c
  {
    if a < b && b < c {
      assert forall i :: 0 <= i < |a| ==> a[i] == b[i] && b[i] == c[i];
    }
  }

  lemma StaysExactly(c: Config, t: Tree, d: bool, root: Path, p: Path)
    requires IsTree(t) && Pending(c, t) == Some(d) && p in t && p != c.marker
    ensures Survives(p, root, Protected(c, d)) <==> MayStay(c, d, root, p)
  {
    hide IsTree, SafeRoot;
    var downloads := c.downloads.value;
    if c.marker < p { AncestorIsDir(t, c.marker, p); }
    assert !(c.marker <= p) by { if c.marker <= p { Nested(c.marker, p, p); } }
    if root < p && Survives(p, root, Protected(c, d)) {
      var q :| q in Protected(c, d) && root < q && (q <= p || p < q);
      assert q == c.marker || (!d && q == downloads);
    }
    if root < p && MayStay(c, d, root, p) {
      if p < c.marker {
        PrefixOn(root, p, c.marker);
        SurvivesBy(p, root, Protected(c, d), 0);
      } else {
        PrefixOn(root, p, downloads);
        if downloads <= p {
          if |root| <= |downloads| { Nested(root, downloads, p); } else { Nested(downloads, root, p); }
        }
        SurvivesBy(p, root, Protected(c, d), 1);
      }
    }
  }

  lemma SurvivesBy(p: Path, root: Path, protected: seq<Path>, i: nat)
    requires i < |protected| && root < protected[i] && (protected[i] <= p || p < protected[i])
    ensures Survives(p, root, protected)
  {
    assert protected[i] in protected;
  }

  /**
   * When the request has been carried out, every cleanup directory was fit, and what is left is exactly what may
   * stay below each of them and is neither a download to be deleted nor at or under a leftover.
   */
  lemma SettledExactly(c: Config, d: bool, before: Tree, after: Tree, p: Path)
    requires IsTree(before) && Pending(c, before) == Some(d) && Settled(c, d, before, after)
    ensures c.roots.Some? && forall r :: r in Roots(c) ==> FitToClear(c, r.1)
    ensures p in after <==>
      && p in before && p != c.marker
      && (forall r :: r in Roots(c) ==> MayStay(c, d, r.1, p))
      && (if d then c.downloads.value < p ==> p < c.marker else !Leftover(before, p, c.downloads.value))
    ensures p in after ==> after[p] == before[p]
  {
    hide IsTree, Survives, Leftover, MayStay;
    forall r | r in Roots(c) ensures FitToClear(c, r.1) {
      assert SafeRoot(c, r.1);
    }
    if p in before && p != c.marker {
      forall root: Path ensures Survives(p, root, Protected(c, d)) <==> MayStay(c, d, root, p) {
        StaysExactly(c, before, d, root, p);
      }
      if d { DeletedExactly(c, before, p); }
    }
  }

  lemma DeletedExactly(c: Config, t: Tree, p: Path)
    requires IsTree(t) && Pending(c, t) == Some(true) && p in t && p != c.marker
    ensures Survives(p, c.downloads.value, [c.marker]) <==> (c.downloads.value < p ==> p < c.marker)
  {
    StaysExactly(c, t, true, c.downloads.value, p);
  }

  /** With downloads kept, none of their leftovers is there once the request has been carried out. */
  lemma SettledByName(c: Config, before: Tree, after: Tree)
    requires IsTree(before) && Pending(c, before) == Some(false) && Settled(c, false, before, after)
    ensures NoLeftovers(after, c.downloads.value)
  {
    hide IsTree, Survives, Leftover, Artifact, ResumeFile, StartsWith;
    RemovedByName(before, c.downloads.value);
    var cleaned := before - Leftovers(before, c.downloads.value);
    forall p | p in after ensures p in cleaned && cleaned[p] == after[p] {
      SettledExactly(c, false, before, after, p);
    }
  }
}
