/** The incremental scan of the poll backend agrees with a full walk: the argument
    that an unchanged one-second mtime, once its cache entry is older than 1500 ms,
    means an unchanged listing. */
module PollExact {
  import opened Tables
  import opened Paths
  import opened FileTree
  import opened PollSpec
  import opened Poll

  /** The second a directory changed in at monotonic time t, off being the distance
      from the monotonic to the file system's clock. */
  function Second(t: nat, off: nat): nat { (t + off) / 1000 }

  const MAX_GAP_MS: nat := 500

  /** The same names, and the same of them directories. */
  ghost predicate SameListing(fs0: Tree, fs: Tree, y: Path) {
    && IsDir(fs0, y) && IsDir(fs, y)
    && forall n :: (Lists(fs0, y, n) <==> Lists(fs, y, n)) &&
                   (Lists(fs, y, n) ==> (IsDir(fs0, y + [n]) <==> IsDir(fs, y + [n])))
  }

  /** Between a scan at t0 and one at t: a directory whose listing changed carries
      the second of a moment in between, and no mtime the cache may take over lies
      in the future. */
  ghost predicate Honest(fs0: Tree, t0: nat, fs: Tree, t: nat, off: nat, dirs: Dirs) {
    && t0 <= t <= t0 + MAX_GAP_MS
    && (forall y :: IsDir(fs, y) ==> SameListing(fs0, fs, y) || Second(t0, off) <= fs[y].mtime)
    && (forall y :: y in fs && (IsDir(fs, y) || y in dirs || y == []) ==> fs[y].mtime <= Second(t, off))
  }

  /** What every cache entry promises at time t. */
  ghost predicate CacheSound(cfg: Config, dirs: Dirs, t: nat, off: nat) {
    forall y :: y in dirs ==>
      dirs[y].cachedAt <= t && dirs[y].mtime <= Second(dirs[y].cachedAt, off) &&
      Clean(cfg, y) && (y != [] ==> cfg.recursive)
  }

  /** The cache is still empty or knows every directory of the target. */
  ghost predicate CacheComplete(cfg: Config, fs: Tree, dirs: Dirs) {
    dirs == map[] || forall y :: Reach(cfg, fs, y) ==> y in dirs
  }

  /** What the target's patterns and recursion let into the table, files or not. */
  ghost predicate Admits(cfg: Config, p: Path) {
    p != [] && Clean(cfg, p) && cfg.watched(Last(p)) && (|p| > 1 ==> cfg.recursive)
  }

  /** A table a run of scans can reach: every eligible file is in it, every entry
      carries what stat reports, and the only other entries are paths that a file once
      had and a directory has now. */
  ghost predicate Loosely(cfg: Config, fs: Tree, s: Snaps) {
    && (forall p :: Eligible(cfg, fs, p) ==> p in s)
    && (forall p :: p in s ==> SameStamp(fs, s, p) && Admits(cfg, p))
    && (forall p :: p in s ==> Eligible(cfg, fs, p) || IsDir(fs, p))
  }

  /** A known path is a directory, and a skipped directory takes it for its child. */
  ghost predicate Lingers(fs: Tree, skip: set<Path>, s: Snaps, p: Path) {
    p in s && IsDir(fs, p) && exists x :: IsDir(fs, x) && x in skip && Loose(x, p)
  }

  /** Everything the argument needs to know about one scan. */
  ghost predicate ScanFrom(w: World, fs0: Tree, t0: nat, off: nat, s: Snaps, d: Dirs) {
    && WellFormed(fs0) && WellFormed(w.fs)
    && Loosely(w.cfg, fs0, s) && CacheSound(w.cfg, d, t0, off) && CacheComplete(w.cfg, fs0, d)
    && Honest(fs0, t0, w.fs, w.now, off, d) && SkipSet(w, d)
  }

  ghost predicate ScanTo(w: World, g: set<Path>, s: Snaps, d: Dirs, mid: Snaps, e: Dirs) {
    && (forall x :: x in g <==> Visits(w, d.Keys, [], x))
    && SnapsStep(w, g, Cleared(s), mid) && DirsStep(w, g, d, e)
    && AllDone(w, d.Keys, [], mid, e)
  }

  /** The heart of it: more than 1500 ms after caching, with scans at most 500 ms
      apart, the previous scan was more than 1000 ms after caching, so any later
      change would show a later second. */
  lemma TrustedIsUnchanged(w: World, fs0: Tree, t0: nat, off: nat, s: Snaps, d: Dirs, y: Path)
    requires ScanFrom(w, fs0, t0, off, s, d) && y in w.skip && IsDir(w.fs, y)
    ensures SameListing(fs0, w.fs, y)
  {
    assert Skips(d, w.fs, w.now, y);
    var c := d[y].cachedAt;
    assert t0 > c + 1000;
    assert Second(t0, off) > Second(c, off);
  }

  lemma ParentReach(cfg: Config, fs: Tree, x: Path)
    requires WellFormed(fs) && Reach(cfg, fs, x) && x != []
    ensures Reach(cfg, fs, Parent(x)) && Lists(fs, Parent(x), Last(x)) && !cfg.ignored(Last(x))
    ensures IsChild(Parent(x), x) && x == Parent(x) + [Last(x)]
  {
    assert Lists(fs, Parent(x), Last(x));
  }

  /** Every directory of the target is visited. */
  lemma {:induction false} ReachIsVisited(w: World, fs0: Tree, t0: nat, off: nat, s: Snaps, d: Dirs, x: Path)
    requires ScanFrom(w, fs0, t0, off, s, d) && Reach(w.cfg, w.fs, x)
    ensures Visits(w, d.Keys, [], x)
    decreases |x|
  {
    if x != [] {
      var y := Parent(x);
      ParentReach(w.cfg, w.fs, x);
      ReachIsVisited(w, fs0, t0, off, s, d, y);
      if y in w.skip {
        TrustedIsUnchanged(w, fs0, t0, off, s, d, y);
        assert Lists(fs0, y, Last(x));
        assert IsDir(fs0, y + [Last(x)]);
        assert Reach(w.cfg, fs0, x);
        assert Skips(d, w.fs, w.now, y);
      } else {
        assert ListStep(w, y, x);
      }
      VisitsStep(w, d.Keys, [], y, x);
    }
  }

  /** Every visited path is one the target's patterns let through. */
  lemma {:induction false} VisitedIsClean(w: World, d: Dirs, t0: nat, off: nat, x: Path)
    requires CacheSound(w.cfg, d, t0, off) && Visits(w, d.Keys, [], x)
    ensures Clean(w.cfg, x) && (x != [] ==> w.cfg.recursive)
    decreases Weight(x)
  {
    if x != [] {
      var v := VisitsLast(w, d.Keys, [], x);
      StepWeight(w, d.Keys, v, x);
      if ListStep(w, v, x) {
        VisitedIsClean(w, d, t0, off, v);
        assert x == v + [Last(x)];
      }
    }
  }

  /** Every eligible file ends up current, listed or re-stat'ed. */
  lemma EligibleIsCurrent(w: World, fs0: Tree, t0: nat, off: nat, s: Snaps, d: Dirs, g: set<Path>, mid: Snaps, e: Dirs,
                          p: Path)
    requires ScanFrom(w, fs0, t0, off, s, d) && ScanTo(w, g, s, d, mid, e) && Eligible(w.cfg, w.fs, p)
    ensures Current(w, mid, p)
  {
    var y := Parent(p);
    assert Lists(w.fs, y, Last(p));
    ReachIsVisited(w, fs0, t0, off, s, d, y);
    assert Covered(w, y, mid);
    if y in w.skip {
      TrustedIsUnchanged(w, fs0, t0, off, s, d, y);
      assert p == y + [Last(p)];
      assert Lists(fs0, y, Last(p));
      assert Eligible(w.cfg, fs0, p);
      assert p in s && p in Cleared(s);
      assert SkipTouch(w, y, p);
    } else {
      assert ListTouch(w, y, p);
    }
  }

  ghost predicate AllAdmitted(cfg: Config, s: Snaps) { forall p :: p in s ==> Admits(cfg, p) }

  ghost predicate AllClean(cfg: Config, g: set<Path>) {
    forall x :: x in g ==> Clean(cfg, x) && (x != [] ==> cfg.recursive)
  }

  lemma FileIsEligible(cfg: Config, fs: Tree, p: Path)
    requires WellFormed(fs) && Admits(cfg, p) && IsFile(fs, p)
    ensures Eligible(cfg, fs, p)
  {
    assert Lists(fs, Parent(p), Last(p));
    assert Last(p) == p[|p| - 1];
  }

  /** Whatever was seen is eligible, or was known and is a directory now. */
  lemma SeenIsLoose(w: World, g: set<Path>, s: Snaps, mid: Snaps, p: Path)
    requires WellFormed(w.fs) && SnapsStep(w, g, Cleared(s), mid) && p in mid && mid[p].seen
    requires AllAdmitted(w.cfg, s) && AllClean(w.cfg, g)
    ensures Admits(w.cfg, p) && p in w.fs && mid[p].mtime == w.fs[p].mtime && mid[p].size == w.fs[p].size
    ensures Eligible(w.cfg, w.fs, p) || (p in s && IsDir(w.fs, p) && TouchedBy(w, g, p))
  {
    if p !in s {
      var x :| x in g && ListTouch(w, x, p);
      assert p == x + [Last(p)];
    } else {
      assert Cleared(s)[p] != mid[p];
    }
    if IsFile(w.fs, p) { FileIsEligible(w.cfg, w.fs, p); }
  }

  /** A skipped sibling that is no longer a directory was reached from a skipped
      sibling that is one. */
  lemma {:induction false} SkippedDirectory(w: World, d: Dirs, y: Path, x: Path)
    requires Visits(w, d.Keys, [], x) && x in w.skip && x != [] && Parent(x) == y && y !in w.skip
    ensures exists x0 :: IsDir(w.fs, x0) && x0 in w.skip && x0 != [] && Parent(x0) == y && Last(x0) <= Last(x) &&
                         |x0| == |x|
    decreases Weight(x)
  {
    if !IsDir(w.fs, x) {
      var v := VisitsLast(w, d.Keys, [], x);
      StepWeight(w, d.Keys, v, x);
      assert SkipStep(w, d.Keys, v, x);
      assert IsChild(v, x) ==> v == y;
      SkippedDirectory(w, d, y, v);
    }
  }

  /** A directory that is re-stat'ed is taken for its child by a skipped directory:
      its parent, or a sibling whose name it extends. */
  lemma TouchedDirectory(w: World, d: Dirs, g: set<Path>, p: Path) returns (x0: Path)
    requires WellFormed(w.fs) && p != [] && TouchedBy(w, g, p) && IsDir(w.fs, p)
    requires forall x :: x in g ==> Visits(w, d.Keys, [], x)
    ensures IsDir(w.fs, x0) && x0 in w.skip && Loose(x0, p)
  {
    if Parent(p) in w.skip {
      x0 := Parent(p);
      assert Lists(w.fs, Parent(p), Last(p));
    } else {
      var x :| x in g && (ListTouch(w, x, p) || SkipTouch(w, x, p));
      assert SkipTouch(w, x, p);
      SkippedDirectory(w, d, Parent(p), x);
      x0 :| IsDir(w.fs, x0) && x0 in w.skip && x0 != [] && Parent(x0) == Parent(p) && Last(x0) <= Last(x) &&
            |x0| == |x|;
    }
  }

  /** A skipped directory is one of the target's, and visited. */
  lemma SkippedIsVisited(w: World, fs0: Tree, t0: nat, off: nat, s: Snaps, d: Dirs, x: Path)
    requires ScanFrom(w, fs0, t0, off, s, d) && x in w.skip && IsDir(w.fs, x)
    ensures Visits(w, d.Keys, [], x)
  {
    assert Skips(d, w.fs, w.now, x);
    ReachIsVisited(w, fs0, t0, off, s, d, x);
  }

  /** A lingering path is re-stat'ed as if it were a known file, and so stays. */
  lemma LingeringIsSeen(w: World, known: set<Path>, s: Snaps, mid: Snaps, e: Dirs, p: Path, x: Path)
    requires p in s && p in w.fs && x in w.skip && Loose(x, p) && Visits(w, known, [], x)
    requires AllDone(w, known, [], mid, e) && forall q :: q in s ==> q in mid
    ensures p in mid && mid[p].seen
  {
    assert Covered(w, x, mid);
    assert SkipTouch(w, x, p);
  }

  /** After any scan of any run the table holds every eligible file, and it holds
      exactly these if and only if no known path is a directory that a skipped directory
      takes for its child. */
  lemma ScanIsExactIff(w: World, fs0: Tree, t0: nat, off: nat, s: Snaps, d: Dirs, g: set<Path>, mid: Snaps, e: Dirs,
                       t: Snaps)
    requires ScanFrom(w, fs0, t0, off, s, d) && ScanTo(w, g, s, d, mid, e) && Announced(mid, t)
    ensures Loosely(w.cfg, w.fs, t)
    ensures Exact(w.cfg, w.fs, t) <==> forall p :: !Lingers(w.fs, w.skip, s, p)
  {
    SeenStay(w, g, Cleared(s), mid, t);
    VisitedAreClean(w, d, t0, off, g);
    forall p | Eligible(w.cfg, w.fs, p) ensures Current(w, mid, p) {
      EligibleIsCurrent(w, fs0, t0, off, s, d, g, mid, e, p);
    }
    forall p | p in mid && mid[p].seen ensures LooselySeen(w, s, mid, p) {
      SeenIsLoose(w, g, s, mid, p);
      if !Eligible(w.cfg, w.fs, p) { var x0 := TouchedDirectory(w, d, g, p); }
    }
    forall p | Lingers(w.fs, w.skip, s, p) ensures p in mid && mid[p].seen {
      var x :| IsDir(w.fs, x) && x in w.skip && Loose(x, p);
      SkippedIsVisited(w, fs0, t0, off, s, d, x);
      LingeringIsSeen(w, d.Keys, Cleared(s), mid, e, p, x);
    }
    SeenIsTable(w, s, mid, t);
  }

  lemma VisitedAreClean(w: World, d: Dirs, t0: nat, off: nat, g: set<Path>)
    requires CacheSound(w.cfg, d, t0, off) && forall x :: x in g ==> Visits(w, d.Keys, [], x)
    ensures AllClean(w.cfg, g)
  {
    forall x | x in g ensures Clean(w.cfg, x) && (x != [] ==> w.cfg.recursive) {
      VisitedIsClean(w, d, t0, off, x);
    }
  }

  ghost predicate LooselySeen(w: World, s: Snaps, mid: Snaps, p: Path)
    requires p in mid
  {
    && Admits(w.cfg, p) && p in w.fs && mid[p].mtime == w.fs[p].mtime && mid[p].size == w.fs[p].size
    && (Eligible(w.cfg, w.fs, p) || Lingers(w.fs, w.skip, s, p))
  }

  /** Exactly the seen snapshots survive, with their stamps. */
  lemma SeenStay(w: World, g: set<Path>, s: Snaps, mid: Snaps, t: Snaps)
    requires SnapsStep(w, g, s, mid) && Announced(mid, t) && forall p :: p in s ==> !s[p].isNew
    ensures SeenKept(mid, t)
  {
  }

  ghost predicate SeenKept(mid: Snaps, t: Snaps) {
    && (forall p :: p in t <==> p in mid && mid[p].seen)
    && (forall p :: p in t ==> t[p].mtime == mid[p].mtime && t[p].size == mid[p].size)
  }

  lemma SeenIsTable(w: World, s: Snaps, mid: Snaps, t: Snaps)
    requires SeenKept(mid, t)
    requires forall p :: Eligible(w.cfg, w.fs, p) ==> Current(w, mid, p)
    requires forall p :: p in mid && mid[p].seen ==> LooselySeen(w, s, mid, p)
    requires forall p :: Lingers(w.fs, w.skip, s, p) ==> p in mid && mid[p].seen
    ensures Loosely(w.cfg, w.fs, t)
    ensures Exact(w.cfg, w.fs, t) <==> forall p :: !Lingers(w.fs, w.skip, s, p)
  {
    forall p | p in t ensures LooselySeen(w, s, mid, p) && SameStamp(w.fs, t, p) {
      assert p in mid && mid[p].seen;
    }
    if p :| Lingers(w.fs, w.skip, s, p) {
      assert p in t;
    }
  }

  /** The cache keeps its promises, and after a scan knows every directory. */
  lemma CacheStaysSound(w: World, fs0: Tree, t0: nat, off: nat, s: Snaps, d: Dirs, g: set<Path>, mid: Snaps, e: Dirs)
    requires ScanFrom(w, fs0, t0, off, s, d) && ScanTo(w, g, s, d, mid, e)
    ensures CacheSound(w.cfg, e, w.now, off) && CacheComplete(w.cfg, w.fs, e)
  {
    forall y | y in e
      ensures e[y].cachedAt <= w.now && e[y].mtime <= Second(e[y].cachedAt, off) &&
              Clean(w.cfg, y) && (y != [] ==> w.cfg.recursive)
    {
      if y !in d {
        VisitedIsClean(w, d, t0, off, y);
        if y != [] { var v := VisitsLast(w, d.Keys, [], y); }
      }
    }
    forall y | Reach(w.cfg, w.fs, y) ensures y in e {
      ReachIsVisited(w, fs0, t0, off, s, d, y);
    }
  }
}
