/** What one scan of the poll backend (src/backend/backend_poll.c) may and must do,
    stated on values: the tree, the two tables and the set of skipped paths. */
module PollSpec {
  import opened Tables
  import opened Paths
  import opened FileTree

  datatype Kind = Created | Modified | Deleted | Moved

  datatype Event = Event(kind: Kind, path: Path, from: Path)

  /** A target: the string of its root, recursion, and the three pattern lists as
      the tests they amount to (an absent list ignores nothing and admits all). */
  datatype Config = Config(root: string, recursive: bool, ignored: string -> bool, watched: string -> bool,
                           wants: Kind -> bool, named: string -> bool)

  /** poll_file_snapshot and poll_dir_mtime, without their keys. */
  datatype Snap = Snap(mtime: nat, size: nat, seen: bool, isNew: bool)
  datatype Cached = Cached(mtime: nat, cachedAt: nat)

  type Snaps = map<Path, Snap>
  type Dirs = map<Path, Cached>

  const TRUST_MS: nat := 1500

  /** The cache test of scan_path: the listing of x is skipped. */
  predicate Skips(dirs: Dirs, fs: Tree, now: nat, x: Path) {
    x in fs && x in dirs && dirs[x].mtime == fs[x].mtime && now - dirs[x].cachedAt > TRUST_MS
  }

  // ---------- what should be in the snapshot table ----------

  /** No component of p is ignored. */
  ghost predicate Clean(cfg: Config, p: Path) { forall i :: 0 <= i < |p| ==> !cfg.ignored(p[i]) }

  /** A directory whose files belong to the target. */
  ghost predicate Reach(cfg: Config, fs: Tree, d: Path) {
    IsDir(fs, d) && Clean(cfg, d) && (d != [] ==> cfg.recursive)
  }

  /** A file a full walk would record. */
  ghost predicate Eligible(cfg: Config, fs: Tree, p: Path) {
    && p != [] && IsFile(fs, p) && Reach(cfg, fs, Parent(p))
    && !cfg.ignored(Last(p)) && cfg.watched(Last(p))
  }

  /** The table is exactly the (mtime, size) map of all eligible files. */
  ghost predicate Exact(cfg: Config, fs: Tree, snaps: Snaps) {
    && (forall p :: p in snaps <==> Eligible(cfg, fs, p))
    && (forall p :: p in snaps ==> SameStamp(fs, snaps, p))
  }

  predicate SameStamp(fs: Tree, snaps: Snaps, p: Path)
    requires p in snaps
  {
    p in fs && snaps[p].mtime == fs[p].mtime && snaps[p].size == fs[p].size
  }

  // ---------- one scan: which paths it visits, which snapshots it touches ----------

  /** A scan's fixed surroundings; skip is the set of paths whose listing it skips. */
  datatype World = World(cfg: Config, fs: Tree, now: nat, skip: set<Path>)

  /** Listing x brings the scan to directory e. */
  predicate ListStep(w: World, x: Path, e: Path) {
    && w.cfg.recursive && e != [] && Parent(e) == x && x !in w.skip
    && Lists(w.fs, x, Last(e)) && !w.cfg.ignored(Last(e)) && IsDir(w.fs, e)
  }

  /** Skipping x brings the scan to the cached path e. */
  predicate SkipStep(w: World, known: set<Path>, x: Path, e: Path) {
    w.cfg.recursive && x in w.skip && e in known && Loose(x, e)
  }

  predicate Step(w: World, known: set<Path>, x: Path, e: Path) {
    ListStep(w, x, e) || SkipStep(w, known, x, e)
  }

  /** Listing x records file p. */
  predicate ListTouch(w: World, x: Path, p: Path) {
    && p != [] && Parent(p) == x && x !in w.skip
    && Lists(w.fs, x, Last(p)) && !w.cfg.ignored(Last(p)) && IsFile(w.fs, p) && w.cfg.watched(Last(p))
  }

  /** Skipping x re-stats the known path p. */
  predicate SkipTouch(w: World, x: Path, p: Path) { x in w.skip && Loose(x, p) && p in w.fs }

  ghost predicate ListedBy(w: World, g: set<Path>, p: Path) { exists x :: x in g && ListTouch(w, x, p) }

  ghost predicate TouchedBy(w: World, g: set<Path>, p: Path) {
    exists x :: x in g && (ListTouch(w, x, p) || SkipTouch(w, x, p))
  }

  /** x is reached from d by steps of the scan. */
  ghost predicate Visits(w: World, known: set<Path>, d: Path, x: Path)
    decreases if Weight(d) < Weight(x) then Weight(x) - Weight(d) else 0
  {
    d == x ||
    (Weight(d) < Weight(x) &&
     exists e :: Step(w, known, d, e) && Weight(d) < Weight(e) <= Weight(x) && Visits(w, known, e, x))
  }

  /** g contains everything a scan starting inside g visits. */
  ghost predicate Closed(w: World, known: set<Path>, g: set<Path>) {
    forall x, e :: x in g && Step(w, known, x, e) ==> e in g
  }

  lemma StepWeight(w: World, known: set<Path>, x: Path, e: Path)
    requires Step(w, known, x, e)
    ensures Weight(x) < Weight(e)
  {
    if !ListStep(w, x, e) { LooseWeight(x, e); }
  }

  /** Snapshot p is marked seen and carries what stat reports now. */
  predicate Current(w: World, s: Snaps, p: Path) {
    p in s && p in w.fs && s[p].seen && s[p].mtime == w.fs[p].mtime && s[p].size == w.fs[p].size
  }

  /** Part of a scan, visiting paths of g only, takes table s to t. */
  ghost predicate SnapsStep(w: World, g: set<Path>, s: Snaps, t: Snaps) {
    && (forall p :: p in s ==> p in t)
    && (forall p :: p in s && t[p] != s[p] ==>
          p in w.fs && TouchedBy(w, g, p) && t[p] == Snap(w.fs[p].mtime, w.fs[p].size, true, s[p].isNew))
    && (forall p :: p in t && p !in s ==>
          p in w.fs && ListedBy(w, g, p) && t[p] == Snap(w.fs[p].mtime, w.fs[p].size, true, true))
  }

  /** The same for the directory cache. */
  ghost predicate DirsStep(w: World, g: set<Path>, d: Dirs, e: Dirs) {
    && (forall x :: x in d ==> x in e)
    && (forall x :: x in d && e[x] != d[x] ==>
          x in w.fs && d[x].mtime != w.fs[x].mtime && e[x] == Cached(w.fs[x].mtime, w.now))
    && (forall x :: x in e && x !in d ==> x in g && x in w.fs && e[x] == Cached(w.fs[x].mtime, w.now))
  }

  /** What visiting x must have achieved. */
  ghost predicate Covered(w: World, x: Path, s: Snaps) {
    && (forall p :: ListTouch(w, x, p) ==> Current(w, s, p))
    && (forall p :: p in s && SkipTouch(w, x, p) ==> Current(w, s, p))
  }

  predicate DirCurrent(w: World, d: Dirs, x: Path) { x in w.fs ==> x in d && d[x].mtime == w.fs[x].mtime }

  predicate StampDiffers(s: Snaps, t: Snaps, p: Path) {
    p in s && p in t && (s[p].mtime != t[p].mtime || s[p].size != t[p].size)
  }

  /** ms lists, once each, the snapshots whose stamp changed from s to t. */
  ghost predicate Modifications(s: Snaps, t: Snaps, ms: seq<Path>) {
    NoDup(ms) && forall p :: p in ms <==> StampDiffers(s, t, p)
  }

  ghost predicate SkipSet(w: World, d: Dirs) { forall x :: x in w.skip <==> Skips(d, w.fs, w.now, x) }

  // ---------- parts of a scan compose ----------

  lemma ModificationsTrans(w: World, g: set<Path>, s: Snaps, t: Snaps, u: Snaps, ms: seq<Path>, ns: seq<Path>)
    requires SnapsStep(w, g, s, t) && SnapsStep(w, g, t, u)
    requires Modifications(s, t, ms) && Modifications(t, u, ns)
    ensures Modifications(s, u, ms + ns)
  {
    forall p ensures p in ms + ns <==> StampDiffers(s, u, p) {
      assert p in ms ==> StampDiffers(s, t, p);
      assert p in ns ==> StampDiffers(t, u, p);
    }
    forall i, j | 0 <= i < j < |ms + ns| ensures (ms + ns)[i] != (ms + ns)[j] {
      if i < |ms| <= j {
        assert ms[i] in ms && ns[j - |ms|] in ns;
        assert StampDiffers(s, t, ms[i]) && StampDiffers(t, u, ns[j - |ms|]);
      }
    }
  }

  lemma CoveredStays(w: World, g: set<Path>, x: Path, s: Snaps, t: Snaps)
    requires Covered(w, x, s) && SnapsStep(w, g, s, t)
    ensures Covered(w, x, t)
  {
  }

  lemma DirsTrans(w: World, g: set<Path>, d: Dirs, e: Dirs, f: Dirs)
    requires DirsStep(w, g, d, e) && DirsStep(w, g, e, f)
    ensures DirsStep(w, g, d, f)
  {
  }

  lemma ClosedStays(w: World, g: set<Path>, d: Dirs, e: Dirs)
    requires Closed(w, d.Keys, g) && DirsStep(w, g, d, e)
    ensures Closed(w, e.Keys, g)
  {
    forall x, y | x in g && Step(w, e.Keys, x, y) ensures y in g {
      if y in d { assert Step(w, d.Keys, x, y); }
      if ListStep(w, x, y) { assert Step(w, d.Keys, x, y); }
    }
  }

  lemma {:induction false} VisitsGrow(w: World, known: set<Path>, more: set<Path>, d: Path, x: Path)
    requires known <= more && Visits(w, known, d, x)
    ensures Visits(w, more, d, x)
    decreases if Weight(d) < Weight(x) then Weight(x) - Weight(d) else 0
  {
    if d != x {
      var e :| Step(w, known, d, e) && Weight(d) < Weight(e) <= Weight(x) && Visits(w, known, e, x);
      VisitsGrow(w, known, more, e, x);
      assert Step(w, more, d, e);
    }
  }

  /** A visited path other than the start is one step beyond a visited path. */
  lemma {:induction false} VisitsLast(w: World, known: set<Path>, d: Path, x: Path) returns (v: Path)
    requires d != x && Visits(w, known, d, x)
    ensures Visits(w, known, d, v) && Step(w, known, v, x)
    decreases if Weight(d) < Weight(x) then Weight(x) - Weight(d) else 0
  {
    var e :| Step(w, known, d, e) && Weight(d) < Weight(e) <= Weight(x) && Visits(w, known, e, x);
    if e == x {
      v := d;
    } else {
      v := VisitsLast(w, known, e, x);
      StepWeight(w, known, v, x);
      assert Visits(w, known, d, v);
    }
  }

  lemma {:induction false} VisitsStep(w: World, known: set<Path>, d: Path, x: Path, e: Path)
    requires Visits(w, known, d, x) && Step(w, known, x, e)
    ensures Visits(w, known, d, e)
    decreases if Weight(d) < Weight(x) then Weight(x) - Weight(d) else 0
  {
    StepWeight(w, known, x, e);
    if d == x {
      assert Visits(w, known, e, e);
    } else {
      var f :| Step(w, known, d, f) && Weight(d) < Weight(f) <= Weight(x) && Visits(w, known, f, x);
      VisitsStep(w, known, f, x, e);
    }
  }
}
