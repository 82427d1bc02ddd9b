/** Whole runs of the poll backend: one target, from its initial snapshot on. */
module PollRuns {
  import opened Tables
  import opened Paths
  import opened FileTree
  import opened PollSpec
  import opened Moves
  import opened Poll
  import opened PollExact
  import opened Rescan

  /** The tree a scan finds, and the monotonic time it runs at. */
  datatype Scan = Scan(fs: Tree, now: nat)

  /** y has been a directory before scan k. */
  ghost predicate WasDir(scans: seq<Scan>, k: nat, y: Path)
    requires k <= |scans|
  {
    y == [] || exists j :: 0 <= j < k && IsDir(scans[j].fs, y)
  }

  /** What may happen between scan k-1 and scan k. */
  ghost predicate SteadyAt(scans: seq<Scan>, off: nat, k: nat)
    requires 0 < k < |scans|
  {
    var a, b := scans[k - 1], scans[k];
    && WellFormed(b.fs) && a.now <= b.now <= a.now + MAX_GAP_MS
    && (forall y :: IsDir(b.fs, y) ==> SameListing(a.fs, b.fs, y) || Second(a.now, off) <= b.fs[y].mtime)
    && (forall y :: y in b.fs && (IsDir(b.fs, y) || WasDir(scans, k, y)) ==> b.fs[y].mtime <= Second(b.now, off))
  }

  ghost predicate Steady(scans: seq<Scan>, off: nat) {
    scans != [] && WellFormed(scans[0].fs) && forall k :: 0 < k < |scans| ==> SteadyAt(scans, off, k)
  }

  /** A file of the target has become a directory, and another directory beside it
      has a name that its name extends. */
  ghost predicate RetypedBetween(cfg: Config, fs0: Tree, fs: Tree) {
    exists p, x :: Eligible(cfg, fs0, p) && IsDir(fs, p) && IsDir(fs, x) && IsLongerSibling(x, p)
  }

  ghost predicate CacheKnows(scans: seq<Scan>, k: nat, d: Dirs)
    requires k <= |scans|
  {
    forall y :: y in d ==> WasDir(scans, k, y)
  }

  ghost predicate InStep(cfg: Config, scans: seq<Scan>, off: nat, k: nat, s: Snaps, d: Dirs)
    requires 0 < k <= |scans|
  {
    && Loosely(cfg, scans[k - 1].fs, s) && CacheSound(cfg, d, scans[k - 1].now, off)
    && CacheComplete(cfg, scans[k - 1].fs, d) && CacheKnows(scans, k, d)
  }

  lemma SteadyIsHonest(scans: seq<Scan>, off: nat, k: nat, d: Dirs)
    requires Steady(scans, off) && 0 < k < |scans| && CacheKnows(scans, k, d)
    ensures Honest(scans[k - 1].fs, scans[k - 1].now, scans[k].fs, scans[k].now, off, d)
    ensures WellFormed(scans[k - 1].fs) && WellFormed(scans[k].fs)
  {
    assert SteadyAt(scans, off, k);
    if k > 1 { assert SteadyAt(scans, off, k - 1); }
  }

  lemma CacheKnowsMore(w: World, scans: seq<Scan>, k: nat, g: set<Path>, d: Dirs, e: Dirs)
    requires k < |scans| && CacheKnows(scans, k, d) && DirsStep(w, g, d, e) && w.fs == scans[k].fs
    requires forall x :: x in g <==> Visits(w, d.Keys, [], x)
    ensures CacheKnows(scans, k + 1, e)
  {
    forall y | y in e ensures WasDir(scans, k + 1, y) {
      if y in d {
        assert WasDir(scans, k, y);
      } else if y != [] {
        var v := VisitsLast(w, d.Keys, [], y);
        assert IsDir(scans[k].fs, y);
      }
    }
  }

  /** The paths whose listing scan c skips, d being the cache before it. */
  function SkippedIn(d: Dirs, c: Scan): set<Path> { set x | x in d && Skips(d, c.fs, c.now, x) }

  /** When scan c leaves an exact table, s and d being the tables before it. */
  ghost predicate ExactWhen(cfg: Config, c: Scan, s: Snaps, d: Dirs, t: Snaps) {
    Exact(cfg, c.fs, t) <==> forall p :: !Lingers(c.fs, SkippedIn(d, c), s, p)
  }

  /** One scan goes on with the run, whatever lingers in the table. */
  lemma ScanInStep(w: World, scans: seq<Scan>, off: nat, k: nat, s: Snaps, d: Dirs, g: set<Path>, mid: Snaps, e: Dirs,
                   t: Snaps)
    requires Steady(scans, off) && 0 < k < |scans| && InStep(w.cfg, scans, off, k, s, d)
    requires w.fs == scans[k].fs && w.now == scans[k].now && w.skip == SkippedIn(d, scans[k])
    requires ScanTo(w, g, s, d, mid, e) && Announced(mid, t)
    ensures InStep(w.cfg, scans, off, k + 1, t, e) && ExactWhen(w.cfg, scans[k], s, d, t)
  {
    var fs0, t0 := scans[k - 1].fs, scans[k - 1].now;
    SteadyIsHonest(scans, off, k, d);
    ScanIsExactIff(w, fs0, t0, off, s, d, g, mid, e, t);
    CacheStaysSound(w, fs0, t0, off, s, d, g, mid, e);
    CacheKnowsMore(w, scans, k, g, d, e);
  }

  /** The tables of a run so far: the first is exact, each holds every eligible file and
      nothing but these and lingering directories, and it is known when each is exact. */
  ghost predicate RunOf(cfg: Config, scans: seq<Scan>, off: nat, tables: seq<Snaps>, caches: seq<Dirs>) {
    && 0 < |tables| == |caches| <= |scans| && Exact(cfg, scans[0].fs, tables[0])
    && (forall k :: 0 <= k < |tables| ==> InStep(cfg, scans, off, k + 1, tables[k], caches[k]))
    && (forall k :: 0 < k < |tables| ==> ExactWhen(cfg, scans[k], tables[k - 1], caches[k - 1], tables[k]))
  }

  lemma RunMore(cfg: Config, scans: seq<Scan>, off: nat, tables: seq<Snaps>, caches: seq<Dirs>, t: Snaps, e: Dirs)
    requires RunOf(cfg, scans, off, tables, caches) && |tables| < |scans|
    requires var k := |tables|;
             InStep(cfg, scans, off, k + 1, t, e) && ExactWhen(cfg, scans[k], tables[k - 1], caches[k - 1], t)
    ensures RunOf(cfg, scans, off, tables + [t], caches + [e])
  {
    var ts, es := tables + [t], caches + [e];
    assert forall k :: 0 <= k < |tables| ==> ts[k] == tables[k] && es[k] == caches[k];
  }

  lemma ExactIsLoose(cfg: Config, fs: Tree, s: Snaps)
    requires Exact(cfg, fs, s)
    ensures Loosely(cfg, fs, s)
  {
    forall p | p in s ensures Admits(cfg, p) {
      assert Eligible(cfg, fs, p);
      assert p == Parent(p) + [Last(p)];
    }
  }

  /** The table of scan n is exact if no file was retyped before any scan up to n. */
  lemma {:induction false} ExactUntilRetyped(cfg: Config, scans: seq<Scan>, off: nat, tables: seq<Snaps>,
                                             caches: seq<Dirs>,
                                             n: nat)
    requires Steady(scans, off) && RunOf(cfg, scans, off, tables, caches) && n < |tables|
    requires forall k :: 0 < k <= n ==> !RetypedBetween(cfg, scans[k - 1].fs, scans[k].fs)
    ensures Exact(cfg, scans[n].fs, tables[n])
  {
    if n > 0 {
      ExactUntilRetyped(cfg, scans, off, tables, caches, n - 1);
      assert ExactWhen(cfg, scans[n], tables[n - 1], caches[n - 1], tables[n]);
      var fs, skip, s := scans[n].fs, SkippedIn(caches[n - 1], scans[n]), tables[n - 1];
      forall p ensures !Lingers(fs, skip, s, p) {
        NothingLingers(cfg, scans, off, n, tables[n - 1], caches[n - 1], p);
      }
    }
  }

  lemma SameListingSameKind(fs0: Tree, fs: Tree, p: Path)
    requires p != [] && SameListing(fs0, fs, Parent(p)) && Lists(fs, Parent(p), Last(p))
    ensures IsDir(fs0, p) <==> IsDir(fs, p)
  {
    assert p == Parent(p) + [Last(p)];
  }

  lemma NothingLingers(cfg: Config, scans: seq<Scan>, off: nat, k: nat, s: Snaps, d: Dirs, p: Path)
    requires Steady(scans, off) && 0 < k < |scans| && InStep(cfg, scans, off, k, s, d)
    requires Exact(cfg, scans[k - 1].fs, s) && !RetypedBetween(cfg, scans[k - 1].fs, scans[k].fs)
    ensures !Lingers(scans[k].fs, SkippedIn(d, scans[k]), s, p)
  {
    var a, b := scans[k - 1], scans[k];
    var w := World(cfg, b.fs, b.now, SkippedIn(d, b));
    if Lingers(b.fs, w.skip, s, p) {
      var x :| IsDir(b.fs, x) && x in w.skip && Loose(x, p);
      SteadyIsHonest(scans, off, k, d);
      TrustedIsUnchanged(w, a.fs, a.now, off, s, d, x);
      assert Eligible(cfg, a.fs, p) && !IsLongerSibling(x, p);
      assert Lists(b.fs, Parent(p), Last(p));
      assert x == Parent(p);
      SameListingSameKind(a.fs, b.fs, p);
      assert false;
    }
  }

  /** poll_initial_snapshot and then the loop of poll_thread_func, with one directory
      target. After every scan the table holds every eligible file with its stamp, and
      it is known when it holds nothing else. The events offered, and if all kinds and
      names are wanted those delivered, always replay to the current key set. */
  method Watch(t: Target, scans: seq<Scan>, ghost off: nat) returns (ghost tables: seq<Snaps>, ghost caches: seq<Dirs>)
    requires t.Tables() && t.snaps == map[] && t.dirs == map[] && t.offered == []
    requires Steady(scans, off)
    modifies t
    ensures t.Tables() && |tables| == |caches| == |scans|
    ensures t.snaps == tables[|scans| - 1] && t.dirs == caches[|scans| - 1]
    ensures RunOf(t.cfg, scans, off, tables, caches)
    ensures forall k :: 0 <= k < |scans| ==> Loosely(t.cfg, scans[k].fs, tables[k])
    ensures Replay(t.offered, tables[0].Keys) == t.snaps.Keys
    ensures t.log == Kept(t.offered, e => Wanted(t.cfg, e))
    ensures WantsAll(t.cfg) ==> Replay(t.log, tables[0].Keys) == t.snaps.Keys
  {
    InitialSnapshot(t, scans[0].fs);
    tables, caches := [t.snaps], [t.dirs];
    ExactIsLoose(t.cfg, scans[0].fs, t.snaps);
    for k := 1 to |scans|
      invariant t.Tables() && |tables| == |caches| == k && t.snaps == tables[k - 1] && t.dirs == caches[k - 1]
      invariant RunOf(t.cfg, scans, off, tables, caches)
      invariant Replay(t.offered, tables[0].Keys) == t.snaps.Keys
    {
      WatchOnce(t, scans, k, off, tables[0].Keys);
      RunMore(t.cfg, scans, off, tables, caches, t.snaps, t.dirs);
      tables, caches := tables + [t.snaps], caches + [t.dirs];
    }
    DeliveredIsWanted(t.cfg, t.offered);
    if WantsAll(t.cfg) { KeptAll(t.offered, e => Wanted(t.cfg, e)); }
  }

  method InitialSnapshot(t: Target, fs: Tree)
    requires t.Tables() && WellFormed(fs) && t.snaps == map[]
    modifies t`snaps, t`snapKeys
    ensures t.Tables() && Exact(t.cfg, fs, t.snaps)
  {
    if IsDir(fs, []) {
      ghost var m := WeightBound(fs.Keys);
      t.InitialScan(fs, [], m);
    } else {
      forall p ensures !Eligible(t.cfg, fs, p) {
        if p in fs && p != [] { TreePrefix(fs, p, 0); }
      }
    }
  }

  /** One round of that loop. */
  method WatchOnce(t: Target, scans: seq<Scan>, k: nat, ghost off: nat, ghost ks: set<Path>)
    requires t.Tables() && Steady(scans, off) && 0 < k < |scans|
    requires InStep(t.cfg, scans, off, k, t.snaps, t.dirs) && Replay(t.offered, ks) == t.snaps.Keys
    modifies t
    ensures t.Tables() && InStep(t.cfg, scans, off, k + 1, t.snaps, t.dirs)
    ensures ExactWhen(t.cfg, scans[k], old(t.snaps), old(t.dirs), t.snaps)
    ensures Replay(t.offered, ks) == t.snaps.Keys
  {
    ghost var s, d, o := t.snaps, t.dirs, t.offered;
    assert SteadyAt(scans, off, k);
    ghost var w, mid, ms, g, keys := ScanStated(t, scans[k].fs, scans[k].now);
    ReplayMore(w, g, s, mid, keys, ms, t.snaps, o, ks);
    ScanInStep(w, scans, off, k, s, d, g, mid, t.dirs, t.snaps);
  }

  lemma ReplayMore(w: World, g: set<Path>, s: Snaps, mid: Snaps, keys: seq<Path>, ms: seq<Path>, t: Snaps,
                   o: seq<Event>, ks: set<Path>)
    requires ScanTables(w, g, s, mid, keys, ms, t) && Replay(o, ks) == s.Keys
    ensures Replay(o + ScanEvents(ms, keys, mid), ks) == t.Keys
  {
    ReplayScan(w, g, s, mid, keys, ms, t);
    ReplayConcat(o, ScanEvents(ms, keys, mid), ks);
  }

  /** A scan, told in the terms of the two main arguments. */
  method ScanStated(t: Target, fs: Tree, now: nat)
    returns (ghost w: World, ghost mid: Snaps, ghost ms: seq<Path>, ghost g: set<Path>, ghost keys: seq<Path>)
    requires t.Tables() && WellFormed(fs) && forall x :: x in t.dirs ==> t.dirs[x].cachedAt <= now
    modifies t
    ensures t.Tables() && forall x :: x in t.dirs ==> t.dirs[x].cachedAt <= now
    ensures w == World(t.cfg, fs, now, SkippedIn(old(t.dirs), Scan(fs, now)))
    ensures ScanTo(w, g, old(t.snaps), old(t.dirs), mid, t.dirs)
    ensures ScanTables(w, g, old(t.snaps), mid, keys, ms, t.snaps)
    ensures t.offered == old(t.offered) + ScanEvents(ms, keys, mid)
  {
    ghost var o := t.offered;
    w := t.WorldAt(fs, now);
    mid, ms, g, keys := t.ScanTarget(fs, now);
    ghost var r := Pair(GoneOf(keys, mid), NewOf(keys, mid), mid);
    Regrouped(o, ModEvents(ms), r.0, NewEvents(r.1));
  }

  lemma Regrouped<T>(o: seq<T>, a: seq<T>, b: seq<T>, c: seq<T>)
    ensures o + a + b + c == o + (a + b + c)
  {
  }

  // ---------- the exception is real ----------

  /** foo is a directory and foobar a file; then foobar is replaced by a directory,
      of which only the parent's mtime tells. */
  function Before(): Tree {
    map[[] := Dir(0, 0, ["foo", "foobar"]), ["foo"] := Dir(0, 0, []), ["foobar"] := File(0, 7)]
  }

  function After(): Tree {
    map[[] := Dir(2, 0, ["foo", "foobar"]), ["foo"] := Dir(0, 0, []), ["foobar"] := Dir(2, 0, [])]
  }

  function Everything(): Config { Config("/w", true, _ => false, _ => true, _ => true, _ => true) }

  lemma FlatIsWellFormed(fs: Tree, a: Node, b: Node, m: nat)
    requires fs == map[[] := Dir(m, 0, ["foo", "foobar"]), ["foo"] := a, ["foobar"] := b]
    requires (a.Dir? ==> a.names == []) && (b.Dir? ==> b.names == [])
    ensures WellFormed(fs)
  {
    forall d, n | Lists(fs, d, n) ensures GoodName(n) && d + [n] in fs {
      assert d == [] && (n == "foo" || n == "foobar");
      assert [] + [n] == [n];
      Letters();
    }
    forall p | p in fs && p != [] ensures Lists(fs, Parent(p), Last(p)) {
      assert p == ["foo"] || p == ["foobar"];
      assert Parent(p) == [] && (Last(p) == "foo" || Last(p) == "foobar");
      assert Last(p) in fs[[]].names by { assert fs[[]].names[0] == "foo" && fs[[]].names[1] == "foobar"; }
      Letters();
    }
  }

  lemma Letters()
    ensures GoodName("foo") && GoodName("foobar")
  {
    assert |"foo"| == 3 && |"foobar"| == 6;
  }

  lemma StartIsHonest()
    ensures var d := CachedBefore();
            && CacheSound(Everything(), d, 2000, 0) && CacheComplete(Everything(), Before(), d)
            && Honest(Before(), 2000, After(), 2400, 0, d)
  {
    assert SameListing(Before(), After(), ["foo"]);
  }

  lemma StartIsTrusted()
    ensures SkipSet(AtRetype(), CachedBefore())
  {
  }

  function AtRetype(): World { World(Everything(), After(), 2400, {["foo"]}) }

  function KnownBefore(): Snaps { map[["foobar"] := Snap(0, 7, false, false)] }

  function CachedBefore(): Dirs { map[[] := Cached(0, 500), ["foo"] := Cached(0, 500)] }

  /** The scan at 2400 ms after scans every 500 ms up to 2000: foo, cached at 500 ms,
      is skipped, and the vanished file stays in the table. */
  lemma RetypeIsReal(g: set<Path>, mid: Snaps, e: Dirs, t: Snaps)
    ensures ScanFrom(AtRetype(), Before(), 2000, 0, KnownBefore(), CachedBefore())
    ensures ScanTo(AtRetype(), g, KnownBefore(), CachedBefore(), mid, e) && Announced(mid, t) ==>
            ["foobar"] in t && !Exact(Everything(), After(), t)
  {
    var w, s, d := AtRetype(), KnownBefore(), CachedBefore();
    FlatIsWellFormed(Before(), Before()[["foo"]], Before()[["foobar"]], 0);
    FlatIsWellFormed(After(), After()[["foo"]], After()[["foobar"]], 2);
    ExactIsLoose(Everything(), Before(), s);
    StartIsHonest();
    StartIsTrusted();
    if ScanTo(w, g, s, d, mid, e) && Announced(mid, t) {
      RetypedName();
      assert Lingers(w.fs, w.skip, s, ["foobar"]);
      ScanIsExactIff(w, Before(), 2000, 0, s, d, g, mid, e, t);
      SkippedIsVisited(w, Before(), 2000, 0, s, d, ["foo"]);
      LingeringIsSeen(w, d.Keys, Cleared(s), mid, e, ["foobar"], ["foo"]);
      SeenStay(w, g, Cleared(s), mid, t);
    }
  }

  /** A lingering entry stays as long as the tree does not change. */
  lemma LingersOn(w: World, fs0: Tree, t0: nat, off: nat, s: Snaps, d: Dirs, g: set<Path>, mid: Snaps, e: Dirs,
                  t: Snaps, p: Path, x: Path, later: nat)
    requires ScanFrom(w, fs0, t0, off, s, d)
    requires ScanTo(w, g, s, d, mid, e)
    requires Announced(mid, t) && w.now <= later
    requires p in s && IsDir(w.fs, p) && IsDir(w.fs, x) && x in w.skip && Loose(x, p)
    ensures Lingers(w.fs, SkippedIn(e, Scan(w.fs, later)), t, p)
  {
    assert Lingers(w.fs, w.skip, s, p);
    SkippedIsVisited(w, fs0, t0, off, s, d, x);
    LingeringIsSeen(w, d.Keys, Cleared(s), mid, e, p, x);
    SeenStay(w, g, Cleared(s), mid, t);
    assert Skips(d, w.fs, w.now, x) && e[x] == d[x];
    assert x in SkippedIn(e, Scan(w.fs, later));
  }

  /** A scan leaves what the next one starts from. */
  lemma NextScan(w: World, fs0: Tree, t0: nat, off: nat, s: Snaps, d: Dirs, g: set<Path>, mid: Snaps, e: Dirs, t: Snaps,
                 w2: World)
    requires ScanFrom(w, fs0, t0, off, s, d) && ScanTo(w, g, s, d, mid, e) && Announced(mid, t)
    requires w2 == World(w.cfg, w2.fs, w2.now, SkippedIn(e, Scan(w2.fs, w2.now))) && WellFormed(w2.fs)
    requires Honest(w.fs, w.now, w2.fs, w2.now, off, e)
    ensures ScanFrom(w2, w.fs, w.now, off, t, e)
  {
    ScanIsExactIff(w, fs0, t0, off, s, d, g, mid, e, t);
    CacheStaysSound(w, fs0, t0, off, s, d, g, mid, e);
  }

  /** While anything lingers a scan over an unchanged tree leaves an inexact table,
      though nothing was retyped before it. */
  lemma StaysInexact(cfg: Config, c: Scan, s: Snaps, d: Dirs, t: Snaps, p: Path)
    requires ExactWhen(cfg, c, s, d, t) && Lingers(c.fs, SkippedIn(d, c), s, p)
    ensures !RetypedBetween(cfg, c.fs, c.fs) && !Exact(cfg, c.fs, t)
  {
  }

  /** The run above continued by a scan at 2900 ms. */
  lemma RetypeStays(g: set<Path>, mid: Snaps, e: Dirs, t: Snaps, g2: set<Path>, mid2: Snaps, e2: Dirs, t2: Snaps)
    requires ScanTo(AtRetype(), g, KnownBefore(), CachedBefore(), mid, e) && Announced(mid, t)
    requires var w2 := World(Everything(), After(), 2900, SkippedIn(e, Scan(After(), 2900)));
             ScanTo(w2, g2, t, e, mid2, e2) && Announced(mid2, t2)
    ensures !RetypedBetween(Everything(), After(), After()) && !Exact(Everything(), After(), t2)
  {
    var w2 := World(Everything(), After(), 2900, SkippedIn(e, Scan(After(), 2900)));
    RetypeIsReal(g, mid, e, t);
    StillHonest(e);
    RetypedName();
    NextScan(AtRetype(), Before(), 2000, 0, KnownBefore(), CachedBefore(), g, mid, e, t, w2);
    LingersOn(AtRetype(), Before(), 2000, 0, KnownBefore(), CachedBefore(), g, mid, e, t, ["foobar"], ["foo"], 2900);
    ScanIsExactIff(w2, After(), 2400, 0, t, e, g2, mid2, e2, t2);
    StaysInexact(Everything(), Scan(After(), 2900), t, e, t2, ["foobar"]);
  }

  lemma RetypedName()
    ensures IsDir(After(), ["foobar"]) && IsDir(After(), ["foo"]) && Loose(["foo"], ["foobar"])
    ensures ["foobar"] in KnownBefore() && ["foo"] in AtRetype().skip
  {
    assert IsLongerSibling(["foo"], ["foobar"]);
  }

  lemma StillHonest(e: Dirs)
    ensures Honest(After(), 2400, After(), 2900, 0, e)
  {
  }
}
