/** The scanning half of src/backend/backend_poll.c, on the tables it updates. */
module Poll {
  import opened Tables
  import opened Paths
  import opened FileTree
  import opened PollSpec
  import opened Moves

  /** emit_event: the mask and the callback patterns decide what is delivered. */
  predicate Delivers(cfg: Config, e: Event) {
    cfg.wants(e.kind) && cfg.named(BaseName(Render(cfg.root, e.path)))
  }

  function Delivered(cfg: Config, es: seq<Event>): seq<Event> {
    if es == [] then []
    else
      var rest := Delivered(cfg, es[..|es| - 1]);
      if Delivers(cfg, es[|es| - 1]) then rest + [es[|es| - 1]] else rest
  }

  /** What the target asks to be told of: a kind of its mask, and a last component its callback patterns admit. */
  predicate Wanted(cfg: Config, e: Event) { e.path != [] && cfg.wants(e.kind) && cfg.named(Last(e.path)) }

  /** Every event is about something below the root. */
  ghost predicate Proper(es: seq<Event>) { forall e :: e in es ==> e.path != [] && GoodPath(e.path) }

  lemma {:induction false} DeliveredIsWanted(cfg: Config, es: seq<Event>)
    requires Proper(es)
    ensures Delivered(cfg, es) == Kept(es, e => Wanted(cfg, e))
  {
    if es != [] {
      DeliveredIsWanted(cfg, es[..|es| - 1]);
      BaseNameIsLast(cfg.root, es[|es| - 1].path);
    }
  }

  /** Of what a stretch offers, the wanted events are what it delivers. */
  lemma DeliveredMore(cfg: Config, a: seq<Event>, b: seq<Event>)
    requires Proper(a + b)
    ensures Delivered(cfg, a + b) == Delivered(cfg, a) + Kept(b, e => Wanted(cfg, e))
  {
    DeliveredIsWanted(cfg, a + b);
    assert Proper(a) by { forall e | e in a ensures e.path != [] && GoodPath(e.path) { assert e in a + b; } }
    DeliveredIsWanted(cfg, a);
    KeptConcat(a, b, e => Wanted(cfg, e));
  }

  /** Nothing is held back. */
  ghost predicate WantsAll(cfg: Config) { (forall k :: cfg.wants(k)) && forall n :: cfg.named(n) }

  function ModEvents(ms: seq<Path>): (es: seq<Event>)
    ensures |es| == |ms|
    ensures forall i :: 0 <= i < |ms| ==> es[i] == Event(Modified, ms[i], [])
  {
    seq(|ms|, i requires 0 <= i < |ms| => Event(Modified, ms[i], []))
  }

  /** A table of the target: the keys in insertion order, and the entries. */
  ghost predicate Keyed<V>(keys: seq<Path>, m: map<Path, V>) {
    NoDup(keys) && (forall p :: p in keys <==> p in m) && (forall p :: p in m ==> GoodPath(p))
  }

  /** A stretch of scanning: both tables advance, and one MODIFIED is offered for
      each snapshot whose stamp changed. */
  ghost predicate Progress(w: World, g: set<Path>, s: Snaps, d: Dirs, o: seq<Event>,
                           t: Snaps, e: Dirs, q: seq<Event>, ms: seq<Path>) {
    SnapsStep(w, g, s, t) && DirsStep(w, g, d, e) && Modifications(s, t, ms) && q == o + ModEvents(ms)
  }

  lemma ProgressTrans(w: World, g: set<Path>, s: Snaps, d: Dirs, o: seq<Event>, t: Snaps, e: Dirs, q: seq<Event>,
                      ms: seq<Path>, u: Snaps, f: Dirs, r: seq<Event>, ns: seq<Path>)
    requires Progress(w, g, s, d, o, t, e, q, ms) && Progress(w, g, t, e, q, u, f, r, ns)
    ensures Progress(w, g, s, d, o, u, f, r, ms + ns)
  {
    DirsTrans(w, g, d, e, f);
    ModificationsTrans(w, g, s, t, u, ms, ns);
    assert ModEvents(ms + ns) == ModEvents(ms) + ModEvents(ns);
  }

  lemma ProgressRefl(w: World, g: set<Path>, s: Snaps, d: Dirs, o: seq<Event>)
    ensures Progress(w, g, s, d, o, s, d, o, [])
  {
    assert o + ModEvents([]) == o;
  }

  /** Everything visited from e has had its effect. */
  ghost predicate AllDone(w: World, known: set<Path>, e: Path, s: Snaps, d: Dirs) {
    forall x :: Visits(w, known, e, x) ==> Covered(w, x, s) && DirCurrent(w, d, x)
  }

  lemma AllDoneStays(w: World, g: set<Path>, known: set<Path>, e: Path, s: Snaps, d: Dirs, t: Snaps, f: Dirs)
    requires AllDone(w, known, e, s, d) && SnapsStep(w, g, s, t) && DirsStep(w, g, d, f)
    ensures AllDone(w, known, e, t, f)
  {
    forall x | Visits(w, known, e, x) ensures Covered(w, x, t) && DirCurrent(w, f, x) {
      CoveredStays(w, g, x, s, t);
    }
  }

  /** The entries of d listed so far, up to i, have had their effect. */
  ghost predicate ListedUpTo(w: World, known: set<Path>, d: Path, i: nat, s: Snaps, e: Dirs)
    requires IsDir(w.fs, d) && i <= |w.fs[d].names|
  {
    forall j :: 0 <= j < i ==> EntryDone(w, known, d, w.fs[d].names[j], s, e)
  }

  ghost predicate EntryDone(w: World, known: set<Path>, d: Path, n: string, s: Snaps, e: Dirs) {
    && (ListTouch(w, d, d + [n]) ==> Current(w, s, d + [n]))
    && (ListStep(w, d, d + [n]) ==> AllDone(w, known, d + [n], s, e))
  }

  lemma ListedNone(w: World, known: set<Path>, d: Path, s: Snaps, e: Dirs)
    requires IsDir(w.fs, d)
    ensures ListedUpTo(w, known, d, 0, s, e)
  {
  }

  /** One entry more, with all that its visit has touched. */
  lemma ListedMore(w: World, g: set<Path>, known: set<Path>, d: Path, i: nat, s: Snaps, e: Dirs, o: seq<Event>,
                   t: Snaps, f: Dirs, q: seq<Event>, ns: seq<Path>)
    requires IsDir(w.fs, d) && i < |w.fs[d].names| && ListedUpTo(w, known, d, i, s, e)
    requires Progress(w, g, s, e, o, t, f, q, ns) && EntryDone(w, known, d, w.fs[d].names[i], t, f)
    ensures ListedUpTo(w, known, d, i + 1, t, f)
  {
    forall j | 0 <= j < i ensures EntryDone(w, known, d, w.fs[d].names[j], t, f) {
    }
  }

  /** A directory whose cached mtime is current keeps it, and what is known stays known. */
  lemma ProgressCurrent(w: World, g: set<Path>, s: Snaps, d: Dirs, o: seq<Event>, t: Snaps, e: Dirs, q: seq<Event>,
                        ms: seq<Path>, x: Path)
    requires Progress(w, g, s, d, o, t, e, q, ms) && DirCurrent(w, d, x)
    ensures DirCurrent(w, e, x)
  {
  }

  lemma ListingDone(w: World, known: set<Path>, d: Path, s: Snaps, e: Dirs)
    requires IsDir(w.fs, d) && d !in w.skip && ListedUpTo(w, known, d, |w.fs[d].names|, s, e) && DirCurrent(w, e, d)
    ensures AllDone(w, known, d, s, e)
  {
    forall p | ListTouch(w, d, p) ensures Current(w, s, p) {
      assert p == d + [Last(p)];
      assert EntryDone(w, known, d, Last(p), s, e);
    }
    forall x | Visits(w, known, d, x) && x != d ensures Covered(w, x, s) && DirCurrent(w, e, x) {
      var f :| Step(w, known, d, f) && Weight(d) < Weight(f) <= Weight(x) && Visits(w, known, f, x);
      assert f == d + [Last(f)];
      assert EntryDone(w, known, d, Last(f), s, e);
    }
  }

  ghost predicate RecheckedUpTo(w: World, d: Path, keys: seq<Path>, i: nat, s: Snaps)
    requires i <= |keys|
  {
    forall j :: 0 <= j < i ==> (SkipTouch(w, d, keys[j]) ==> Current(w, s, keys[j]))
  }

  lemma RecheckedStays(w: World, g: set<Path>, d: Path, keys: seq<Path>, i: nat, s: Snaps, t: Snaps)
    requires i <= |keys| && RecheckedUpTo(w, d, keys, i, s) && SnapsStep(w, g, s, t)
    ensures RecheckedUpTo(w, d, keys, i, t)
  {
  }

  ghost predicate CachedUpTo(w: World, known: set<Path>, d: Path, keys: seq<Path>, i: nat, s: Snaps, e: Dirs) {
    forall j :: 0 <= j < i && j < |keys| && SkipStep(w, known, d, keys[j]) ==> AllDone(w, known, keys[j], s, e)
  }

  lemma CachedStays(w: World, g: set<Path>, known: set<Path>, d: Path, keys: seq<Path>, i: nat,
                    s: Snaps, e: Dirs, t: Snaps, f: Dirs)
    requires CachedUpTo(w, known, d, keys, i, s, e) && SnapsStep(w, g, s, t) && DirsStep(w, g, e, f)
    ensures CachedUpTo(w, known, d, keys, i, t, f)
  {
    forall j | 0 <= j < i && j < |keys| && SkipStep(w, known, d, keys[j])
      ensures AllDone(w, known, keys[j], t, f)
    {
      AllDoneStays(w, g, known, keys[j], s, e, t, f);
    }
  }

  // ---------- vanished and new snapshots ----------

  predicate IsGone(s: Snaps, p: Path) { p in s && !s[p].seen && !s[p].isNew }

  predicate IsNew(s: Snaps, p: Path) { p in s && s[p].isNew }

  function GoneOf(keys: seq<Path>, s: Snaps): seq<Path> {
    if keys == [] then [] else if IsGone(s, keys[0]) then [keys[0]] + GoneOf(keys[1..], s) else GoneOf(keys[1..], s)
  }

  function NewOf(keys: seq<Path>, s: Snaps): seq<Path> {
    if keys == [] then [] else if IsNew(s, keys[0]) then [keys[0]] + NewOf(keys[1..], s) else NewOf(keys[1..], s)
  }

  lemma {:induction false} NewOfConcat(a: seq<Path>, b: seq<Path>, s: Snaps)
    ensures NewOf(a + b, s) == NewOf(a, s) + NewOf(b, s)
  {
    if a == [] {
      assert a + b == b;
    } else {
      assert (a + b)[0] == a[0] && (a + b)[1..] == a[1..] + b;
      NewOfConcat(a[1..], b, s);
    }
  }

  lemma {:induction false} NewOfElements(keys: seq<Path>, s: Snaps)
    ensures forall p :: p in NewOf(keys, s) <==> p in keys && IsNew(s, p)
  {
    if keys != [] { NewOfElements(keys[1..], s); }
  }

  lemma {:induction false} NewOfSame(keys: seq<Path>, s: Snaps, t: Snaps)
    requires forall p :: p in keys ==> (IsNew(s, p) <==> IsNew(t, p))
    ensures NewOf(keys, s) == NewOf(keys, t)
  {
    if keys != [] { NewOfSame(keys[1..], s, t); }
  }

  /** Consuming the new snapshot at index j takes it out of the list of new ones. */
  lemma NewOfConsume(keys: seq<Path>, j: nat, s: Snaps, t: Snaps)
    requires NoDup(keys) && j < |keys| && IsNew(s, keys[j]) && !IsNew(t, keys[j])
    requires forall p :: p in keys && p != keys[j] ==> (IsNew(s, p) <==> IsNew(t, p))
    ensures var i := |NewOf(keys[..j], s)|;
            i < |NewOf(keys, s)| && NewOf(keys, s)[i] == keys[j] && NewOf(keys, t) == RemoveAt(NewOf(keys, s), i)
  {
    var a, b := keys[..j], keys[j + 1..];
    assert keys == a + ([keys[j]] + b);
    NewOfConcat(a, [keys[j]] + b, s);
    NewOfConcat(a, [keys[j]] + b, t);
    assert ([keys[j]] + b)[1..] == b;
    NewOfSame(a, s, t);
    NewOfSame(b, s, t);
  }

  /** From s to t only isNew flags may have been cleared, and entries removed. */
  ghost predicate FlagsOnly(s: Snaps, t: Snaps) {
    && (forall p :: p in t ==> p in s && t[p] == s[p].(isNew := t[p].isNew) && (t[p].isNew ==> s[p].isNew))
    && (forall p :: p in s && !IsGone(s, p) ==> p in t)
    && (forall p :: p in s && IsGone(s, p) && p in t ==> IsGone(t, p))
  }

  lemma FlagsDrop(s: Snaps, t: Snaps, p: Path)
    requires FlagsOnly(s, t) && p in s && IsGone(s, p)
    ensures FlagsOnly(s, t - {p})
  {
  }

  /** What becomes of vanished p when news are the new paths still unmatched. */
  ghost predicate TakesFirst(p: Path, news: seq<Path>, s: Snaps, e: Event, left: seq<Path>) {
    var n := FirstOfSize(news, SizeOf(s, p), s);
    if n < |news| then e == Event(Moved, news[n], p) && left == RemoveAt(news, n)
    else e == Event(Deleted, p, []) && left == news
  }

  /** Taking over what stat reports of a touched snapshot. */
  lemma RefreshOne(w: World, g: set<Path>, s: Snaps, p: Path)
    requires p in s && p in w.fs && TouchedBy(w, g, p)
    ensures var t := s[p := Snap(w.fs[p].mtime, w.fs[p].size, true, s[p].isNew)];
            && SnapsStep(w, g, s, t) && Current(w, t, p)
            && Modifications(s, t, if StampDiffers(s, t, p) then [p] else [])
  {
  }

  /** swatcher_target_poll. */
  class Target {
    const cfg: Config
    var snapKeys: seq<Path>
    var snaps: Snaps
    var dirKeys: seq<Path>
    var dirs: Dirs
    /** What the callback received, and every event offered to emit_event. */
    var log: seq<Event>
    ghost var offered: seq<Event>

    ghost predicate Tables()
      reads this
    {
      && Keyed(snapKeys, snaps) && Keyed(dirKeys, dirs) && [] !in snaps
      && Proper(offered) && log == Delivered(cfg, offered)
    }

    constructor (cfg: Config)
      ensures Tables() && this.cfg == cfg && snaps == map[] && dirs == map[] && offered == []
    {
      this.cfg := cfg;
      snapKeys, snaps, dirKeys, dirs, log, offered := [], map[], [], map[], [], [];
    }

    method Emit(e: Event)
      requires Proper(offered) && log == Delivered(cfg, offered) && e.path != [] && GoodPath(e.path)
      modifies this`log, this`offered
      ensures offered == old(offered) + [e] && Proper(offered) && log == Delivered(cfg, offered)
      ensures log == if cfg.wants(e.kind) && cfg.named(Last(e.path)) then old(log) + [e] else old(log)
    {
      BaseNameIsLast(cfg.root, e.path);
      offered := offered + [e];
      if Delivers(cfg, e) { log := log + [e]; }
    }

    /** What scanning starts from: the skipped paths are w.skip, the scan stays
        inside g, and m bounds how deep it can go. */
    ghost predicate Ready(w: World, g: set<Path>, m: nat)
      reads this
    {
      && Tables() && w.cfg == cfg && WellFormed(w.fs)
      && SkipSet(w, dirs) && Closed(w, dirs.Keys, g)
      && (forall x :: x in dirs ==> dirs[x].cachedAt <= w.now)
      && (forall x :: x in dirs || x in w.fs ==> Weight(x) <= m)
    }

    /** The cache lookup at the top of scan_path. */
    method CheckCache(w: World, d: Path, ghost g: set<Path>, ghost m: nat) returns (changed: bool)
      requires Ready(w, g, m) && d in g && GoodPath(d)
      modifies this`dirs, this`dirKeys
      ensures Ready(w, g, m) && DirsStep(w, g, old(dirs), dirs) && DirCurrent(w, dirs, d)
      ensures changed <==> d !in w.skip
      ensures !changed <==> d in w.fs && d in old(dirs) && old(dirs)[d].mtime == w.fs[d].mtime &&
                            w.now - old(dirs)[d].cachedAt > 1500
      ensures dirs == if d in w.fs && (d in old(dirs) ==> old(dirs)[d].mtime != w.fs[d].mtime)
                      then old(dirs)[d := Cached(w.fs[d].mtime, w.now)] else old(dirs)
      ensures old(dirKeys) <= dirKeys
    {
      changed := true;
      if d in w.fs {
        if d in dirs {
          if dirs[d].mtime == w.fs[d].mtime && w.now - dirs[d].cachedAt > TRUST_MS {
            changed := false;
          } else if dirs[d].mtime != w.fs[d].mtime {
            dirs := dirs[d := Cached(w.fs[d].mtime, w.now)];
          }
        } else {
          dirKeys := dirKeys + [d];
          dirs := dirs[d := Cached(w.fs[d].mtime, w.now)];
        }
      }
      assert DirsStep(w, g, old(dirs), dirs);
      ClosedStays(w, g, old(dirs), dirs);
    }

    /** What scan_path does with one file it has stat'ed, from either branch. */
    method Refresh(w: World, p: Path, ghost g: set<Path>) returns (ghost ms: seq<Path>)
      requires Tables() && p in snaps && p in w.fs && TouchedBy(w, g, p)
      modifies this`snaps, this`log, this`offered
      ensures Tables() && SnapsStep(w, g, old(snaps), snaps) && Current(w, snaps, p)
      ensures Modifications(old(snaps), snaps, ms) && offered == old(offered) + ModEvents(ms)
    {
      hide SnapsStep, Modifications, Proper, Delivered, GoodPath;
      var s, node := snaps[p], w.fs[p];
      RefreshOne(w, g, snaps, p);
      ms := [];
      if s.mtime != node.mtime || s.size != node.size {
        ms := [p];
        Emit(Event(Modified, p, []));
        assert ModEvents(ms) == [Event(Modified, p, [])];
      } else {
        assert offered + ModEvents([]) == offered;
      }
      snaps := snaps[p := Snap(node.mtime, node.size, true, s.isNew)];
    }

    /** A listed file: remember it as new, or refresh what is known. */
    method VisitFile(w: World, d: Path, p: Path, ghost g: set<Path>) returns (ghost ms: seq<Path>)
      requires Tables() && d in g && ListTouch(w, d, p) && GoodPath(p)
      modifies this`snaps, this`snapKeys, this`log, this`offered
      ensures Tables() && SnapsStep(w, g, old(snaps), snaps) && Current(w, snaps, p) && old(snapKeys) <= snapKeys
      ensures Modifications(old(snaps), snaps, ms) && offered == old(offered) + ModEvents(ms)
    {
      if p !in snaps {
        ms := [];
        assert offered + ModEvents([]) == offered;
        snapKeys := snapKeys + [p];
        snaps := snaps[p := Snap(w.fs[p].mtime, w.fs[p].size, true, true)];
        assert ListedBy(w, g, p);
      } else {
        assert TouchedBy(w, g, p);
        ms := Refresh(w, p, g);
      }
    }

    /** scan_path. The scan of d stays inside g, does everything its visits call
        for, and offers one MODIFIED for each changed stamp. */
    method ScanPath(w: World, d: Path, ghost g: set<Path>, ghost m: nat) returns (ghost ms: seq<Path>)
      requires Ready(w, g, m) && d in g && GoodPath(d) && Weight(d) <= m
      modifies this
      ensures Ready(w, g, m) && old(dirKeys) <= dirKeys && old(snapKeys) <= snapKeys
      ensures Progress(w, g, old(snaps), old(dirs), old(offered), snaps, dirs, offered, ms)
      ensures AllDone(w, old(dirs.Keys), d, snaps, dirs)
      decreases m - Weight(d), 3
    {
      var changed := CheckCache(w, d, g, m);
      ghost var s, e, o := snaps, dirs, offered;
      ProgressRefl(w, g, s, e, o);
      ms := [];
      if changed {
        if IsDir(w.fs, d) {
          ms := ListDirectory(w, d, g, m, old(dirs.Keys));
        } else {
        }
      } else {
        ms := ReuseListing(w, d, g, m, old(dirs.Keys));
      }
      DirsTrans(w, g, old(dirs), e, dirs);
    }

    /** The branch that lists the directory. */
    method ListDirectory(w: World, d: Path, ghost g: set<Path>, ghost m: nat, ghost known: set<Path>)
      returns (ghost ms: seq<Path>)
      requires Ready(w, g, m) && d in g && GoodPath(d) && Weight(d) <= m
      requires IsDir(w.fs, d) && d !in w.skip && DirCurrent(w, dirs, d) && known <= dirs.Keys
      modifies this
      ensures Ready(w, g, m) && old(dirKeys) <= dirKeys && old(snapKeys) <= snapKeys
      ensures Progress(w, g, old(snaps), old(dirs), old(offered), snaps, dirs, offered, ms)
      ensures AllDone(w, known, d, snaps, dirs)
      decreases m - Weight(d), 2
    {
      hide Progress, ListedUpTo, EntryDone, AllDone, SkipSet, Closed, WellFormed, Proper, Delivered;
      var names := w.fs[d].names;
      ms := [];
      ProgressRefl(w, g, snaps, dirs, offered);
      ListedNone(w, known, d, snaps, dirs);
      for i := 0 to |names|
        invariant Ready(w, g, m) && old(dirKeys) <= dirKeys && old(snapKeys) <= snapKeys
        invariant Progress(w, g, old(snaps), old(dirs), old(offered), snaps, dirs, offered, ms)
        invariant ListedUpTo(w, known, d, i, snaps, dirs) && known <= dirs.Keys
      {
        ghost var s, e, o := snaps, dirs, offered;
        ghost var ns := VisitEntry(w, d, names[i], g, m, known);
        ListedMore(w, g, known, d, i, s, e, o, snaps, dirs, offered, ns);
        ProgressTrans(w, g, old(snaps), old(dirs), old(offered), s, e, o, ms, snaps, dirs, offered, ns);
        ms := ms + ns;
      }
      ProgressCurrent(w, g, old(snaps), old(dirs), old(offered), snaps, dirs, offered, ms, d);
      ListingDone(w, known, d, snaps, dirs);
    }

    /** The body of the listing loop. */
    method VisitEntry(w: World, d: Path, name: string, ghost g: set<Path>, ghost m: nat, ghost known: set<Path>)
      returns (ghost ms: seq<Path>)
      requires Ready(w, g, m) && d in g && GoodPath(d) && Weight(d) <= m
      requires IsDir(w.fs, d) && name in w.fs[d].names && d !in w.skip && known <= dirs.Keys
      modifies this
      ensures Ready(w, g, m) && old(dirKeys) <= dirKeys && old(snapKeys) <= snapKeys
      ensures Progress(w, g, old(snaps), old(dirs), old(offered), snaps, dirs, offered, ms)
      ensures EntryDone(w, known, d, name, snaps, dirs)
      decreases m - Weight(d), 0
    {
      ms := [];
      ProgressRefl(w, g, snaps, dirs, offered);
      if IsDot(name) || cfg.ignored(name) { return; }
      var child := d + [name];
      Snoc(d, name);
      ChildWeight(d, name);
      assert Lists(w.fs, d, name);
      if IsDir(w.fs, child) && cfg.recursive {
        assert Step(w, dirs.Keys, d, child);
        ghost var now := dirs.Keys;
        ms := ScanPath(w, child, g, m);
        forall x | Visits(w, known, child, x) ensures Covered(w, x, snaps) && DirCurrent(w, dirs, x) {
          VisitsGrow(w, known, now, child, x);
        }
        return;
      }
      if IsDir(w.fs, child) { return; }
      if !cfg.watched(name) { return; }
      if child !in w.fs { return; }
      ms := VisitFile(w, d, child, g);
    }

    /** The branch that trusts the cached mtime: re-stat what is known, and go down
        into the cached directories. */
    method ReuseListing(w: World, d: Path, ghost g: set<Path>, ghost m: nat, ghost known: set<Path>)
      returns (ghost ms: seq<Path>)
      requires Ready(w, g, m) && d in g && GoodPath(d) && Weight(d) <= m
      requires d in w.skip && DirCurrent(w, dirs, d) && known <= dirs.Keys
      modifies this
      ensures Ready(w, g, m) && old(dirKeys) <= dirKeys && old(snapKeys) <= snapKeys
      ensures Progress(w, g, old(snaps), old(dirs), old(offered), snaps, dirs, offered, ms)
      ensures AllDone(w, known, d, snaps, dirs)
      decreases m - Weight(d), 2
    {
      ms := RecheckFiles(w, d, g);
      ghost var s, e, o := snaps, dirs, offered;
      if cfg.recursive {
        ghost var ns := VisitCachedDirs(w, d, g, m, known);
        ProgressTrans(w, g, old(snaps), old(dirs), old(offered), s, e, o, ms, snaps, dirs, offered, ns);
        ms := ms + ns;
        CoveredStays(w, g, d, s, snaps);
      }
    }

    method RecheckFiles(w: World, d: Path, ghost g: set<Path>) returns (ghost ms: seq<Path>)
      requires Tables() && w.cfg == cfg && d in g && GoodPath(d) && d in w.skip
      modifies this`snaps, this`log, this`offered
      ensures Tables() && Covered(w, d, snaps)
      ensures Progress(w, g, old(snaps), old(dirs), old(offered), snaps, dirs, offered, ms)
    {
      hide Modifications, SnapsStep, DirsStep, Proper, Delivered;
      ms := [];
      ProgressRefl(w, g, snaps, dirs, offered);
      for i := 0 to |snapKeys|
        invariant Tables() && snaps.Keys == old(snaps.Keys)
        invariant Progress(w, g, old(snaps), old(dirs), old(offered), snaps, dirs, offered, ms)
        invariant RecheckedUpTo(w, d, snapKeys, i, snaps)
      {
        ghost var s, o := snaps, offered;
        ghost var ns := RecheckFile(w, d, snapKeys[i], g);
        ProgressTrans(w, g, old(snaps), old(dirs), old(offered), s, dirs, o, ms, snaps, dirs, offered, ns);
        RecheckedStays(w, g, d, snapKeys, i, s, snaps);
        ms := ms + ns;
      }
    }

    method RecheckFile(w: World, d: Path, p: Path, ghost g: set<Path>) returns (ghost ms: seq<Path>)
      requires Tables() && w.cfg == cfg && d in g && GoodPath(d) && d in w.skip && p in snaps
      modifies this`snaps, this`log, this`offered
      ensures Tables() && snaps.Keys == old(snaps.Keys) && (SkipTouch(w, d, p) ==> Current(w, snaps, p))
      ensures Progress(w, g, old(snaps), old(dirs), old(offered), snaps, dirs, offered, ms)
    {
      ms := [];
      ProgressRefl(w, g, snaps, dirs, offered);
      ChildTestMeaning(cfg.root, d, p);
      if ChildTest(Render(cfg.root, p), Render(cfg.root, d)) && p in w.fs {
        assert SkipTouch(w, d, p) && TouchedBy(w, g, p);
        ms := Refresh(w, p, g);
      }
    }

    /** HASH_ITER over the cached directories, which grow during the loop. */
    method VisitCachedDirs(w: World, d: Path, ghost g: set<Path>, ghost m: nat, ghost known: set<Path>)
      returns (ghost ms: seq<Path>)
      requires Ready(w, g, m) && d in g && GoodPath(d) && Weight(d) <= m
      requires d in w.skip && known <= dirs.Keys && cfg.recursive
      modifies this
      ensures Ready(w, g, m) && old(dirKeys) <= dirKeys && old(snapKeys) <= snapKeys
      ensures Progress(w, g, old(snaps), old(dirs), old(offered), snaps, dirs, offered, ms)
      ensures forall f :: SkipStep(w, known, d, f) ==> AllDone(w, known, f, snaps, dirs)
      decreases m - Weight(d), 1
    {
      ghost var keys := dirKeys;
      ms := [];
      ProgressRefl(w, g, snaps, dirs, offered);
      var el := if |dirKeys| > 0 then 0 else -1;
      var tmp := if |dirKeys| > 1 then 1 else -1;
      ghost var count := 0;
      while el != -1
        invariant Ready(w, g, m) && keys <= dirKeys && old(snapKeys) <= snapKeys
        invariant Progress(w, g, old(snaps), old(dirs), old(offered), snaps, dirs, offered, ms)
        invariant el != -1 ==> el == count < |dirKeys| && (tmp == el + 1 < |dirKeys| || (tmp == -1 && el + 1 >= |keys|))
        invariant el == -1 ==> count >= |keys|
        invariant CachedUpTo(w, known, d, keys, count, snaps, dirs)
        decreases el != -1, |w.fs.Keys + old(dirs.Keys)| - count
      {
        NoDupBound(dirKeys, w.fs.Keys + old(dirs.Keys));
        ms := CachedRound(w, d, el, g, m, known, keys, old(snaps), old(dirs), old(offered), ms);
        count := count + 1;
        el := tmp;
        if el != -1 { tmp := if el + 1 < |dirKeys| then el + 1 else -1; }
      }
    }

    /** One round of that loop, added to what the earlier rounds did. */
    method CachedRound(w: World, d: Path, el: nat, ghost g: set<Path>, ghost m: nat, ghost known: set<Path>,
                       ghost keys: seq<Path>, ghost s0: Snaps, ghost d0: Dirs, ghost o0: seq<Event>,
                       ghost ms0: seq<Path>)
      returns (ghost ms: seq<Path>)
      requires Ready(w, g, m) && d in g && GoodPath(d) && Weight(d) <= m
      requires d in w.skip && known <= dirs.Keys && cfg.recursive && keys <= dirKeys && el < |dirKeys|
      requires Progress(w, g, s0, d0, o0, snaps, dirs, offered, ms0)
      requires CachedUpTo(w, known, d, keys, el, snaps, dirs)
      modifies this
      ensures Ready(w, g, m) && old(dirKeys) <= dirKeys && old(snapKeys) <= snapKeys
      ensures Progress(w, g, s0, d0, o0, snaps, dirs, offered, ms)
      ensures CachedUpTo(w, known, d, keys, el + 1, snaps, dirs)
      decreases m - Weight(d), 0, 1
    {
      ghost var s, e, o := snaps, dirs, offered;
      ghost var ns := VisitCached(w, d, dirKeys[el], g, m, known);
      ProgressTrans(w, g, s0, d0, o0, s, e, o, ms0, snaps, dirs, offered, ns);
      CachedStays(w, g, known, d, keys, el, s, e, snaps, dirs);
      ms := ms0 + ns;
    }

    /** The body of that loop. */
    method VisitCached(w: World, d: Path, f: Path, ghost g: set<Path>, ghost m: nat, ghost known: set<Path>)
      returns (ghost ms: seq<Path>)
      requires Ready(w, g, m) && d in g && GoodPath(d) && Weight(d) <= m
      requires d in w.skip && known <= dirs.Keys && cfg.recursive && f in dirs
      modifies this
      ensures Ready(w, g, m) && old(dirKeys) <= dirKeys && old(snapKeys) <= snapKeys
      ensures Progress(w, g, old(snaps), old(dirs), old(offered), snaps, dirs, offered, ms)
      ensures SkipStep(w, known, d, f) ==> AllDone(w, known, f, snaps, dirs)
      decreases m - Weight(d), 0, 0
    {
      ms := [];
      ProgressRefl(w, g, snaps, dirs, offered);
      ChildTestMeaning(cfg.root, d, f);
      if ChildTest(Render(cfg.root, f), Render(cfg.root, d)) {
        LooseWeight(d, f);
        assert Step(w, dirs.Keys, d, f);
        ghost var now := dirs.Keys;
        ms := ScanPath(w, f, g, m);
        forall x | Visits(w, known, f, x) ensures Covered(w, x, snaps) && DirCurrent(w, dirs, x) {
          VisitsGrow(w, known, now, f, x);
        }
      }
    }

    /** The inner loop of move detection: the first new snapshot of that size. */
    method FindNew(size: nat, ghost s0: Snaps) returns (j: int)
      requires Tables() && forall p :: p in snaps ==> p in s0 && snaps[p].size == s0[p].size
      ensures -1 <= j < |snapKeys|
      ensures var news := NewOf(snapKeys, snaps); var i := FirstOfSize(news, size, s0);
              if j == -1 then i == |news|
              else IsNew(snaps, snapKeys[j]) && i == |NewOf(snapKeys[..j], snaps)|
    {
      j := 0;
      while j < |snapKeys|
        invariant 0 <= j <= |snapKeys|
        invariant forall k :: 0 <= k < j ==> !IsNewOfSize(snaps, snapKeys[k], size)
      {
        if snaps[snapKeys[j]].isNew && snaps[snapKeys[j]].size == size {
          FirstNew(snapKeys, j, snaps, size, s0);
          return;
        }
        j := j + 1;
      }
      FirstNew(snapKeys, j, snaps, size, s0);
      j := -1;
    }

    /** One vanished snapshot: a MOVED to the first new one of its size, else DELETED. */
    method MatchGone(p: Path, ghost s0: Snaps) returns (e: Event)
      requires Tables() && IsGone(snaps, p)
      requires forall q :: q in snaps ==> q in s0 && snaps[q].size == s0[q].size
      modifies this`snaps
      ensures Keyed(snapKeys, snaps) && FlagsOnly(old(snaps), snaps) && snaps.Keys == old(snaps.Keys)
      ensures IsGone(snaps, p) && e.path in snaps
      ensures TakesFirst(p, NewOf(snapKeys, old(snaps)), s0, e, NewOf(snapKeys, snaps))
    {
      var j := FindNew(snaps[p].size, s0);
      if j == -1 {
        e := Event(Deleted, p, []);
      } else {
        var q := snapKeys[j];
        e := Event(Moved, q, p);
        ghost var before := snaps;
        snaps := snaps[q := snaps[q].(isNew := false)];
        NewOfConsume(snapKeys, j, before, snaps);
      }
    }

    /** HASH_DEL of the entry the loop stands on. */
    method DropGone(p: Path, ghost kept: seq<Path>, ghost rest: seq<Path>)
      requires Tables() && snapKeys == kept + rest && rest != [] && rest[0] == p && IsGone(snaps, p)
      modifies this`snaps, this`snapKeys
      ensures Tables() && snapKeys == kept + rest[1..] && snaps == old(snaps) - {p}
      ensures NewOf(snapKeys, snaps) == NewOf(old(snapKeys), old(snaps))
    {
      NewOfRemove(kept, rest, snaps, snaps - {p});
      KeyedRemove(kept, rest, snaps, snaps - {p});
      var at := IndexOf(p, kept, rest);
      snapKeys := snapKeys[..at] + snapKeys[at + 1..];
      snaps := snaps - {p};
    }

    method RemoveGone(p: Path, ghost s0: Snaps, ghost kept: seq<Path>, ghost rest: seq<Path>) returns (ghost e: Event)
      requires Tables() && FlagsOnly(s0, snaps) && snapKeys == kept + rest && rest != [] && rest[0] == p
      requires IsGone(snaps, p) && IsGone(s0, p) && forall q :: q in s0 && s0[q].isNew ==> s0[q].seen
      modifies this`snaps, this`snapKeys, this`log, this`offered
      ensures Tables() && FlagsOnly(s0, snaps) && snapKeys == kept + rest[1..]
      ensures snaps.Keys == old(snaps.Keys) - {p} && offered == old(offered) + [e]
      ensures TakesFirst(p, NewOf(old(snapKeys), old(snaps)), s0, e, NewOf(snapKeys, snaps))
    {
      hide NewOf, Proper, Delivered, Delivers, TakesFirst;
      ghost var s := snaps;
      var ev := MatchGone(p, s0);
      FlagsDrop(s0, snaps, p);
      Emit(ev);
      DropGone(p, kept, rest);
      e := ev;
    }

    method IndexOf(p: Path, ghost kept: seq<Path>, ghost rest: seq<Path>) returns (at: nat)
      requires NoDup(snapKeys) && snapKeys == kept + rest && rest != [] && rest[0] == p
      ensures at == |kept|
    {
      assert snapKeys[|kept|] == p;
      at := 0;
      while snapKeys[at] != p
        invariant at <= |kept|
        decreases |kept| - at
      {
        at := at + 1;
      }
    }

    method CountGone() returns (n: nat)
      requires Tables()
      ensures n == 0 <==> GoneOf(snapKeys, snaps) == []
    {
      n := 0;
      for i := 0 to |snapKeys|
        invariant n == 0 <==> forall k :: 0 <= k < i ==> !IsGone(snaps, snapKeys[k])
      {
        if !snaps[snapKeys[i]].seen && !snaps[snapKeys[i]].isNew { n := n + 1; }
      }
      GoneOfNone(snapKeys, snaps);
    }

    /** The matching loop of poll_scan_target: HASH_ITER with deletion of the current
        entry. */
    method PairGone()
      requires Tables() && forall p :: p in snaps && snaps[p].isNew ==> snaps[p].seen
      modifies this`snaps, this`snapKeys, this`log, this`offered
      ensures Tables() && FlagsOnly(old(snaps), snaps)
      ensures forall p :: p in snaps <==> p in old(snaps) && !IsGone(old(snaps), p)
      ensures var r := Pair(GoneOf(old(snapKeys), old(snaps)), NewOf(old(snapKeys), old(snaps)), old(snaps));
              offered == old(offered) + r.0 && NewOf(snapKeys, snaps) == r.1
    {
      hide Proper, Delivered, GoodPath, PairState;
      ghost var s0 := snaps;
      var keys := snapKeys;
      ghost var kept, done := [], [];
      assert keys[0..] == keys && [] + keys == keys && offered + [] == offered;
      PairBegins(s0, keys);
      for i := 0 to |keys|
        invariant Tables() && FlagsOnly(s0, snaps) && snapKeys == kept + keys[i..]
        invariant forall p :: p in s0 && (p in keys[i..] || !IsGone(s0, p)) ==> p in snaps
        invariant forall p :: p in kept ==> !IsGone(s0, p)
        invariant offered == old(offered) + done
        invariant PairState(s0, keys, i, snapKeys, snaps, done)
      {
        kept, done := PairOne(keys[i], s0, keys, i, kept, old(offered), done);
      }
      assert keys[|keys|..] == [];
      PairEnds(s0, keys, snapKeys, snaps, done);
    }

    /** The body of that loop. */
    method PairOne(p: Path, ghost s0: Snaps, ghost keys: seq<Path>, ghost i: nat, ghost kept0: seq<Path>,
                   ghost o: seq<Event>, ghost done0: seq<Event>)
      returns (ghost kept: seq<Path>, ghost done: seq<Event>)
      requires Tables() && FlagsOnly(s0, snaps) && i < |keys| && p == keys[i] && snapKeys == kept0 + keys[i..]
      requires forall q :: q in s0 && s0[q].isNew ==> s0[q].seen
      requires forall q :: q in s0 && (q in keys[i..] || !IsGone(s0, q)) ==> q in snaps
      requires forall q :: q in kept0 ==> !IsGone(s0, q)
      requires offered == o + done0 && PairState(s0, keys, i, snapKeys, snaps, done0)
      modifies this`snaps, this`snapKeys, this`log, this`offered
      ensures Tables() && FlagsOnly(s0, snaps) && snapKeys == kept + keys[i + 1..]
      ensures forall q :: q in s0 && (q in keys[i + 1..] || !IsGone(s0, q)) ==> q in snaps
      ensures forall q :: q in kept ==> !IsGone(s0, q)
      ensures offered == o + done && PairState(s0, keys, i + 1, snapKeys, snaps, done)
    {
      hide Proper, Delivered, GoodPath, TakesFirst, PairState, FlagsOnly, NewOf;
      kept, done := kept0, done0;
      ghost var rest := keys[i..];
      assert rest[1..] == keys[i + 1..] && rest[0] == p && p in rest;
      assert snapKeys[|kept0|] == p;
      GoneAsBefore(s0, snaps, p);
      if !snaps[p].seen && !snaps[p].isNew {
        ghost var was, now := snaps, snapKeys;
        DupFree(kept0, rest);
        ghost var e := RemoveGone(p, s0, kept0, rest);
        done := done0 + [e];
        PairTaken(s0, keys, i, now, was, snapKeys, snaps, done0, e);
      } else {
        kept := kept0 + [p];
        assert kept + keys[i + 1..] == kept0 + rest;
        PairKept(s0, keys, i, snapKeys, snaps, done0);
      }
    }

    /** CREATED for every new snapshot not consumed by a move. */
    method AnnounceNew()
      requires Tables()
      modifies this`snaps, this`log, this`offered
      ensures Tables() && snaps == Lowered(old(snaps))
      ensures offered == old(offered) + NewEvents(NewOf(snapKeys, old(snaps)))
    {
      hide LoweredUpTo, NewOf, NewEvents, Lowered;
      ghost var s0 := snaps;
      AnnounceStart(snapKeys, s0, offered);
      for i := 0 to |snapKeys|
        invariant Tables() && LoweredUpTo(s0, snapKeys, i, snaps)
        invariant offered == old(offered) + NewEvents(NewOf(snapKeys[..i], s0))
      {
        AnnounceOne(i, s0, old(offered));
      }
      AnnounceEnd(snapKeys, s0, snaps);
    }

    method AnnounceOne(i: nat, ghost s0: Snaps, ghost o: seq<Event>)
      requires Tables() && i < |snapKeys| && LoweredUpTo(s0, snapKeys, i, snaps)
      requires offered == o + NewEvents(NewOf(snapKeys[..i], s0))
      modifies this`snaps, this`log, this`offered
      ensures Tables() && LoweredUpTo(s0, snapKeys, i + 1, snaps)
      ensures offered == o + NewEvents(NewOf(snapKeys[..i + 1], s0))
    {
      hide LoweredUpTo, NewOf, NewEvents, Proper, Delivered, GoodPath;
      var p := snapKeys[i];
      NewEventsSnoc(snapKeys, i, s0);
      LowerOne(s0, snapKeys, i, snaps);
      if snaps[p].isNew {
        Emit(Event(Created, p, []));
        Lower(p);
      }
    }

    method Lower(p: Path)
      requires Tables() && p in snaps
      modifies this`snaps
      ensures Tables() && snaps == old(snaps)[p := old(snaps)[p].(isNew := false)]
    {
      snaps := snaps[p := snaps[p].(isNew := false)];
    }

    method ClearFlags()
      requires Tables()
      modifies this`snaps
      ensures Tables() && snaps == Cleared(old(snaps))
    {
      ghost var s0 := snaps;
      for i := 0 to |snapKeys|
        invariant Tables() && snaps.Keys == s0.Keys
        invariant forall k :: 0 <= k < i ==> snaps[snapKeys[k]] == s0[snapKeys[k]].(seen := false, isNew := false)
        invariant forall k :: i <= k < |snapKeys| ==> snaps[snapKeys[k]] == s0[snapKeys[k]]
      {
        var p := snapKeys[i];
        snaps := snaps[p := snaps[p].(seen := false, isNew := false)];
      }
    }

    /** initial_scan_path: every eligible file below d becomes known, no event is
        offered, and the directory cache stays empty. */
    method InitialScan(fs: Tree, d: Path, ghost m: nat)
      requires Tables() && WellFormed(fs) && Reach(cfg, fs, d) && Weight(d) <= m
      requires (forall x :: x in fs ==> Weight(x) <= m) && forall p :: p in snaps ==> !Within(d, p)
      modifies this`snaps, this`snapKeys
      ensures Tables() && Recorded(cfg, fs, d, old(snaps), snaps)
      decreases m - Weight(d), 1
    {
      var names := fs[d].names;
      ghost var s0 := snaps;
      for i := 0 to |names|
        invariant Tables() && RecordedUpTo(cfg, fs, d, names, i, s0, snaps)
      {
        NotYetRecorded(cfg, fs, d, names, i, s0, snaps);
        ghost var s := snaps;
        InitialEntry(fs, d, names[i], m);
        RecordedMore(cfg, fs, d, names, i, s0, s, snaps);
      }
      RecordedAll(cfg, fs, d, names, s0, snaps);
    }

    method InitialEntry(fs: Tree, d: Path, name: string, ghost m: nat)
      requires Tables() && WellFormed(fs) && Reach(cfg, fs, d) && Weight(d) <= m && name in fs[d].names
      requires (forall x :: x in fs ==> Weight(x) <= m) && forall p :: p in snaps ==> !Within(d + [name], p)
      modifies this`snaps, this`snapKeys
      ensures Tables() && Recorded(cfg, fs, d + [name], old(snaps), snaps)
      decreases m - Weight(d), 0
    {
      var child := d + [name];
      Snoc(d, name);
      EntryEligible(cfg, fs, d, name);
      if IsDot(name) || cfg.ignored(name) { return; }
      assert Lists(fs, d, name);
      if IsDir(fs, child) && cfg.recursive {
        ChildWeight(d, name);
        InitialScan(fs, child, m);
        return;
      }
      if IsDir(fs, child) { return; }
      if !cfg.watched(name) { return; }
      if child !in fs { return; }
      TreePaths(fs, child);
      assert Within(child, child);
      snapKeys := snapKeys + [child];
      snaps := snaps[child := Snap(fs[child].mtime, fs[child].size, true, false)];
    }

    /** The world of a scan at time now over tree fs. */
    function WorldAt(fs: Tree, now: nat): (w: World)
      reads this
      ensures SkipSet(w, dirs)
    {
      World(cfg, fs, now, set x | x in dirs && Skips(dirs, fs, now, x))
    }

    /** poll_scan_target on a directory. The scan leaves table mid, having touched
        exactly what the visited paths g call for; then vanished snapshots are paired
        with new ones, and the rest announced. */
    method ScanTarget(fs: Tree, now: nat) returns (ghost mid: Snaps, ghost ms: seq<Path>, ghost g: set<Path>,
                      ghost keys: seq<Path>)
      requires Tables() && WellFormed(fs) && forall x :: x in dirs ==> dirs[x].cachedAt <= now
      modifies this
      ensures Tables()
      ensures var w := old(WorldAt(fs, now));
              && (forall x :: x in g <==> Visits(w, old(dirs.Keys), [], x))
              && SnapsStep(w, g, Cleared(old(snaps)), mid) && DirsStep(w, g, old(dirs), dirs)
              && AllDone(w, old(dirs.Keys), [], mid, dirs)
              && Modifications(Cleared(old(snaps)), mid, ms)
      ensures old(snapKeys) <= keys && Keyed(keys, mid) && Announced(mid, snaps)
      ensures var r := Pair(GoneOf(keys, mid), NewOf(keys, mid), mid);
              offered == old(offered) + ModEvents(ms) + r.0 + NewEvents(r.1)
      ensures old(offered) <= offered
      ensures log == old(log) + Kept(offered[|old(offered)|..], e => Wanted(cfg, e))
      ensures forall x :: x in dirs ==> dirs[x].cachedAt <= now
    {
      hide SnapsStep, DirsStep, AllDone, Modifications, Visits, Kept, Proper, Delivered, Pair, GoneOf, NewOf, Announced;
      var w := WorldAt(fs, now);
      ms, g := WalkTarget(w);
      mid, keys := snaps, snapKeys;
      NewAreSeen(w, g, Cleared(old(snaps)), mid);
      Announce();
      assert old(offered) + offered[|old(offered)|..] == offered;
      DeliveredMore(cfg, old(offered), offered[|old(offered)|..]);
    }

    /** Flags down, then the walk from the root. */
    method WalkTarget(w: World) returns (ghost ms: seq<Path>, ghost g: set<Path>)
      requires Tables() && w.cfg == cfg && WellFormed(w.fs) && SkipSet(w, dirs)
      requires forall x :: x in dirs ==> dirs[x].cachedAt <= w.now
      modifies this
      ensures Tables() && forall x :: x in dirs ==> dirs[x].cachedAt <= w.now
      ensures forall x :: x in g <==> Visits(w, old(dirs.Keys), [], x)
      ensures Progress(w, g, Cleared(old(snaps)), old(dirs), old(offered), snaps, dirs, offered, ms)
      ensures AllDone(w, old(dirs.Keys), [], snaps, dirs) && old(snapKeys) <= snapKeys
    {
      ClearFlags();
      g := VisitSet(w, dirs.Keys);
      ghost var m := WeightBound(w.fs.Keys + dirs.Keys);
      VisitSetClosed(w, dirs.Keys);
      ms := ScanPath(w, [], g, m);
    }

    /** Pairing, if anything vanished, and announcing. */
    method Announce()
      requires Tables() && forall p :: p in snaps && snaps[p].isNew ==> snaps[p].seen
      modifies this`snaps, this`snapKeys, this`log, this`offered
      ensures Tables() && Announced(old(snaps), snaps)
      ensures var r := Pair(GoneOf(old(snapKeys), old(snaps)), NewOf(old(snapKeys), old(snaps)), old(snaps));
              offered == old(offered) + r.0 + NewEvents(r.1)
    {
      var n := CountGone();
      GonePairing(snapKeys, snaps, n);
      if n > 0 { PairGone(); } else { assert offered + [] == offered; }
      AnnounceNew();
    }
  }

  /** The eligible files from d down have joined table s, and nothing else has. */
  ghost predicate Recorded(cfg: Config, fs: Tree, d: Path, s: Snaps, t: Snaps) {
    && (forall p :: p in t <==> p in s || (Within(d, p) && Eligible(cfg, fs, p)))
    && (forall p :: p in t ==> if p in s then t[p] == s[p] else SameStamp(fs, t, p))
  }

  ghost predicate WithinOne(d: Path, names: seq<string>, i: nat, p: Path)
    requires i <= |names|
  {
    exists j :: 0 <= j < i && Within(d + [names[j]], p)
  }

  ghost predicate RecordedUpTo(cfg: Config, fs: Tree, d: Path, names: seq<string>, i: nat, s: Snaps, t: Snaps)
    requires i <= |names|
  {
    && (forall p :: p in t <==> p in s || (WithinOne(d, names, i, p) && Eligible(cfg, fs, p)))
    && (forall p :: p in t ==> if p in s then t[p] == s[p] else SameStamp(fs, t, p))
  }

  lemma NotYetRecorded(cfg: Config, fs: Tree, d: Path, names: seq<string>, i: nat, s: Snaps, t: Snaps)
    requires i < |names| && NoDup(names) && RecordedUpTo(cfg, fs, d, names, i, s, t)
    requires forall p :: p in s ==> !Within(d, p)
    ensures forall p :: p in t ==> !Within(d + [names[i]], p)
  {
    forall p | p in t ensures !Within(d + [names[i]], p) {
      WithinChild(d, names[i], p);
      if WithinOne(d, names, i, p) {
        var j :| 0 <= j < i && Within(d + [names[j]], p);
        WithinChild(d, names[j], p);
      }
    }
  }

  lemma RecordedMore(cfg: Config, fs: Tree, d: Path, names: seq<string>, i: nat, s: Snaps, t: Snaps, u: Snaps)
    requires i < |names| && RecordedUpTo(cfg, fs, d, names, i, s, t) && Recorded(cfg, fs, d + [names[i]], t, u)
    ensures RecordedUpTo(cfg, fs, d, names, i + 1, s, u)
  {
    forall p ensures WithinOne(d, names, i + 1, p) <==> WithinOne(d, names, i, p) || Within(d + [names[i]], p) {
    }
  }

  lemma RecordedAll(cfg: Config, fs: Tree, d: Path, names: seq<string>, s: Snaps, t: Snaps)
    requires WellFormed(fs) && IsDir(fs, d) && names == fs[d].names && RecordedUpTo(cfg, fs, d, names, |names|, s, t)
    ensures Recorded(cfg, fs, d, s, t)
  {
    forall p | Eligible(cfg, fs, p) ensures Within(d, p) <==> WithinOne(d, names, |names|, p) {
      if Within(d, p) {
        assert p != d;
        var c := p[..|d| + 1];
        if |c| < |p| { TreePrefix(fs, p, |c|); }
        assert Parent(c) == d;
        assert Lists(fs, Parent(c), Last(c));
        var j :| 0 <= j < |names| && names[j] == p[|d|];
        WithinChild(d, names[j], p);
      }
      if j :| 0 <= j < |names| && Within(d + [names[j]], p) {
        WithinChild(d, names[j], p);
      }
    }
  }

  /** What there is to record at or below one entry. */
  lemma EntryEligible(cfg: Config, fs: Tree, d: Path, n: string)
    requires WellFormed(fs) && Reach(cfg, fs, d) && n in fs[d].names
    ensures IsDot(n) || cfg.ignored(n) ==> forall p :: Within(d + [n], p) ==> !Eligible(cfg, fs, p)
    ensures !IsDot(n) && !cfg.ignored(n) && IsDir(fs, d + [n]) ==> if cfg.recursive then Reach(cfg, fs, d + [n])
            else forall p :: Within(d + [n], p) ==> !Eligible(cfg, fs, p)
    ensures !IsDot(n) && !cfg.ignored(n) && !IsDir(fs, d + [n]) ==>
            forall p :: Within(d + [n], p) ==> (Eligible(cfg, fs, p) <==> p == d + [n] && cfg.watched(n))
  {
    var c := d + [n];
    Snoc(d, n);
    forall p | Within(c, p) && Eligible(cfg, fs, p)
      ensures !IsDot(n) && !cfg.ignored(n) && (p != c ==> IsDir(fs, c) && cfg.recursive)
    {
      WithinChild(d, n, p);
      if p == c {
        assert Lists(fs, Parent(p), Last(p));
      } else {
        assert |c| < |p| && Parent(p)[|d|] == n;
        TreePrefix(fs, p, |c|);
        assert Lists(fs, Parent(c), Last(c));
      }
    }
    if !IsDot(n) { assert Lists(fs, d, n); }
  }

  lemma NewEventsSnoc(keys: seq<Path>, i: nat, s: Snaps)
    requires i < |keys|
    ensures IsNew(s, keys[i]) ==>
            NewEvents(NewOf(keys[..i + 1], s)) == NewEvents(NewOf(keys[..i], s)) + [Event(Created, keys[i], [])]
    ensures !IsNew(s, keys[i]) ==> NewOf(keys[..i + 1], s) == NewOf(keys[..i], s)
  {
    assert keys[..i + 1] == keys[..i] + [keys[i]];
    NewOfConcat(keys[..i], [keys[i]], s);
    var a, b := NewOf(keys[..i], s), NewOf([keys[i]], s);
    assert b == if IsNew(s, keys[i]) then [keys[i]] else [];
    assert NewEvents(a + b) == NewEvents(a) + NewEvents(b);
    assert NewEvents(b) == if IsNew(s, keys[i]) then [Event(Created, keys[i], [])] else [];
  }

  lemma AnnounceStart(keys: seq<Path>, s: Snaps, o: seq<Event>)
    requires forall p :: p in keys <==> p in s
    ensures LoweredUpTo(s, keys, 0, s) && o == o + NewEvents(NewOf(keys[..0], s))
  {
  }

  lemma AnnounceEnd(keys: seq<Path>, s0: Snaps, s: Snaps)
    requires LoweredUpTo(s0, keys, |keys|, s) && forall p :: p in keys <==> p in s
    ensures keys[..|keys|] == keys && s == Lowered(s0)
  {
    forall p | p in s ensures s[p] == Lowered(s0)[p] {
      var k :| 0 <= k < |keys| && keys[k] == p;
    }
  }

  lemma LowerOne(s0: Snaps, keys: seq<Path>, i: nat, s: Snaps)
    requires i < |keys| && NoDup(keys) && LoweredUpTo(s0, keys, i, s)
    ensures IsNew(s, keys[i]) <==> IsNew(s0, keys[i])
    ensures !s[keys[i]].isNew ==> LoweredUpTo(s0, keys, i + 1, s)
    ensures LoweredUpTo(s0, keys, i + 1, s[keys[i] := s[keys[i]].(isNew := false)])
  {
  }

  function Lowered(s: Snaps): Snaps { map p | p in s :: s[p].(isNew := false) }

  /** The isNew flags of the first i keys have been lowered. */
  ghost predicate LoweredUpTo(s0: Snaps, keys: seq<Path>, i: nat, s: Snaps)
    requires i <= |keys|
  {
    && s.Keys == s0.Keys && (forall k :: 0 <= k < |keys| ==> keys[k] in s)
    && (forall k :: 0 <= k < i ==> s[keys[k]] == s0[keys[k]].(isNew := false))
    && (forall k :: i <= k < |keys| ==> s[keys[k]] == s0[keys[k]])
  }

  function NewEvents(ps: seq<Path>): (es: seq<Event>)
    ensures |es| == |ps|
    ensures forall i :: 0 <= i < |ps| ==> es[i] == Event(Created, ps[i], [])
  {
    seq(|ps|, i requires 0 <= i < |ps| => Event(Created, ps[i], []))
  }

  function Cleared(s: Snaps): Snaps { map p | p in s :: s[p].(seen := false, isNew := false) }

  /** The table after a scan: vanished entries are out, flags are down. */
  ghost predicate Announced(mid: Snaps, s: Snaps) {
    && (forall p :: p in s <==> p in mid && !IsGone(mid, p))
    && (forall p :: p in s ==> s[p] == mid[p].(isNew := false))
  }

  ghost function VisitSet(w: World, known: set<Path>): set<Path> {
    set x | x in w.fs.Keys + known + {[]} && Visits(w, known, [], x)
  }

  lemma VisitSetClosed(w: World, known: set<Path>)
    requires WellFormed(w.fs)
    ensures Closed(w, known, VisitSet(w, known)) && [] in VisitSet(w, known)
    ensures forall x :: x in VisitSet(w, known) <==> Visits(w, known, [], x)
  {
    var g := VisitSet(w, known);
    forall x, e | x in g && Step(w, known, x, e) ensures e in g {
      VisitsStep(w, known, [], x, e);
    }
    forall x | Visits(w, known, [], x) ensures x in g {
      if x != [] { var v := VisitsLast(w, known, [], x); }
    }
  }

  lemma NewAreSeen(w: World, g: set<Path>, s: Snaps, t: Snaps)
    requires SnapsStep(w, g, s, t) && forall p :: p in s ==> !s[p].isNew
    ensures forall p :: p in t && t[p].isNew ==> t[p].seen
  {
  }

  /** With nothing gone the pairing does nothing. */
  lemma GonePairing(keys: seq<Path>, s: Snaps, n: nat)
    requires Keyed(keys, s) && (n == 0 <==> GoneOf(keys, s) == [])
    ensures n == 0 ==> Pair(GoneOf(keys, s), NewOf(keys, s), s) == ([], NewOf(keys, s))
    ensures n == 0 ==> forall p :: p in s ==> !IsGone(s, p)
  {
    GoneOfNone(keys, s);
    if n == 0 {
      forall p | p in s ensures !IsGone(s, p) {
        var k :| 0 <= k < |keys| && keys[k] == p;
      }
    }
  }

  /** What has been done and what the greedy matching still has to do. */
  ghost predicate PairState(s0: Snaps, keys: seq<Path>, i: nat, now: seq<Path>, s: Snaps, done: seq<Event>)
    requires i <= |keys|
  {
    var all := Pair(GoneOf(keys, s0), NewOf(keys, s0), s0);
    var more := Pair(GoneOf(keys[i..], s0), NewOf(now, s), s0);
    done + more.0 == all.0 && more.1 == all.1
  }

  lemma PairMore(s0: Snaps, keys: seq<Path>, i: nat, news: seq<Path>, news': seq<Path>, done: seq<Event>, e: Event)
    requires i < |keys| && IsGone(s0, keys[i])
    requires TakesFirst(keys[i], news, s0, e, news')
    ensures var more, less := Pair(GoneOf(keys[i..], s0), news, s0), Pair(GoneOf(keys[i + 1..], s0), news', s0);
            done + more.0 == (done + [e]) + less.0 && more.1 == less.1
  {
    var rest := keys[i..];
    assert rest[1..] == keys[i + 1..];
    var gone := GoneOf(rest, s0);
    assert gone == [keys[i]] + GoneOf(keys[i + 1..], s0) && gone[1..] == GoneOf(keys[i + 1..], s0);
    var less := Pair(gone[1..], news', s0);
    assert Pair(gone, news, s0).0 == [e] + less.0;
    assert done + ([e] + less.0) == (done + [e]) + less.0;
  }

  lemma PairBegins(s0: Snaps, keys: seq<Path>)
    ensures PairState(s0, keys, 0, keys, s0, [])
  {
    assert keys[0..] == keys;
    var all := Pair(GoneOf(keys, s0), NewOf(keys, s0), s0);
    assert [] + all.0 == all.0;
  }

  lemma PairEnds(s0: Snaps, keys: seq<Path>, now: seq<Path>, s: Snaps, done: seq<Event>)
    requires PairState(s0, keys, |keys|, now, s, done)
    ensures (done, NewOf(now, s)) == Pair(GoneOf(keys, s0), NewOf(keys, s0), s0)
  {
    assert keys[|keys|..] == [];
    assert done + [] == done;
  }

  lemma PairTaken(s0: Snaps, keys: seq<Path>, i: nat, now: seq<Path>, s: Snaps, now': seq<Path>, s': Snaps,
                  done: seq<Event>, e: Event)
    requires i < |keys| && IsGone(s0, keys[i]) && PairState(s0, keys, i, now, s, done)
    requires TakesFirst(keys[i], NewOf(now, s), s0, e, NewOf(now', s'))
    ensures PairState(s0, keys, i + 1, now', s', done + [e])
  {
    PairMore(s0, keys, i, NewOf(now, s), NewOf(now', s'), done, e);
  }

  lemma PairKept(s0: Snaps, keys: seq<Path>, i: nat, now: seq<Path>, s: Snaps, done: seq<Event>)
    requires i < |keys| && !IsGone(s0, keys[i]) && PairState(s0, keys, i, now, s, done)
    ensures PairState(s0, keys, i + 1, now, s, done)
  {
    assert keys[i..][1..] == keys[i + 1..];
  }

  lemma GoneAsBefore(s0: Snaps, s: Snaps, p: Path)
    requires FlagsOnly(s0, s) && p in s && forall q :: q in s0 && s0[q].isNew ==> s0[q].seen
    ensures IsGone(s, p) <==> IsGone(s0, p)
  {
  }

  predicate IsNewOfSize(s: Snaps, p: Path, size: nat) { IsNew(s, p) && s[p].size == size }

  lemma FirstNew(keys: seq<Path>, j: nat, s: Snaps, size: nat, s0: Snaps)
    requires j <= |keys| && forall k :: 0 <= k < j ==> !IsNewOfSize(s, keys[k], size)
    requires j < |keys| ==> IsNewOfSize(s, keys[j], size)
    requires forall p :: p in s ==> p in s0 && s[p].size == s0[p].size
    ensures FirstOfSize(NewOf(keys, s), size, s0) == |NewOf(keys[..j], s)|
    ensures j == |keys| ==> NewOf(keys[..j], s) == NewOf(keys, s)
  {
    var a, b := keys[..j], keys[j..];
    NewOfConcat(a, b, s);
    assert a + b == keys;
    NewOfElements(a, s);
    forall p | p in NewOf(a, s) ensures SizeOf(s0, p) != size {
      var k :| 0 <= k < j && keys[k] == p;
      assert !IsNewOfSize(s, keys[k], size);
    }
    FirstAfter(NewOf(a, s), NewOf(b, s), size, s0);
    if j == |keys| { assert a == keys; }
  }

  /** Removing the front of rest from the table, an item that is not new. */
  lemma NewOfRemove(kept: seq<Path>, rest: seq<Path>, s: Snaps, t: Snaps)
    requires rest != [] && NoDup(kept + rest) && !IsNew(s, rest[0]) && t == s - {rest[0]}
    ensures NewOf(kept + rest[1..], t) == NewOf(kept + rest, s)
  {
    NewOfConcat(kept, rest, s);
    NewOfConcat(kept, rest[1..], t);
    DupFree(kept, rest);
    NewOfSame(kept, s, t);
    NewOfSame(rest[1..], s, t);
  }

  lemma DupFree(kept: seq<Path>, rest: seq<Path>)
    requires rest != [] && NoDup(kept + rest)
    ensures rest[0] !in kept && rest[0] !in rest[1..] && NoDup(kept + rest[1..])
  {
    var all := kept + rest;
    assert all[|kept|] == rest[0];
    forall i | 0 <= i < |kept| ensures kept[i] != rest[0] { assert all[i] == kept[i]; }
    forall i | 1 <= i < |rest| ensures rest[i] != rest[0] { assert all[|kept| + i] == rest[i]; }
    var less := kept + rest[1..];
    forall i, j | 0 <= i < j < |less| ensures less[i] != less[j] {
      assert less[i] == all[if i < |kept| then i else i + 1];
      assert less[j] == all[if j < |kept| then j else j + 1];
    }
  }

  lemma KeyedRemove(kept: seq<Path>, rest: seq<Path>, s: Snaps, t: Snaps)
    requires rest != [] && Keyed(kept + rest, s) && t == s - {rest[0]}
    ensures Keyed(kept + rest[1..], t)
  {
    DupFree(kept, rest);
    assert rest == [rest[0]] + rest[1..];
  }

  lemma {:induction false} GoneOfNone(keys: seq<Path>, s: Snaps)
    ensures GoneOf(keys, s) == [] <==> forall k :: 0 <= k < |keys| ==> !IsGone(s, keys[k])
  {
    if keys != [] {
      GoneOfNone(keys[1..], s);
      assert forall k :: 0 <= k < |keys| - 1 ==> keys[1..][k] == keys[k + 1];
      if forall k :: 0 <= k < |keys| - 1 ==> !IsGone(s, keys[1..][k]) {
        forall k | 1 <= k < |keys| ensures !IsGone(s, keys[k]) { assert keys[k] == keys[1..][k - 1]; }
      }
    }
  }

  lemma {:induction false} FirstAfter(a: seq<Path>, b: seq<Path>, n: nat, s: Snaps)
    requires forall p :: p in a ==> SizeOf(s, p) != n
    ensures FirstOfSize(a + b, n, s) == |a| + FirstOfSize(b, n, s)
  {
    if a == [] {
      assert a + b == b;
    } else {
      assert (a + b)[0] == a[0] && (a + b)[1..] == a[1..] + b;
      FirstAfter(a[1..], b, n, s);
    }
  }
}
