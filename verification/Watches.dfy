/** The two watch tables of src/backend/backend_inotify.c: recursive add, removal, and
    the rescan after a queue overflow. */
module Watches {
  import opened Tables
  import opened Paths
  import opened FileTree
  import opened WatchSpec
  import opened Overflow

  /** The table and the registry are inverse. */
  ghost predicate Inverse(byWd: map<int, Watch>, reg: map<Path, int>) {
    && (forall wd :: wd in byWd ==> byWd[wd].path in reg && reg[byWd[wd].path] == wd)
    && (forall p :: p in reg ==> reg[p] in byWd && byWd[reg[p]].path == p)
  }

  /** The watch registered for each path. */
  ghost function WatchesOf(byWd: map<int, Watch>, reg: map<Path, int>): (m: map<Path, Watch>)
    requires Inverse(byWd, reg)
    ensures m.Keys == reg.Keys
  {
    map p | p in reg :: byWd[reg[p]]
  }

  lemma InverseAdd(byWd: map<int, Watch>, reg: map<Path, int>, w: Watch, wd: int)
    requires Inverse(byWd, reg) && wd !in byWd && w.path !in reg
    ensures Inverse(byWd[wd := w], reg[w.path := wd])
    ensures WatchesOf(byWd[wd := w], reg[w.path := wd]) == WatchesOf(byWd, reg)[w.path := w]
  {
  }

  lemma InverseRemove(byWd: map<int, Watch>, reg: map<Path, int>, p: Path)
    requires Inverse(byWd, reg) && p in reg
    ensures Inverse(byWd - {reg[p]}, reg - {p})
    ensures WatchesOf(byWd - {reg[p]}, reg - {p}) == WatchesOf(byWd, reg) - {p}
  {
  }

  datatype Removal = Removed | Crashed

  /** Every registered path has its watch in the table. */
  ghost predicate OneWay(byWd: map<int, Watch>, reg: map<Path, int>) {
    forall p :: p in reg ==> reg[p] in byWd && byWd[reg[p]].path == p
  }

  /** Inverse tables are both empty or both not. */
  lemma RegistryOfAll(byWd: map<int, Watch>, reg: map<Path, int>, paths: seq<Path>)
    requires Inverse(byWd, reg) && Ordered(paths, reg)
    ensures paths == [] <==> reg == map[]
    ensures OneWay(byWd, reg) && OneWay(byWd, map[])
    ensures Inverse(byWd, map[]) <==> reg == map[]
  {
    var none: map<Path, int> := map[];
    if reg != none {
      var p :| p in reg;
      var wd := reg[p];
      assert p in paths && wd in byWd;
      assert byWd[wd].path !in none;
      assert !Inverse(byWd, none);
    } else {
      assert Inverse(byWd, none);
    }
    if paths != [] { assert paths[0] in paths; }
  }

  /** The watches whose descriptor no registered path has. */
  ghost function Unlisted(byWd: map<int, Watch>, reg: map<Path, int>): map<int, Watch> {
    map wd | wd in byWd && wd !in reg.Values :: byWd[wd]
  }

  /** The registry on the paths of ps. */
  ghost function Listed(reg: map<Path, int>, ps: seq<Path>): map<Path, int> { map p | p in reg && p in ps :: reg[p] }

  ghost predicate Keeping(r0: map<Path, int>, reg: map<Path, int>) {
    forall p :: p in reg ==> p in r0 && reg[p] == r0[p]
  }

  lemma UnlistedMore(b0: map<int, Watch>, r0: map<Path, int>, order: seq<Path>, i: nat)
    requires i < |order| && order[i] in r0
    ensures Unlisted(b0, Listed(r0, order[..i + 1])) == Unlisted(b0, Listed(r0, order[..i])) - {r0[order[i]]}
  {
    var a, b := Listed(r0, order[..i]), Listed(r0, order[..i + 1]);
    assert order[..i + 1] == order[..i] + [order[i]];
    forall wd ensures wd in b.Values <==> wd in a.Values || wd == r0[order[i]] {
      if wd in b.Values {
        var p :| p in b && b[p] == wd;
        assert p != order[i] ==> p in a && a[p] == wd;
      }
      if wd in a.Values {
        var p :| p in a && a[p] == wd;
        assert b[p] == wd;
      }
      assert b[order[i]] == r0[order[i]];
    }
  }

  lemma UnlistedEnd(b0: map<int, Watch>, r0: map<Path, int>, order: seq<Path>, byWd: map<int, Watch>, paths: seq<Path>,
                    reg: map<Path, int>)
    requires Ordered(order, r0) && Ordered(paths, reg) && paths == []
    requires byWd == Unlisted(b0, Listed(r0, order[..|order|]))
    ensures byWd == Unlisted(b0, r0) && reg == map[]
    ensures Inverse(b0, r0) ==> byWd == map[]
  {
    assert order[..|order|] == order && Listed(r0, order) == r0;
    assert forall p :: p in reg ==> p in paths;
    if Inverse(b0, r0) {
      forall wd | wd in b0 ensures wd in r0.Values { assert r0[b0[wd].path] == wd; }
    }
  }

  lemma NothingListed(wds: seq<int>, byWd: map<int, Watch>)
    requires Ordered(wds, byWd)
    ensures byWd == map[] ==> wds == []
  {
    if wds != [] { assert wds[0] in wds; }
  }

  /** The first i entries of the old table have been looked at. */
  ghost predicate Pruned(a: map<Path, Watch>, b: map<Path, Watch>, dir: Path, order: seq<Path>, i: nat)
    requires i <= |order|
  {
    && (forall p :: p in b ==> p in a && b[p] == a[p])
    && (forall p :: p in a && p !in b ==> IsBelow(dir, p))
    && (forall j :: 0 <= j < i ==> !(order[j] in b && IsBelow(dir, order[j])))
    && (forall j :: i <= j < |order| ==> order[j] in b)
  }

  lemma PrunedMore(a: map<Path, Watch>, b: map<Path, Watch>, dir: Path, order: seq<Path>, i: nat)
    requires i < |order| && NoDup(order) && Pruned(a, b, dir, order, i)
    ensures Pruned(a, if IsBelow(dir, order[i]) then b - {order[i]} else b, dir, order, i + 1)
  {
  }

  lemma PrunedAll(a: map<Path, Watch>, b: map<Path, Watch>, dir: Path, order: seq<Path>)
    requires Pruned(a, b, dir, order, |order|) && forall p :: p in a ==> p in order
    ensures b == Less(a, BelowPath(dir))
  {
    forall p | p in a ensures p in b <==> !IsBelow(dir, p) {
      var j :| 0 <= j < |order| && order[j] == p;
    }
  }

  /** The paths of the watches, in table order. */
  ghost function PathsOf(wds: seq<int>, byWd: map<int, Watch>): (ps: seq<Path>)
    requires forall j :: 0 <= j < |wds| ==> wds[j] in byWd
    ensures |ps| == |wds| && forall j :: 0 <= j < |wds| ==> ps[j] == byWd[wds[j]].path
  {
    seq(|wds|, j requires 0 <= j < |wds| => byWd[wds[j]].path)
  }

  lemma LessDir(a: map<Path, Watch>, dir: Path)
    ensures Less(a, BelowPath(dir)) - {dir} == Less(a, WithinPath(dir))
  {
    forall p ensures Within(dir, p) <==> p == dir || IsBelow(dir, p) {
      WithinCases(dir, p);
    }
  }

  lemma PathsOfTable(wds: seq<int>, byWd: map<int, Watch>, reg: map<Path, int>)
    requires Ordered(wds, byWd) && Inverse(byWd, reg)
    ensures NoDup(PathsOf(wds, byWd)) && forall p :: p in PathsOf(wds, byWd) <==> p in reg
  {
    var ps := PathsOf(wds, byWd);
    forall j | 0 <= j < |wds| ensures ps[j] in reg && reg[ps[j]] == wds[j] {
      var wd := wds[j];
      assert wd in byWd;
      assert ps[j] == byWd[wd].path;
    }
    forall p | p in reg ensures p in ps {
      var j :| 0 <= j < |wds| && wds[j] == reg[p];
      assert ps[j] == p;
    }
    forall i, j | 0 <= i < j < |ps| ensures ps[i] != ps[j] {
      assert reg[ps[i]] == wds[i] && reg[ps[j]] == wds[j];
    }
  }

  lemma PathsOfGrown(wds: seq<int>, byWd: map<int, Watch>, wds': seq<int>, byWd': map<int, Watch>)
    requires (forall j :: 0 <= j < |wds| ==> wds[j] in byWd) && (forall j :: 0 <= j < |wds'| ==> wds'[j] in byWd')
    requires wds <= wds' && forall wd :: wd in byWd ==> wd in byWd' && byWd'[wd] == byWd[wd]
    ensures PathsOf(wds, byWd) <= PathsOf(wds', byWd')
  {
    forall j | 0 <= j < |wds| ensures PathsOf(wds, byWd)[j] == PathsOf(wds', byWd')[j] {
      assert wds'[j] == wds[j];
    }
  }

  /** All that is known of the rescan when it is about to handle entry el. */
  ghost predicate Rescanning(willing: bool, fs: Tree, a: map<Path, Watch>, table: seq<Path>, b: map<Path, Watch>,
                             order: seq<Path>, el: int, count: nat, len: nat) {
    && Extends(fs, a, b)
    && (willing ==> Iterating(fs, a, table, b, order, el, count, len))
    && (willing && AllPlain(a) ==> Sweeping(fs, a, b))
  }

  lemma RescanningMore(willing: bool, fs: Tree, a: map<Path, Watch>, table: seq<Path>, b: map<Path, Watch>,
                       order: seq<Path>,
                       el: nat, len: nat, c: map<Path, Watch>, order': seq<Path>)
    requires WellFormed(fs) && Rescanning(willing, fs, a, table, b, order, el, el, len) && el < |order|
    requires Extends(fs, b, c) && order <= order' && IsTable(order', c) && (willing ==> c == Round(fs, b, order[el]))
    ensures Rescanning(willing, fs, a, table, c, order', if el + 1 < |order| then el + 1 else -1, el + 1,
                       if el + 1 == |table| then |order'| else len)
  {
    ExtendsTrans(fs, a, b, c);
    if willing { IteratingMore(fs, a, table, b, order, el, len, order'); }
    if willing && AllPlain(a) { SweepMore(fs, a, b, order[el]); }
  }

  lemma ExtendsTrans(fs: Tree, a: map<Path, Watch>, b: map<Path, Watch>, c: map<Path, Watch>)
    requires Extends(fs, a, b) && Extends(fs, b, c)
    ensures Extends(fs, a, c)
  {
  }

  lemma RescanningEnd(willing: bool, fs: Tree, a: map<Path, Watch>, table: seq<Path>, b: map<Path, Watch>,
                      order: seq<Path>,
                      count: nat, len: nat)
    requires Rescanning(willing, fs, a, table, b, order, -1, count, len)
    ensures Extends(fs, a, b)
    ensures willing ==> Outcome(fs, a, table, b) && forall f :: Active(fs, a, f) ==> ChildrenIn(fs, b, f)
    ensures willing && AllPlain(a) ==> Sweeping(fs, a, b) && forall p :: p in b <==> p in a || Swept(fs, a, p)
  {
    hide Extends, Iterating, Sweeping, Outcome, ChildrenIn, Swept, AllPlain;
    if willing { IteratingEnd(fs, a, table, b, order, count, len); }
    if willing && AllPlain(a) { SweepDone(fs, a, b); }
  }

  lemma RescanningStart(willing: bool, fs: Tree, a: map<Path, Watch>, table: seq<Path>)
    requires IsTable(table, a)
    ensures Rescanning(willing, fs, a, table, a, table, if |table| > 0 then 0 else -1, 0, 0)
  {
  }

  /** swatcher_inotify with the registry of swatcher_internal. The kernel's answers
      are those of an arbitrary function of the call, the descriptors in use and the
      path; a negative answer is a failure. */
  class Inotify {
    const root: string
    const kernel: (nat, set<int>, Path) -> int
    var wds: seq<int>
    var byWd: map<int, Watch>
    var paths: seq<Path>
    var reg: map<Path, int>
    var watchCount: int
    var calls: nat

    /** A fresh path gets a descriptor not in the table. */
    ghost predicate Honest() { forall n, s, p :: kernel(n, s, p) !in s }

    ghost predicate Willing() { forall n, s, p :: kernel(n, s, p) >= 0 }

    ghost predicate Valid()
      reads this
    {
      && Honest() && Ordered(wds, byWd) && Ordered(paths, reg) && Inverse(byWd, reg)
      && watchCount == |wds| && |wds| == |paths|
      && (forall p :: p in reg ==> GoodPath(p))
    }

    /** What is watched. */
    ghost function Watched(): (m: map<Path, Watch>)
      reads this
      requires Valid()
      ensures m.Keys == reg.Keys
    {
      WatchesOf(byWd, reg)
    }

    /** The paths of the watches in table order. */
    ghost function Order(): (ps: seq<Path>)
      reads this
      requires Valid()
      ensures |ps| == |wds| && IsTable(ps, Watched()) && forall j :: 0 <= j < |wds| ==> ps[j] == byWd[wds[j]].path
    {
      PathsOfTable(wds, byWd, reg);
      PathsOf(wds, byWd)
    }

    constructor (root: string, kernel: (nat, set<int>, Path) -> int)
      requires forall n, s, p :: kernel(n, s, p) !in s
      ensures Valid() && Watched() == map[] && this.kernel == kernel && this.root == root
    {
      this.root, this.kernel := root, kernel;
      wds, byWd, paths, reg, watchCount, calls := [], map[], [], map[], 0, 0;
    }

    /** The iterations in progress may rely on what a growing table keeps. */
    twostate predicate Grown()
      reads this
    {
      old(wds) <= wds && forall wd :: wd in old(byWd) ==> wd in byWd && byWd[wd] == old(byWd)[wd]
    }

    /** inotify_add_single. */
    method AddSingle(w: Watch) returns (ok: bool)
      requires Valid() && GoodPath(w.path)
      modifies this
      ensures Valid() && Grown()
      ensures ok ==> w.path !in old(reg) && Watched() == old(Watched())[w.path := w]
      ensures !ok ==> Watched() == old(Watched()) && (Willing() ==> w.path in old(reg))
    {
      if w.path in reg { return false; }
      var wd := kernel(calls, byWd.Keys, w.path);
      calls := calls + 1;
      if wd < 0 { return false; }
      assert wd !in byWd.Keys;
      Register(w, wd);
      ok := true;
    }

    method Register(w: Watch, wd: int)
      requires Valid() && GoodPath(w.path) && w.path !in reg && wd !in byWd
      modifies this`wds, this`byWd, this`paths, this`reg, this`watchCount
      ensures Valid() && Watched() == old(Watched())[w.path := w]
      ensures wds == old(wds) + [wd] && byWd == old(byWd)[wd := w]
    {
      OrderedAdd(wds, byWd, wd, w);
      OrderedAdd(paths, reg, w.path, wd);
      InverseAdd(byWd, reg, w, wd);
      wds, byWd := wds + [wd], byWd[wd := w];
      watchCount := watchCount + 1;
      paths, reg := paths + [w.path], reg[w.path := wd];
    }

    /** inotify_add_recursive_locked: besides what was watched, exactly what the
        spec wants below w becomes watched, and w itself unless told otherwise. */
    method AddRecursive(fs: Tree, w: Watch, dontAddSelf: bool, ghost m: nat) returns (ok: bool)
      requires Valid() && WellFormed(fs) && w.path in fs && w.isDir == IsDir(fs, w.path)
      requires Weight(w.path) <= m && forall x :: x in fs ==> Weight(x) <= m
      modifies this
      ensures Valid() && Grown()
      ensures Grows(Willing(), fs, w.spec, old(Watched()), Watched(),
                    if w.isDir then Below(fs, w) + Self(w, dontAddSelf) else Self(w, false))
      ensures Willing() ==> (ok <==> (w.isDir && dontAddSelf) || w.path !in old(reg))
      decreases m - Weight(w.path), 2
    {
      TreePaths(fs, w.path);
      ghost var before := Watched();
      if !w.isDir {
        ok := AddSingle(w);
        GrowsSelf(Willing(), fs, w, before, Watched(), ok);
        return;
      }
      AddEntries(fs, w, m);
      assert Below(fs, w) + Self(w, true) == Below(fs, w);
      if dontAddSelf { return true; }
      ghost var now := Watched();
      ok := AddSingle(w);
      GrowsSelf(Willing(), fs, w, now, Watched(), ok);
      GrowsTrans(Willing(), fs, w.spec, before, now, Watched(), Below(fs, w), Self(w, false));
    }

    /** Its loop over the directory's entries. */
    method AddEntries(fs: Tree, w: Watch, ghost m: nat)
      requires Valid() && WellFormed(fs) && IsDir(fs, w.path)
      requires Weight(w.path) <= m && forall x :: x in fs ==> Weight(x) <= m
      modifies this
      ensures Valid() && Grown()
      ensures Grows(Willing(), fs, w.spec, old(Watched()), Watched(), Below(fs, w))
      ensures w.path in reg <==> w.path in old(reg)
      decreases m - Weight(w.path), 1
    {
      ghost var before := Watched();
      var names := fs[w.path].names;
      for i := 0 to |names|
        invariant Valid() && Grown()
        invariant Grows(Willing(), fs, w.spec, before, Watched(), Entries(fs, w, names, i))
      {
        ghost var now := Watched();
        AddEntry(fs, w, names[i], m);
        GrowsTrans(Willing(), fs, w.spec, before, now, Watched(), Entries(fs, w, names, i), Entry(fs, w, names[i]));
      }
      EntriesAll(fs, w);
    }

    /** The body of its loop. */
    method AddEntry(fs: Tree, w: Watch, name: string, ghost m: nat)
      requires Valid() && WellFormed(fs) && IsDir(fs, w.path) && name in fs[w.path].names
      requires Weight(w.path) <= m && forall x :: x in fs ==> Weight(x) <= m
      modifies this
      ensures Valid() && Grown()
      ensures Grows(Willing(), fs, w.spec, old(Watched()), Watched(), Entry(fs, w, name))
      decreases m - Weight(w.path), 0
    {
      if w.spec.ignored(name) || IsDot(name) {
        EntrySkipped(fs, w, name);
        return;
      }
      var child := w.path + [name];
      assert Lists(fs, w.path, name);
      ChildWeight(w.path, name);
      if IsDir(fs, child) {
        EntryOfDir(fs, w, name);
        var skipSelf := w.spec.options == FILES || w.spec.options == SYMLINKS || !w.spec.watched(name);
        var _ := AddRecursive(fs, Watch(child, true, w.spec), skipSelf, m);
      } else {
        EntryOfFile(fs, w, name);
        TreePaths(fs, child);
        if w.spec.watched(name) && (w.spec.options % 2 == 1 || w.spec.options == 0) {
          var _ := AddSingle(Watch(child, false, w.spec));
        }
      }
    }

    /** The deletions common to every way of ending a watch. */
    method Unregister(p: Path)
      requires Valid() && p in reg
      modifies this`wds, this`byWd, this`paths, this`reg, this`watchCount
      ensures Valid() && Watched() == old(Watched()) - {p}
      ensures wds == Without(old(wds), old(reg)[p]) && byWd == old(byWd) - {old(reg)[p]}
      ensures paths == Without(old(paths), p)
    {
      OrderedRemove(wds, byWd, reg[p]);
      OrderedRemove(paths, reg, p);
      InverseRemove(byWd, reg, p);
      wds, byWd := Without(wds, reg[p]), byWd - {reg[p]};
      watchCount := watchCount - 1;
      paths, reg := Without(paths, p), reg - {p};
    }

    /** inotify_remove_children: HASH_ITER with deletion of the current entry. */
    method RemoveChildren(dir: Path)
      requires Valid() && GoodPath(dir) && dir != []
      modifies this`wds, this`byWd, this`paths, this`reg, this`watchCount
      ensures Valid() && Watched() == Less(old(Watched()), BelowPath(dir))
    {
      ghost var before := Watched();
      var order := wds;
      ghost var table := PathsOf(wds, byWd);
      PathsOfTable(wds, byWd, reg);
      for i := 0 to |order|
        invariant Valid() && Pruned(before, Watched(), dir, table, i)
        invariant forall j :: i <= j < |order| ==> order[j] in byWd && byWd[order[j]].path == table[j]
      {
        PrunedMore(before, Watched(), dir, table, i);
        RemoveIfBelow(dir, order[i]);
      }
      PrunedAll(before, Watched(), dir, table);
    }

    /** The body of its loop. */
    method RemoveIfBelow(dir: Path, wd: int)
      requires Valid() && GoodPath(dir) && dir != [] && wd in byWd
      modifies this`wds, this`byWd, this`paths, this`reg, this`watchCount
      ensures Valid()
      ensures var p := old(byWd)[wd].path;
              Watched() == (if IsBelow(dir, p) then old(Watched()) - {p} else old(Watched())) &&
              byWd == if IsBelow(dir, p) then old(byWd) - {wd} else old(byWd)
    {
      var p := byWd[wd].path;
      BelowTestMeaning(root, dir, p);
      if BelowTest(Render(root, p), Render(root, dir)) {
        Unregister(p);
      }
    }

    /** inotify_handle_dynamic_rmdir: exactly the directory and what is below it,
        by whole components, stops being watched. */
    method HandleRmdir(parent: Path, name: string)
      requires Valid() && GoodPath(parent) && GoodName(name)
      modifies this`wds, this`byWd, this`paths, this`reg, this`watchCount
      ensures Valid() && Watched() == Less(old(Watched()), WithinPath(parent + [name]))
    {
      var dir := parent + [name];
      ghost var before := Watched();
      RemoveChildren(dir);
      LessDir(before, dir);
      if dir in reg { Unregister(dir); }
    }

    /** What is left of Valid() when the registry may have lost its entries. */
    ghost predicate Linked()
      reads this
    {
      Ordered(wds, byWd) && Ordered(paths, reg) && watchCount == |wds| && OneWay(byWd, reg)
    }

    /** swatcher_remove of a created target with path p; own says that it is this very
        target that is registered under p. For any other target the deletion from the
        registry finds no neighbours, takes it for the last entry, and frees the
        registry, while the descriptor table stays; on an empty registry it follows a
        null pointer. */
    method Remove(p: Path, own: bool) returns (r: Removal)
      requires Valid() && (own ==> p in reg)
      modifies this`wds, this`byWd, this`paths, this`reg, this`watchCount
      ensures own ==> r == Removed && Valid() && Watched() == old(Watched()) - {p}
      ensures !own ==> wds == old(wds) && byWd == old(byWd) && watchCount == old(watchCount)
      ensures !own ==> r == (if old(reg) == map[] then Crashed else Removed) && reg == map[] && paths == []
      ensures r.Removed? ==> Linked() && (Inverse(byWd, reg) <==> own)
      ensures r.Removed? && (own <==> p in old(reg)) ==> (Inverse(byWd, reg) <==> p in old(reg))
    {
      RegistryOfAll(byWd, reg, paths);
      if own {
        Unregister(p);
        return Removed;
      }
      if paths == [] { return Crashed; }
      paths, reg := [], map[];
      return Removed;
    }

    /** The target loop of swatcher_cleanup, over the registry: what is registered
        leaves both tables, which empties them if they were inverse. */
    method Cleanup()
      requires Linked()
      modifies this`wds, this`byWd, this`paths, this`reg, this`watchCount
      ensures Linked() && paths == [] && reg == map[]
      ensures byWd == Unlisted(old(byWd), old(reg))
      ensures old(Inverse(byWd, reg)) ==> wds == [] && byWd == map[] && watchCount == 0
    {
      var order := paths;
      ghost var b0, r0 := byWd, reg;
      for i := 0 to |order|
        invariant Linked() && paths == order[i..] && Keeping(r0, reg)
        invariant byWd == Unlisted(b0, Listed(r0, order[..i]))
      {
        assert order[i..][0] == order[i] && order[i] in paths;
        UnlistedMore(b0, r0, order, i);
        assert reg[order[i]] == r0[order[i]];
        EndWatch(order[i]);
      }
      UnlistedEnd(b0, r0, order, byWd, paths, reg);
      NothingListed(wds, byWd);
    }

    /** The body of that loop. */
    method EndWatch(p: Path)
      requires Linked() && p in reg
      modifies this`wds, this`byWd, this`paths, this`reg, this`watchCount
      ensures Linked() && byWd == old(byWd) - {old(reg)[p]} && paths == Without(old(paths), p) && reg == old(reg) - {p}
    {
      OrderedRemove(wds, byWd, reg[p]);
      OrderedRemove(paths, reg, p);
      wds, byWd := Without(wds, reg[p]), byWd - {reg[p]};
      watchCount := watchCount - 1;
      paths, reg := Without(paths, p), reg - {p};
    }

    /** inotify_handle_dynamic_mkdir. */
    method HandleMkdir(fs: Tree, parent: Watch, name: string)
      requires Valid() && WellFormed(fs) && GoodPath(parent.path) && GoodName(name)
      modifies this
      ensures Valid() && Grown()
      ensures var w := Watch(parent.path + [name], IsDir(fs, parent.path + [name]), parent.spec);
              if parent.spec.recursive && w.path in fs && w.path !in old(reg) then
                Grows(Willing(), fs, w.spec, old(Watched()), Watched(),
                      if w.isDir then Below(fs, w) + Self(w, false) else Self(w, false))
              else Watched() == old(Watched())
    {
      if !parent.spec.recursive { return; }
      var path := parent.path + [name];
      if path in reg { return; }
      if path !in fs { return; }
      ghost var m := WeightBound(fs.Keys);
      var _ := AddRecursive(fs, Watch(path, IsDir(fs, path), parent.spec), false, m);
    }

    /** inotify_rescan_all: HASH_ITER over a table that grows meanwhile. With no failed
        add the outcome is known, and without patterns it is a whole sweep. */
    method RescanAll(fs: Tree)
      requires Valid() && WellFormed(fs)
      modifies this
      ensures Valid() && Extends(fs, old(Watched()), Watched())
      ensures Willing() ==> Outcome(fs, old(Watched()), old(Order()), Watched())
      ensures Willing() ==> forall f :: Active(fs, old(Watched()), f) ==> ChildrenIn(fs, Watched(), f)
      ensures Willing() && AllPlain(old(Watched())) ==>
              Sweeping(fs, old(Watched()), Watched()) &&
              forall p :: p in reg <==> p in old(reg) || Swept(fs, old(Watched()), p)
    {
      hide Extends, Rescanning, Sweeping, Outcome, Active, ChildrenIn, Swept, AllPlain;
      ghost var a, table := Watched(), Order();
      ghost var willing := Willing();
      ghost var count, len := SweepTable(fs, willing, a, table);
      RescanningEnd(willing, fs, a, table, Watched(), Order(), count, len);
    }

    /** Its loop: el and tmp are the places of the current and the next entry, -1 for
        none; the next one is fixed before the current one is handled. */
    method SweepTable(fs: Tree, ghost willing: bool, ghost a: map<Path, Watch>, ghost table: seq<Path>)
      returns (ghost count: nat, ghost len: nat)
      requires Valid() && WellFormed(fs) && Watched() == a && Order() == table && willing == Willing()
      modifies this
      ensures Valid() && Rescanning(willing, fs, a, table, Watched(), Order(), -1, count, len)
    {
      hide Rescanning;
      var el := if |wds| > 0 then 0 else -1;
      var tmp := if |wds| > 1 then 1 else -1;
      count, len := 0, 0;
      RescanningStart(willing, fs, a, table);
      while el != -1
        invariant Valid() && Cursor(el, tmp, count, |wds|)
        invariant Rescanning(willing, fs, a, table, Watched(), Order(), el, count, len)
        decreases el != -1, |fs.Keys + a.Keys| - count
      {
        len := RescanStep(fs, el, tmp, willing, a, table, len);
        count := el + 1;
        el := tmp;
        if el != -1 { tmp := if el + 1 < |wds| then el + 1 else -1; }
      }
    }

    /** One round of that loop. */
    method RescanStep(fs: Tree, el: nat, ghost tmp: int, ghost willing: bool, ghost a: map<Path, Watch>,
                      ghost table: seq<Path>, ghost len: nat)
      returns (ghost len': nat)
      requires Valid() && WellFormed(fs) && Cursor(el, tmp, el, |wds|) && willing == Willing()
      requires Rescanning(willing, fs, a, table, Watched(), Order(), el, el, len)
      modifies this
      ensures Valid() && el < |fs.Keys + a.Keys| && |old(wds)| <= |wds|
      ensures Rescanning(willing, fs, a, table, Watched(), Order(), tmp, el + 1, len')
    {
      ghost var b, order := Watched(), Order();
      TableBound(fs, a, b, wds, paths, reg);
      RescanWatch(fs, el, willing);
      len' := if el + 1 == |table| then |Order()| else len;
      RescanningMore(willing, fs, a, table, b, order, el, len, Watched(), Order());
    }

    /** The body of that loop. */
    method RescanWatch(fs: Tree, el: nat, ghost willing: bool)
      requires Valid() && WellFormed(fs) && el < |wds| && willing == Willing()
      modifies this
      ensures Valid() && Extends(fs, old(Watched()), Watched()) && old(Order()) <= Order()
      ensures willing ==> Watched() == Round(fs, old(Watched()), old(Order()[el]))
    {
      var wd := wds[el];
      assert wd in byWd;
      var current := byWd[wd];
      ghost var b := Watched();
      assert current.path in reg && b[current.path] == current;
      if current.spec.recursive && current.isDir && IsDir(fs, current.path) {
        RescanDirectory(fs, current, willing);
      } else {
        RoundOfNothing(fs, b, current.path);
      }
      PathsOfGrown(old(wds), old(byWd), wds, byWd);
    }

    /** The loop over the entries of a watched directory. It asks for no pattern. */
    method RescanDirectory(fs: Tree, current: Watch, ghost willing: bool)
      requires Valid() && WellFormed(fs) && willing == Willing()
      requires current.path in reg && Watched()[current.path] == current && Active(fs, Watched(), current.path)
      modifies this
      ensures Valid() && Grown() && Extends(fs, old(Watched()), Watched())
      ensures willing ==> Watched() == Round(fs, old(Watched()), current.path)
    {
      var f := current.path;
      var names := fs[f].names;
      ghost var b := Watched();
      for i := 0 to |names|
        invariant Valid() && Grown() && Extends(fs, b, Watched())
        invariant willing ==> RoundUpTo(fs, b, f, names, i, Watched())
      {
        ghost var c := Watched();
        RescanEntry(fs, current, names[i], willing);
        if willing { RoundMore(fs, b, f, names, i, c, Watched()); }
      }
      if willing { RoundAll(fs, b, f, Watched()); }
    }

    method RescanEntry(fs: Tree, current: Watch, name: string, ghost willing: bool)
      requires Valid() && WellFormed(fs) && willing == Willing()
      requires current.path in reg && Watched()[current.path] == current && Active(fs, Watched(), current.path)
      requires name in fs[current.path].names
      modifies this
      ensures Valid() && Grown() && Extends(fs, old(Watched()), Watched())
      ensures var w := Watch(current.path + [name], true, current.spec);
              if Missed(fs, old(Watched()), current.path, name)
              then Grows(willing, fs, w.spec, old(Watched()), Watched(), Below(fs, w) + Self(w, false))
              else Watched() == old(Watched())
    {
      var f := current.path;
      if !IsDot(name) && IsDir(fs, f + [name]) && f + [name] !in reg {
        assert Lists(fs, f, name);
        HandleMkdir(fs, current, name);
      }
    }

    /** swatcher_add. */
    method Add(fs: Tree, w: Watch, hasWatchPatterns: bool) returns (ok: bool)
      requires Valid() && WellFormed(fs) && w.path in fs && w.isDir == IsDir(fs, w.path)
      modifies this
      ensures Valid() && Grown()
      ensures Grows(Willing(), fs, w.spec, old(Watched()), Watched(),
                    if w.isDir && w.spec.recursive
                    then Below(fs, w) + Self(w, hasWatchPatterns || !TakesDir(w.spec.options)) else Self(w, false))
    {
      ghost var m := WeightBound(fs.Keys);
      if w.isDir && w.spec.recursive {
        var dontAddSelf := w.spec.options == FILES || w.spec.options == SYMLINKS || hasWatchPatterns;
        ok := AddRecursive(fs, w, dontAddSelf, m);
      } else {
        TreePaths(fs, w.path);
        ok := AddSingle(w);
        GrowsSelf(Willing(), fs, w, old(Watched()), Watched(), ok);
      }
    }
  }

  function OneFile(): Tree { map[[] := Dir(0, 0, ["f"]), ["f"] := File(0, 0)] }

  lemma OneFileWellFormed()
    ensures WellFormed(OneFile())
  {
    Sprout(Root(), [], "f", ["f"], OneFile());
  }

  /** A recursive target that takes files only is added without being registered
      itself; removing it, as the next call, frees the registry and leaves the watch of
      the file to the table, where not even the loop of swatcher_cleanup finds it. */
  method RemoveFilesTarget(t: Inotify, ignored: string -> bool)
    requires t.Valid() && t.Watched() == map[] && t.Willing() && !ignored("f")
    modifies t
    ensures t.Linked() && t.reg == map[] && !Inverse(t.byWd, t.reg)
    ensures exists wd :: wd in t.byWd && t.byWd[wd].path == ["f"]
  {
    var fs := OneFile();
    OneFileWellFormed();
    var spec := Spec(true, FILES, ignored, _ => true);
    var _ := t.Add(fs, Watch([], true, spec), false);
    assert ["f"] in t.Watched() && [] !in t.Watched();
    ghost var wd := t.reg[["f"]];
    assert t.byWd[wd].path == ["f"];
    var r := t.Remove([], false);
    t.Cleanup();
    assert wd in t.byWd;
  }

  lemma TableBound(fs: Tree, a: map<Path, Watch>, b: map<Path, Watch>, wds: seq<int>, paths: seq<Path>, reg: map<Path,
                   int>)
    requires Ordered(paths, reg) && b.Keys == reg.Keys && |wds| == |paths|
    requires forall p :: p in b && p !in a ==> p in fs
    ensures |wds| <= |fs.Keys + a.Keys|
  {
    forall p | p in paths ensures p in fs.Keys + a.Keys { assert p in b; }
    NoDupBound(paths, fs.Keys + a.Keys);
  }
}
