/** The rescan of src/backend/backend_inotify.c after a queue overflow, stated on
    values: what it registers, and when that is all it should and nothing else. */
module Overflow {
  import opened Tables
  import opened Paths
  import opened FileTree
  import opened WatchSpec

  /** No patterns, and all kinds of entries. */
  ghost predicate Plain(spec: Spec) { spec.options == 0 && forall n :: !spec.ignored(n) && spec.watched(n) }

  /** A watch the rescan looks at: recorded as a recursive directory, and one still. */
  predicate Active(fs: Tree, a: map<Path, Watch>, f: Path) {
    f in a && a[f].spec.recursive && a[f].isDir && IsDir(fs, f)
  }

  /** f + [n] is a directory that rescanning f finds unregistered. */
  predicate Missed(fs: Tree, a: map<Path, Watch>, f: Path, n: string) {
    Active(fs, a, f) && Lists(fs, f, n) && IsDir(fs, f + [n]) && f + [n] !in a
  }

  /** p is, or is below, such a directory. */
  ghost predicate Swept(fs: Tree, a: map<Path, Watch>, p: Path) {
    p in fs && exists f, n :: Missed(fs, a, f, n) && Within(f + [n], p)
  }

  ghost predicate AllPlain(a: map<Path, Watch>) { forall p :: p in a ==> Plain(a[p].spec) }

  /** Everything of the tree within p is registered. */
  ghost predicate Full(fs: Tree, a: map<Path, Watch>, p: Path) { forall q :: q in fs && Within(p, q) ==> q in a }

  ghost predicate ChildrenIn(fs: Tree, a: map<Path, Watch>, f: Path) {
    forall n :: Lists(fs, f, n) && IsDir(fs, f + [n]) ==> f + [n] in a
  }

  ghost predicate Keeps(b: map<Path, Watch>, c: map<Path, Watch>) { forall p :: p in b ==> p in c && c[p] == b[p] }

  /** Watches are only added, for what exists. */
  ghost predicate Extends(fs: Tree, a: map<Path, Watch>, b: map<Path, Watch>) {
    Keeps(a, b) && forall p :: p in b && p !in a ==> p in fs && b[p].isDir == IsDir(fs, p) && b[p].spec.recursive
  }

  // ---------- one round: rescanning one watched directory ----------

  /** Rescanning f registers p on account of its entry n: the missed directory itself,
      whatever the patterns say, and below it what the watch of f wants. */
  ghost predicate EntryAdds(fs: Tree, b: map<Path, Watch>, f: Path, n: string, p: Path) {
    Missed(fs, b, f, n) && (p == f + [n] || WantedBelow(fs, b[f].spec, f + [n], p))
  }

  ghost predicate RoundAdds(fs: Tree, b: map<Path, Watch>, f: Path, p: Path) { exists n :: EntryAdds(fs, b, f, n, p) }

  /** The registry after rescanning f with no failed add. */
  ghost function Round(fs: Tree, b: map<Path, Watch>, f: Path): (c: map<Path, Watch>)
    ensures Keeps(b, c)
  {
    map p | p in b.Keys + fs.Keys && (p in b || RoundAdds(fs, b, f, p)) ::
      if p in b then b[p] else Watch(p, IsDir(fs, p), b[f].spec)
  }

  lemma EntryAddsWithin(fs: Tree, b: map<Path, Watch>, f: Path, n: string, p: Path)
    requires EntryAdds(fs, b, f, n, p)
    ensures p in fs && Within(f + [n], p)
  {
    WithinCases(f + [n], p);
  }

  lemma RoundKeys(fs: Tree, b: map<Path, Watch>, f: Path)
    ensures forall p :: p in Round(fs, b, f) <==> p in b || RoundAdds(fs, b, f, p)
  {
    forall p | RoundAdds(fs, b, f, p) ensures p in fs {
      var n :| EntryAdds(fs, b, f, n, p);
    }
  }

  lemma RoundOfNothing(fs: Tree, b: map<Path, Watch>, f: Path)
    requires forall n :: !Missed(fs, b, f, n)
    ensures Round(fs, b, f) == b
  {
    RoundKeys(fs, b, f);
  }

  lemma RoundTakes(fs: Tree, b: map<Path, Watch>, f: Path, n: string)
    requires Missed(fs, b, f, n)
    ensures f + [n] in Round(fs, b, f) && Round(fs, b, f)[f + [n]].spec == b[f].spec
  {
    assert EntryAdds(fs, b, f, n, f + [n]);
    RoundKeys(fs, b, f);
  }

  lemma RoundCovers(fs: Tree, b: map<Path, Watch>, f: Path)
    requires Active(fs, b, f)
    ensures ChildrenIn(fs, Round(fs, b, f), f)
  {
    forall n | Lists(fs, f, n) && IsDir(fs, f + [n]) ensures f + [n] in Round(fs, b, f) {
      if f + [n] !in b { RoundTakes(fs, b, f, n); }
    }
  }

  lemma RoundExtends(fs: Tree, b: map<Path, Watch>, f: Path)
    ensures Extends(fs, b, Round(fs, b, f))
  {
    RoundKeys(fs, b, f);
  }

  /** What entries 0 to i of f have added so far. */
  ghost predicate RoundUpTo(fs: Tree, b: map<Path, Watch>, f: Path, names: seq<string>, i: nat, c: map<Path, Watch>)
    requires i <= |names| && f in b
  {
    && (forall p :: p in c <==> p in b || AddedUpTo(fs, b, f, names, i, p))
    && (forall p :: p in c ==> c[p] == if p in b then b[p] else Watch(p, IsDir(fs, p), b[f].spec))
  }

  ghost predicate AddedUpTo(fs: Tree, b: map<Path, Watch>, f: Path, names: seq<string>, i: nat, p: Path)
    requires i <= |names|
  {
    exists j :: 0 <= j < i && EntryAdds(fs, b, f, names[j], p)
  }

  /** The entries of one directory do not get into each other's way. */
  lemma MissedStill(fs: Tree, b: map<Path, Watch>, f: Path, names: seq<string>, i: nat, c: map<Path, Watch>)
    requires i < |names| && f in b && NoDup(names) && RoundUpTo(fs, b, f, names, i, c)
    ensures Missed(fs, c, f, names[i]) <==> Missed(fs, b, f, names[i])
  {
    var d := f + [names[i]];
    if d in c && d !in b {
      var j :| 0 <= j < i && EntryAdds(fs, b, f, names[j], d);
      EntryAddsWithin(fs, b, f, names[j], d);
      WithinChild(f, names[j], d);
      assert false;
    }
  }

  lemma RoundMore(fs: Tree, b: map<Path, Watch>, f: Path, names: seq<string>, i: nat, c: map<Path, Watch>, d: map<Path,
                  Watch>)
    requires i < |names| && f in b && NoDup(names) && RoundUpTo(fs, b, f, names, i, c)
    requires var w := Watch(f + [names[i]], true, b[f].spec);
             if Missed(fs, c, f, names[i]) then Grows(true, fs, w.spec, c, d, Below(fs, w) + Self(w, false)) else d == c
    ensures RoundUpTo(fs, b, f, names, i + 1, d)
  {
    MissedStill(fs, b, f, names, i, c);
    forall p ensures AddedUpTo(fs, b, f, names, i + 1, p) <==>
                     AddedUpTo(fs, b, f, names, i, p) || EntryAdds(fs, b, f, names[i], p) {
    }
    var w := Watch(f + [names[i]], true, b[f].spec);
    forall p ensures p in Below(fs, w) + Self(w, false) <==> p == w.path || WantedBelow(fs, b[f].spec, w.path, p) {
    }
  }

  lemma RoundAll(fs: Tree, b: map<Path, Watch>, f: Path, c: map<Path, Watch>)
    requires IsDir(fs, f) && f in b && RoundUpTo(fs, b, f, fs[f].names, |fs[f].names|, c)
    ensures c == Round(fs, b, f)
  {
    var names := fs[f].names;
    RoundKeys(fs, b, f);
    forall p ensures RoundAdds(fs, b, f, p) <==> AddedUpTo(fs, b, f, names, |names|, p) {
      if n :| EntryAdds(fs, b, f, n, p) {
        var j :| 0 <= j < |names| && names[j] == n;
      }
    }
  }

  // ---------- which watches nobody asked for ----------

  /** The spec lets p be watched, going by p's own name and kind. */
  ghost predicate Fits(fs: Tree, spec: Spec, p: Path) { p != [] && !spec.ignored(Last(p)) && Takes(spec, fs, p) }

  /** Every new watch is one that a watch active before, with the spec the new one
      carries, wants below itself. */
  ghost predicate AskedFor(fs: Tree, a: map<Path, Watch>, b: map<Path, Watch>) {
    forall p :: p in b && p !in a ==>
      exists f :: Active(fs, a, f) && a[f].spec == b[p].spec && WantedBelow(fs, a[f].spec, f, p)
  }

  /** The registry after the first i entries of the table have been rescanned. */
  ghost function After(fs: Tree, a: map<Path, Watch>, table: seq<Path>, i: nat): map<Path, Watch>
    requires i <= |table|
  {
    if i == 0 then a else Round(fs, After(fs, a, table, i - 1), table[i - 1])
  }

  /** An entry other than the last has something to register: then the iteration goes
      on behind the entries it started with. */
  ghost predicate More(fs: Tree, a: map<Path, Watch>, table: seq<Path>) {
    exists j, n :: 0 <= j < |table| - 1 && Missed(fs, a, table[j], n)
  }

  /** Rescanning the watches that b has on top of a registers nothing. */
  ghost predicate Quiet(fs: Tree, a: map<Path, Watch>, b: map<Path, Watch>) {
    forall g :: g in b && g !in a && Active(fs, b, g) ==> ChildrenIn(fs, b, g)
  }

  /** Every directory found missing when the entries of the table are first rescanned
      fits the watch that finds it. */
  ghost predicate FirstRoundsFit(fs: Tree, a: map<Path, Watch>, table: seq<Path>) {
    forall i, n :: 0 <= i < |table| && Missed(fs, After(fs, a, table, i), table[i], n) ==>
      FitsAt(fs, a, table, i, n)
  }

  ghost predicate FitsAt(fs: Tree, a: map<Path, Watch>, table: seq<Path>, i: nat, n: string)
    requires i < |table|
  {
    var b := After(fs, a, table, i);
    table[i] in b && Fits(fs, b[table[i]].spec, table[i] + [n])
  }

  /** Some new watch does not fit its own spec. */
  ghost predicate Strays(fs: Tree, a: map<Path, Watch>, b: map<Path, Watch>) {
    exists p :: p in b && p !in a && !Fits(fs, b[p].spec, p)
  }

  /** What a rescan with no failed add makes of registry a, whose table is in that
      order. */
  ghost predicate Outcome(fs: Tree, a: map<Path, Watch>, table: seq<Path>, b: map<Path, Watch>) {
    var a1 := After(fs, a, table, |table|);
    && Inherits(fs, a, b)
    && if More(fs, a, table) && !Quiet(fs, a, a1) then Keeps(a1, b) && Strays(fs, a, b) else b == a1
  }

  /** Every new watch carries the spec of a watch active before. */
  ghost predicate Inherits(fs: Tree, a: map<Path, Watch>, b: map<Path, Watch>) {
    forall p :: p in b && p !in a ==> exists f :: Active(fs, a, f) && a[f].spec == b[p].spec
  }

  lemma RoundInherits(fs: Tree, a: map<Path, Watch>, b: map<Path, Watch>, f: Path)
    requires Inherits(fs, a, b) && Keeps(a, b)
    ensures Inherits(fs, a, Round(fs, b, f))
  {
    var c := Round(fs, b, f);
    RoundKeys(fs, b, f);
    forall p | p in c && p !in a ensures exists g :: Active(fs, a, g) && a[g].spec == c[p].spec {
      if p !in b {
        var n :| EntryAdds(fs, b, f, n, p);
        if f in a { assert Active(fs, a, f); }
      }
    }
  }

  ghost predicate IsTable(table: seq<Path>, a: map<Path, Watch>) { NoDup(table) && forall p :: p in table <==> p in a }

  lemma {:induction false} AfterKeeps(fs: Tree, a: map<Path, Watch>, table: seq<Path>, i: nat, k: nat)
    requires i <= k <= |table|
    ensures Keeps(After(fs, a, table, i), After(fs, a, table, k))
    decreases k
  {
    if i < k { AfterKeeps(fs, a, table, i, k - 1); }
  }

  lemma StrayIsUnasked(fs: Tree, a: map<Path, Watch>, b: map<Path, Watch>)
    requires Strays(fs, a, b)
    ensures !AskedFor(fs, a, b)
  {
    var p :| p in b && p !in a && !Fits(fs, b[p].spec, p);
    assert p != [] ==> Last(p) == p[|p| - 1];
  }

  /** The watch of f wants below itself what the round of its fitting entry adds. */
  lemma FittingIsWanted(fs: Tree, b: map<Path, Watch>, f: Path, n: string, p: Path)
    requires EntryAdds(fs, b, f, n, p) && Fits(fs, b[f].spec, f + [n])
    ensures WantedBelow(fs, b[f].spec, f, p)
  {
    Snoc(f, n);
    EntryAddsWithin(fs, b, f, n, p);
    WithinChild(f, n, p);
    assert p == f + [n] ==> p[|f|] == n;
  }

  lemma FittingRound(fs: Tree, a: map<Path, Watch>, b: map<Path, Watch>, f: Path)
    requires AskedFor(fs, a, b) && Keeps(a, b) && f in a
    requires forall n :: Missed(fs, b, f, n) ==> Fits(fs, b[f].spec, f + [n])
    ensures AskedFor(fs, a, Round(fs, b, f))
  {
    var c := Round(fs, b, f);
    RoundKeys(fs, b, f);
    forall p | p in c && p !in a
      ensures exists g :: Active(fs, a, g) && a[g].spec == c[p].spec && WantedBelow(fs, a[g].spec, g, p)
    {
      if p in b {
        var g :| Active(fs, a, g) && a[g].spec == b[p].spec && WantedBelow(fs, a[g].spec, g, p);
      } else {
        var n :| EntryAdds(fs, b, f, n, p);
        FittingIsWanted(fs, b, f, n, p);
        assert Active(fs, a, f) && a[f].spec == c[p].spec;
      }
    }
  }

  lemma {:induction false} FittingRounds(fs: Tree, a: map<Path, Watch>, table: seq<Path>, i: nat)
    requires IsTable(table, a) && i <= |table| && FirstRoundsFit(fs, a, table)
    ensures AskedFor(fs, a, After(fs, a, table, i))
  {
    if i > 0 {
      var b, f := After(fs, a, table, i - 1), table[i - 1];
      FittingRounds(fs, a, table, i - 1);
      AfterKeeps(fs, a, table, 0, i - 1);
      forall n | Missed(fs, b, f, n) ensures Fits(fs, b[f].spec, f + [n]) {
        assert FitsAt(fs, a, table, i - 1, n);
      }
      assert f in table;
      FittingRound(fs, a, b, f);
    }
  }

  lemma UnfitIsStray(fs: Tree, a: map<Path, Watch>, b: map<Path, Watch>, f: Path, n: string, c: map<Path, Watch>)
    requires Keeps(a, b) && Missed(fs, b, f, n) && !Fits(fs, b[f].spec, f + [n]) && Keeps(Round(fs, b, f), c)
    ensures Strays(fs, a, c)
  {
    RoundTakes(fs, b, f, n);
    assert f + [n] !in a && f + [n] in c;
  }

  lemma UnfitRound(fs: Tree, a: map<Path, Watch>, table: seq<Path>, i: nat, n: string)
    requires i < |table| && Missed(fs, After(fs, a, table, i), table[i], n) && !FitsAt(fs, a, table, i, n)
    ensures Strays(fs, a, After(fs, a, table, |table|))
  {
    hide Round, Strays;
    AfterKeeps(fs, a, table, 0, i);
    AfterKeeps(fs, a, table, i + 1, |table|);
    UnfitIsStray(fs, a, After(fs, a, table, i), table[i], n, After(fs, a, table, |table|));
  }

  /** The new watches are all asked for exactly when every directory found missing in
      the first rounds fits the watch that finds it, and the iteration either stops
      behind the entries it started with or finds nothing more to register. */
  lemma RescanAskedForIff(fs: Tree, a: map<Path, Watch>, table: seq<Path>, b: map<Path, Watch>)
    requires IsTable(table, a) && Outcome(fs, a, table, b)
    ensures AskedFor(fs, a, b) <==>
            FirstRoundsFit(fs, a, table) &&
            (!More(fs, a, table) || Quiet(fs, a, After(fs, a, table, |table|)))
  {
    var a1 := After(fs, a, table, |table|);
    if More(fs, a, table) && !Quiet(fs, a, a1) {
      StrayIsUnasked(fs, a, b);
    } else if FirstRoundsFit(fs, a, table) {
      FittingRounds(fs, a, table, |table|);
    } else {
      var i, n :| 0 <= i < |table| && Missed(fs, After(fs, a, table, i), table[i], n) && !FitsAt(fs, a, table, i, n);
      UnfitRound(fs, a, table, i, n);
      StrayIsUnasked(fs, a, b);
    }
  }

  /** Whatever a round adds, the fitting directories right below it come along. */
  ghost predicate Complete(fs: Tree, a: map<Path, Watch>, b: map<Path, Watch>) {
    forall g, m :: g in b && g !in a && Lists(fs, g, m) && IsDir(fs, g + [m]) && Fits(fs, b[g].spec, g + [m]) ==>
      g + [m] in b
  }

  lemma FittingChildComesAlong(fs: Tree, b: map<Path, Watch>, f: Path, n: string, g: Path, m: string)
    requires WellFormed(fs) && EntryAdds(fs, b, f, n, g) && Lists(fs, g, m) && Fits(fs, b[f].spec, g + [m])
    ensures EntryAdds(fs, b, f, n, g + [m])
  {
    var c, d := f + [n], g + [m];
    Snoc(g, m);
    EntryAddsWithin(fs, b, f, n, g);
    assert IsBelow(c, d) by { assert d[..|c|] == g[..|c|]; }
    assert forall k :: |c| <= k < |g| ==> d[k] == g[k];
  }

  lemma RoundCompletes(fs: Tree, a: map<Path, Watch>, b: map<Path, Watch>, f: Path)
    requires WellFormed(fs) && Complete(fs, a, b)
    ensures Complete(fs, a, Round(fs, b, f))
  {
    RoundKeys(fs, b, f);
    var c := Round(fs, b, f);
    forall g, m | g in c && g !in a && Lists(fs, g, m) && IsDir(fs, g + [m]) && Fits(fs, c[g].spec, g + [m])
      ensures g + [m] in c
    {
      if g !in b {
        var n :| EntryAdds(fs, b, f, n, g);
        FittingChildComesAlong(fs, b, f, n, g, m);
      }
    }
  }

  lemma {:induction false} AfterComplete(fs: Tree, a: map<Path, Watch>, table: seq<Path>, i: nat)
    requires WellFormed(fs) && i <= |table|
    ensures Complete(fs, a, After(fs, a, table, i))
  {
    if i > 0 {
      AfterComplete(fs, a, table, i - 1);
      RoundCompletes(fs, a, After(fs, a, table, i - 1), table[i - 1]);
    }
  }

  /** Every directory within one that f misses fits the watch of f. */
  ghost predicate AllFits(fs: Tree, a: map<Path, Watch>) {
    forall f, n, d :: Missed(fs, a, f, n) && IsDir(fs, d) && Within(f + [n], d) ==> Fits(fs, a[f].spec, d)
  }

  ghost predicate FoundBy(fs: Tree, a: map<Path, Watch>, b: map<Path, Watch>, g: Path) {
    exists f, n :: Missed(fs, a, f, n) && Within(f + [n], g) && g in b && b[g].spec == a[f].spec
  }

  ghost predicate AllFound(fs: Tree, a: map<Path, Watch>, b: map<Path, Watch>) {
    forall g :: g in b && g !in a ==> FoundBy(fs, a, b, g)
  }

  lemma FoundInRound(fs: Tree, a: map<Path, Watch>, b: map<Path, Watch>, f: Path)
    requires AllFound(fs, a, b) && Keeps(a, b) && f in a
    ensures AllFound(fs, a, Round(fs, b, f))
  {
    var c := Round(fs, b, f);
    RoundKeys(fs, b, f);
    forall g | g in c && g !in a ensures FoundBy(fs, a, c, g) {
      if g in b {
        var f', n' :| Missed(fs, a, f', n') && Within(f' + [n'], g) && b[g].spec == a[f'].spec;
      } else {
        var n :| EntryAdds(fs, b, f, n, g);
        EntryAddsWithin(fs, b, f, n, g);
        assert Missed(fs, a, f, n);
      }
    }
  }

  lemma {:induction false} NewAreFound(fs: Tree, a: map<Path, Watch>, table: seq<Path>, i: nat)
    requires IsTable(table, a) && i <= |table|
    ensures AllFound(fs, a, After(fs, a, table, i))
  {
    if i > 0 {
      NewAreFound(fs, a, table, i - 1);
      AfterKeeps(fs, a, table, 0, i - 1);
      assert table[i - 1] in table;
      FoundInRound(fs, a, After(fs, a, table, i - 1), table[i - 1]);
    }
  }

  lemma FittingIsQuiet(fs: Tree, a: map<Path, Watch>, b: map<Path, Watch>)
    requires AllFits(fs, a) && AllFound(fs, a, b) && Complete(fs, a, b)
    ensures Quiet(fs, a, b)
  {
    forall g | g in b && g !in a && Active(fs, b, g) ensures ChildrenIn(fs, b, g) {
      var f, n :| Missed(fs, a, f, n) && Within(f + [n], g) && b[g].spec == a[f].spec;
      forall m | Lists(fs, g, m) && IsDir(fs, g + [m]) ensures g + [m] in b {
        assert Within(f + [n], g + [m]) by { assert (g + [m])[..|f| + 1] == g[..|f| + 1]; }
      }
    }
  }

  /** So it is enough that every directory within a missed one fits. */
  lemma RescanAskedForIf(fs: Tree, a: map<Path, Watch>, table: seq<Path>, b: map<Path, Watch>)
    requires WellFormed(fs) && IsTable(table, a) && Outcome(fs, a, table, b) && AllFits(fs, a)
    ensures AskedFor(fs, a, b)
  {
    forall i, n | 0 <= i < |table| && Missed(fs, After(fs, a, table, i), table[i], n)
      ensures FitsAt(fs, a, table, i, n)
    {
      AfterKeeps(fs, a, table, 0, i);
      assert table[i] in table;
    }
    AfterComplete(fs, a, table, |table|);
    NewAreFound(fs, a, table, |table|);
    FittingIsQuiet(fs, a, After(fs, a, table, |table|));
    RescanAskedForIff(fs, a, table, b);
  }

  /** Without asking that the specs agree. */
  ghost predicate AllWanted(fs: Tree, a: map<Path, Watch>, b: map<Path, Watch>) {
    forall p :: p in b && p !in a ==> exists f :: Active(fs, a, f) && WantedBelow(fs, a[f].spec, f, p)
  }

  /** All active watches share one spec, as they do below one target. */
  ghost predicate OneSpec(fs: Tree, a: map<Path, Watch>) {
    forall f, g :: Active(fs, a, f) && Active(fs, a, g) ==> a[f].spec == a[g].spec
  }

  lemma AskedForIsWanted(fs: Tree, a: map<Path, Watch>, table: seq<Path>, b: map<Path, Watch>)
    requires Outcome(fs, a, table, b)
    ensures AskedFor(fs, a, b) ==> AllWanted(fs, a, b)
    ensures OneSpec(fs, a) ==> (AskedFor(fs, a, b) <==> AllWanted(fs, a, b))
  {
    if OneSpec(fs, a) && AllWanted(fs, a, b) {
      forall p | p in b && p !in a
        ensures exists f :: Active(fs, a, f) && a[f].spec == b[p].spec && WantedBelow(fs, a[f].spec, f, p)
      {
        var f :| Active(fs, a, f) && WantedBelow(fs, a[f].spec, f, p);
        var g :| Active(fs, a, g) && a[g].spec == b[p].spec;
        assert a[f].spec == b[p].spec;
      }
    }
  }

  // ---------- the whole iteration ----------

  /** Where HASH_ITER stands after count rounds in a table that has size entries now:
      the next entry is fixed before the current one is handled. */
  predicate Cursor(el: int, tmp: int, count: nat, size: nat) {
    el != -1 ==> el == count < size && tmp == if el + 1 < size then el + 1 else -1
  }

  ghost predicate VisitedUpTo(fs: Tree, b: map<Path, Watch>, order: seq<Path>, count: nat) {
    forall j :: 0 <= j < count && j < |order| && Active(fs, b, order[j]) ==> ChildrenIn(fs, b, order[j])
  }

  /** Behind the entries the iteration started with: registry a1 was reached when the
      table had len entries, and it has since stayed or strayed. */
  ghost predicate Late(fs: Tree, a: map<Path, Watch>, a1: map<Path, Watch>, b: map<Path, Watch>, order: seq<Path>,
                       len: nat) {
    && len <= |order| && (forall p :: p in a1 ==> p in order[..len])
    && Keeps(a1, b) && (b == a1 || (Strays(fs, a, b) && !Quiet(fs, a, a1)))
  }

  ghost predicate TableGrown(a: map<Path, Watch>, table: seq<Path>, b: map<Path, Watch>, order: seq<Path>) {
    IsTable(table, a) && IsTable(order, b) && table <= order && Keeps(a, b)
  }

  /** The registry after count rounds. */
  ghost predicate Reached(fs: Tree, a: map<Path, Watch>, table: seq<Path>, b: map<Path, Watch>, order: seq<Path>,
                          count: nat, len: nat) {
    && (count <= |table| ==> b == After(fs, a, table, count))
    && (count >= |table| ==> Late(fs, a, After(fs, a, table, |table|), b, order, len))
  }

  /** After count rounds the iteration is about to handle entry el of size, or has
      ended. */
  ghost predicate Pointing(more: bool, first: nat, size: nat, el: int, count: nat, len: nat) {
    if el != -1 then el == count < size && (count >= first ==> more)
    else count >= first && if more then count > first && count >= len else count == first
  }

  /** The iteration over registry a with that table. */
  ghost predicate Iterating(fs: Tree, a: map<Path, Watch>, table: seq<Path>, b: map<Path, Watch>, order: seq<Path>,
                            el: int, count: nat, len: nat) {
    && TableGrown(a, table, b, order) && VisitedUpTo(fs, b, order, count) && Reached(fs, a, table, b, order, count, len)
    && Inherits(fs, a, b)
    && Pointing(More(fs, a, table), |table|, |order|, el, count, len)
  }

  lemma {:induction false} NotMoreStays(fs: Tree, a: map<Path, Watch>, table: seq<Path>, i: nat)
    requires !More(fs, a, table) && (i < |table| || i == 0)
    ensures After(fs, a, table, i) == a
  {
    if i > 0 {
      NotMoreStays(fs, a, table, i - 1);
      var f := table[i - 1];
      forall n ensures !Missed(fs, a, f, n) {
      }
      RoundOfNothing(fs, a, table[i - 1]);
    }
  }

  lemma MoreAdds(fs: Tree, a: map<Path, Watch>, table: seq<Path>) returns (c: Path)
    requires More(fs, a, table)
    ensures |table| > 0 && c in After(fs, a, table, |table| - 1) && c !in a
  {
    hide Round;
    var j, n :| 0 <= j < |table| - 1 && Missed(fs, a, table[j], n);
    c := table[j] + [n];
    var b := After(fs, a, table, j);
    AfterKeeps(fs, a, table, 0, j);
    AfterKeeps(fs, a, table, j, j + 1);
    AfterKeeps(fs, a, table, j + 1, |table| - 1);
    if c !in b {
      assert Active(fs, b, table[j]);
      RoundTakes(fs, b, table[j], n);
    }
  }

  /** The table has grown by the time its last original entry is handled exactly if an
      earlier one had something to register. */
  lemma GrownIffMore(fs: Tree, a: map<Path, Watch>, table: seq<Path>, b: map<Path, Watch>, order: seq<Path>)
    requires |table| > 0 && IsTable(table, a) && IsTable(order, b) && table <= order
    requires b == After(fs, a, table, |table| - 1)
    ensures |order| > |table| <==> More(fs, a, table)
  {
    if More(fs, a, table) {
      var c := MoreAdds(fs, a, table);
      assert c in order && c !in table;
      assert |order| == |table| ==> order == table;
    } else {
      NotMoreStays(fs, a, table, |table| - 1);
      assert |order| > |table| ==> order[|table|] in order;
      if |order| > |table| {
        NewEntry(a, table, b, order, |table|);
        assert false;
      }
    }
  }

  lemma VisitedMore(fs: Tree, b: map<Path, Watch>, order: seq<Path>, el: nat, order': seq<Path>)
    requires el < |order| && IsTable(order, b) && order <= order' && VisitedUpTo(fs, b, order, el)
    ensures VisitedUpTo(fs, Round(fs, b, order[el]), order', el + 1)
  {
    var c := Round(fs, b, order[el]);
    forall j | 0 <= j < el + 1 && j < |order'| && Active(fs, c, order'[j]) ensures ChildrenIn(fs, c, order'[j]) {
      assert order'[j] == order[j] && order[j] in order;
      if j == el { RoundCovers(fs, b, order[el]); } else { assert ChildrenIn(fs, b, order[j]); }
    }
  }

  /** A later round adds nothing, or something that does not fit. */
  lemma LateRound(fs: Tree, a: map<Path, Watch>, a1: map<Path, Watch>, b: map<Path, Watch>, order: seq<Path>, len: nat,
                  g: Path)
    requires WellFormed(fs) && Keeps(a, a1) && Complete(fs, a, a1) && Late(fs, a, a1, b, order, len) && g !in a
    ensures Round(fs, b, g) == a1 || (Strays(fs, a, Round(fs, b, g)) && !Quiet(fs, a, a1))
  {
    if b == a1 {
      if n :| Missed(fs, b, g, n) {
        RoundTakes(fs, b, g, n);
        assert !Fits(fs, b[g].spec, g + [n]);
      } else {
        RoundOfNothing(fs, b, g);
      }
    } else {
    }
  }

  lemma NewEntry(a: map<Path, Watch>, table: seq<Path>, b: map<Path, Watch>, order: seq<Path>, el: nat)
    requires IsTable(table, a) && IsTable(order, b) && table <= order && |table| <= el < |order|
    ensures order[el] !in a
  {
    forall j | 0 <= j < |table| ensures table[j] != order[el] {
      assert order[j] == table[j];
    }
  }

  lemma LateStart(fs: Tree, a: map<Path, Watch>, a1: map<Path, Watch>, order: seq<Path>)
    requires IsTable(order, a1)
    ensures Late(fs, a, a1, a1, order, |order|)
  {
    assert order[..|order|] == order;
  }

  lemma LateMore(fs: Tree, a: map<Path, Watch>, a1: map<Path, Watch>, b: map<Path, Watch>, order: seq<Path>, len: nat,
                 g: Path,
                 order': seq<Path>)
    requires WellFormed(fs) && Keeps(a, a1) && Complete(fs, a, a1) && Late(fs, a, a1, b, order, len) && g !in a
    requires order <= order'
    ensures Late(fs, a, a1, Round(fs, b, g), order', len)
  {
    LateRound(fs, a, a1, b, order, len, g);
    assert order'[..len] == order[..len];
  }

  /** A round that handles an entry the iteration started with. */
  lemma ReachedEarly(fs: Tree, a: map<Path, Watch>, table: seq<Path>, b: map<Path, Watch>, order: seq<Path>,
                     el: nat, len: nat, order': seq<Path>)
    requires TableGrown(a, table, b, order) && Reached(fs, a, table, b, order, el, len) && el < |table|
    requires order <= order' && IsTable(order', Round(fs, b, order[el]))
    ensures Reached(fs, a, table, Round(fs, b, order[el]), order', el + 1, if el + 1 == |table| then |order'| else len)
  {
    hide Late, Round, Keeps;
    assert order[el] == table[el];
    if el + 1 == |table| { LateStart(fs, a, Round(fs, b, order[el]), order'); }
  }

  /** A round that handles a later entry. */
  lemma ReachedLate(fs: Tree, a: map<Path, Watch>, table: seq<Path>, b: map<Path, Watch>, order: seq<Path>,
                    el: nat, len: nat, order': seq<Path>)
    requires WellFormed(fs) && TableGrown(a, table, b, order) && Reached(fs, a, table, b, order, el, len)
    requires |table| <= el < |order| && order <= order'
    ensures Reached(fs, a, table, Round(fs, b, order[el]), order', el + 1, len)
  {
    hide Late, Round, Complete;
    NewEntry(a, table, b, order, el);
    AfterKeeps(fs, a, table, 0, |table|);
    AfterComplete(fs, a, table, |table|);
    LateMore(fs, a, After(fs, a, table, |table|), b, order, len, order[el], order');
  }

  lemma PointingMore(fs: Tree, a: map<Path, Watch>, table: seq<Path>, b: map<Path, Watch>, order: seq<Path>,
                     el: nat, len: nat, size: nat)
    requires TableGrown(a, table, b, order) && Reached(fs, a, table, b, order, el, len) && |order| <= size
    requires Pointing(More(fs, a, table), |table|, |order|, el, el, len)
    ensures Pointing(More(fs, a, table), |table|, size, if el + 1 < |order| then el + 1 else -1, el + 1,
                     if el + 1 == |table| then size else len)
  {
    if el + 1 == |table| { GrownIffMore(fs, a, table, b, order); }
  }

  /** One round of the iteration. */
  lemma IteratingMore(fs: Tree, a: map<Path, Watch>, table: seq<Path>, b: map<Path, Watch>, order: seq<Path>,
                      el: nat, len: nat, order': seq<Path>)
    requires WellFormed(fs) && Iterating(fs, a, table, b, order, el, el, len)
    requires order <= order' && IsTable(order', Round(fs, b, order[el]))
    ensures Iterating(fs, a, table, Round(fs, b, order[el]), order', if el + 1 < |order| then el + 1 else -1, el + 1,
                      if el + 1 == |table| then |order'| else len)
  {
    VisitedMore(fs, b, order, el, order');
    RoundInherits(fs, a, b, order[el]);
    PointingMore(fs, a, table, b, order, el, len, |order'|);
    if el < |table| {
      ReachedEarly(fs, a, table, b, order, el, len, order');
    } else {
      ReachedLate(fs, a, table, b, order, el, len, order');
    }
  }

  lemma VisitedAll(fs: Tree, a: map<Path, Watch>, b: map<Path, Watch>, order: seq<Path>, count: nat)
    requires VisitedUpTo(fs, b, order, count) && Keeps(a, b) && forall p :: p in a ==>
             p in order[..Least(count, |order|)]
    ensures forall f :: Active(fs, a, f) ==> ChildrenIn(fs, b, f)
  {
    forall f | Active(fs, a, f) ensures ChildrenIn(fs, b, f) {
      assert f in order[..Least(count, |order|)];
      var j :| 0 <= j < Least(count, |order|) && order[j] == f;
    }
  }

    lemma InPrefix(p: Path, order: seq<Path>, m: nat, n: nat)
    requires m <= n <= |order| && p in order[..m]
    ensures p in order[..n]
  {
    var j :| 0 <= j < m && order[..m][j] == p;
    assert order[..n][j] == p;
  }

  /** An iteration that has gone past everything registered by its first rounds has
      strayed unless these rounds were quiet. */
  lemma LateEnd(fs: Tree, a: map<Path, Watch>, a1: map<Path, Watch>, b: map<Path, Watch>, order: seq<Path>,
                count: nat, len: nat)
    requires Late(fs, a, a1, b, order, len) && VisitedUpTo(fs, b, order, count) && count >= len
    ensures if Quiet(fs, a, a1) then b == a1 else Strays(fs, a, b)
  {
    if !Quiet(fs, a, a1) {
      var g :| g in a1 && g !in a && Active(fs, a1, g) && !ChildrenIn(fs, a1, g);
      forall p | p in a1 ensures p in order[..Least(count, |order|)] {
        InPrefix(p, order, len, Least(count, |order|));
      }
      VisitedAll(fs, a1, b, order, count);
      assert ChildrenIn(fs, b, g);
    }
  }

  lemma IteratingEnd(fs: Tree, a: map<Path, Watch>, table: seq<Path>, b: map<Path, Watch>, order: seq<Path>,
                     count: nat, len: nat)
    requires Iterating(fs, a, table, b, order, -1, count, len)
    ensures Outcome(fs, a, table, b) && forall f :: Active(fs, a, f) ==> ChildrenIn(fs, b, f)
  {
    VisitedAll(fs, a, b, order, count);
    if More(fs, a, table) { LateEnd(fs, a, After(fs, a, table, |table|), b, order, count, len); }
  }

  // ---------- the closure: everything below recursive watches is registered ----------

  /** A rescan with no failed add has taken registry a, without patterns, to b. */
  ghost predicate Sweeping(fs: Tree, a: map<Path, Watch>, b: map<Path, Watch>) {
    Extends(fs, a, b) && forall p :: p in b && p !in a ==> Swept(fs, a, p) && Plain(b[p].spec) && Full(fs, b, p)
  }

  /** What a round adds on account of a missed directory is all there is within it. */
  lemma PlainEntry(fs: Tree, b: map<Path, Watch>, f: Path, n: string, p: Path)
    requires Missed(fs, b, f, n) && Plain(b[f].spec)
    ensures EntryAdds(fs, b, f, n, p) <==> p in fs && Within(f + [n], p)
  {
    WithinCases(f + [n], p);
  }

  /** A round goes on with the sweep. */
  lemma SweepMore(fs: Tree, a: map<Path, Watch>, b: map<Path, Watch>, f: Path)
    requires WellFormed(fs) && AllPlain(a) && Sweeping(fs, a, b)
    ensures Sweeping(fs, a, Round(fs, b, f))
  {
    var c := Round(fs, b, f);
    RoundKeys(fs, b, f);
    RoundExtends(fs, b, f);
    forall p | p in c && p !in a ensures Swept(fs, a, p) && Plain(c[p].spec) && Full(fs, c, p) {
      if p !in b {
        var n :| EntryAdds(fs, b, f, n, p);
        assert Within(f, f + [n]);
        assert f !in a ==> Full(fs, b, f);
        assert Missed(fs, a, f, n);
        PlainEntry(fs, b, f, n, p);
        forall q | q in fs && Within(p, q) ensures q in c {
          WithinTrans(f + [n], p, q);
          PlainEntry(fs, b, f, n, q);
        }
      }
    }
  }

  /** Once every active directory has its child directories registered, the registry
      is what it was and everything swept. */
  lemma SweepDone(fs: Tree, a: map<Path, Watch>, b: map<Path, Watch>)
    requires Sweeping(fs, a, b) && forall f :: Active(fs, a, f) ==> ChildrenIn(fs, b, f)
    ensures forall p :: p in b <==> p in a || Swept(fs, a, p)
  {
    forall p | Swept(fs, a, p) ensures p in b {
      var f, n :| Missed(fs, a, f, n) && Within(f + [n], p);
      assert f + [n] in b;
      assert Full(fs, b, f + [n]);
    }
  }

  /** A directory missing from b although it is below one of b's active directories. */
  ghost predicate Uncovered(fs: Tree, b: map<Path, Watch>) {
    exists f, p :: Active(fs, b, f) && IsBelow(f, p) && IsDir(fs, p) && p !in b
  }

  /** A registered directory x below an active one is not itself active, and has a
      child directory that is neither registered nor swept from elsewhere. */
  ghost predicate BlindSpot(fs: Tree, a: map<Path, Watch>) {
    exists f, x, n :: Active(fs, a, f) && IsBelow(f, x) && Blind(fs, a, x, n)
  }

  ghost predicate Blind(fs: Tree, a: map<Path, Watch>, x: Path, n: string) {
    x in a && !Active(fs, a, x) && Lists(fs, x, n) && IsDir(fs, x + [n]) && x + [n] !in a && !Swept(fs, a, x + [n])
  }

  /** The last registered path on the way down from f to p. */
  lemma {:induction false} LastRegistered(fs: Tree, b: map<Path, Watch>, f: Path, p: Path)
    requires WellFormed(fs) && f in b && IsBelow(f, p) && IsDir(fs, p) && p !in b
    ensures exists x :: x in b && Within(f, x) && IsBelow(x, p) &&
                        Lists(fs, x, p[|x|]) && IsDir(fs, x + [p[|x|]]) && x + [p[|x|]] !in b
    decreases |p|
  {
    var y := Parent(p);
    assert Lists(fs, Parent(p), Last(p));
    assert p == y + [Last(p)];
    assert y[..|f|] == f;
    if y !in b {
      assert y != f ==> |f| < |y|;
      LastRegistered(fs, b, f, y);
      var x :| x in b && Within(f, x) && IsBelow(x, y) &&
               Lists(fs, x, y[|x|]) && IsDir(fs, x + [y[|x|]]) && x + [y[|x|]] !in b;
      assert y[|x|] == p[|x|] && IsBelow(x, p);
    }
  }

  /** The overflow closure holds exactly when there is no blind spot. */
  lemma OverflowClosureIff(fs: Tree, a: map<Path, Watch>, b: map<Path, Watch>)
    requires WellFormed(fs) && Sweeping(fs, a, b) && forall f :: Active(fs, a, f) ==> ChildrenIn(fs, b, f)
    ensures !Uncovered(fs, b) <==> !BlindSpot(fs, a)
  {
    SweepDone(fs, a, b);
    if f, p :| Active(fs, b, f) && IsBelow(f, p) && IsDir(fs, p) && p !in b {
      LastRegistered(fs, b, f, p);
      var x :| x in b && Within(f, x) && IsBelow(x, p) &&
               Lists(fs, x, p[|x|]) && IsDir(fs, x + [p[|x|]]) && x + [p[|x|]] !in b;
      FullOrOld(fs, a, b, f, p);
      FullOrOld(fs, a, b, x, p);
      UncoveredIsBlind(fs, a, b, f, x, p[|x|]);
    }
    if f, x, n :| Active(fs, a, f) && IsBelow(f, x) && Blind(fs, a, x, n) {
      BlindIsUncovered(fs, a, b, f, x, n);
    }
  }

  lemma BlindIsUncovered(fs: Tree, a: map<Path, Watch>, b: map<Path, Watch>, f: Path, x: Path, n: string)
    requires forall p :: p in b <==> p in a || Swept(fs, a, p)
    requires Active(fs, a, f) && f in b && b[f] == a[f] && IsBelow(f, x) && Blind(fs, a, x, n)
    ensures Uncovered(fs, b)
  {
    assert (x + [n])[..|f|] == f;
    assert Active(fs, b, f) && IsBelow(f, x + [n]) && x + [n] !in b;
  }

  /** x is the last registered path on the way down from f, and n the next component;
      both f and x were registered before. */
  lemma UncoveredIsBlind(fs: Tree, a: map<Path, Watch>, b: map<Path, Watch>, f: Path, x: Path, n: string)
    requires Active(fs, a, f) && x in a && Within(f, x) && Keeps(a, b)
    requires (Active(fs, a, f) ==> ChildrenIn(fs, b, f)) && (Active(fs, a, x) ==> ChildrenIn(fs, b, x))
    requires Lists(fs, x, n) && IsDir(fs, x + [n]) && x + [n] !in b && !Swept(fs, a, x + [n])
    ensures IsBelow(f, x) && Blind(fs, a, x, n)
  {
    assert !ChildrenIn(fs, b, x);
    WithinCases(f, x);
  }

  lemma FullOrOld(fs: Tree, a: map<Path, Watch>, b: map<Path, Watch>, x: Path, p: Path)
    requires Sweeping(fs, a, b) && x in b && IsBelow(x, p) && p in fs && p !in b
    ensures x in a && b[x] == a[x]
  {
    assert Within(x, p);
    assert x !in a ==> Full(fs, b, x);
  }

  // ---------- the exception is real ----------

  function Chain(): Tree {
    map[[] := Dir(0, 0, ["a"]), ["a"] := Dir(0, 0, ["b"]), ["a", "b"] := Dir(0, 0, ["c"]),
        ["a", "b", "c"] := Dir(0, 0, [])]
  }

  function ChainWatches(): map<Path, Watch> {
    map[["a"] := Watch(["a"], true, Spec(true, 0, _ => false, _ => true)),
        ["a", "b"] := Watch(["a", "b"], true, Spec(false, 0, _ => false, _ => true))]
  }

  lemma ChainWellFormed()
    ensures WellFormed(Chain())
  {
    var fs1: Tree := map[[] := Dir(0, 0, ["a"]), ["a"] := Dir(0, 0, [])];
    var fs2: Tree := map[[] := Dir(0, 0, ["a"]), ["a"] := Dir(0, 0, ["b"]), ["a", "b"] := Dir(0, 0, [])];
    Sprout(Root(), [], "a", ["a"], fs1);
    Sprout(fs1, ["a"], "b", ["a", "b"], fs2);
    Sprout(fs2, ["a", "b"], "c", ["a", "b", "c"], Chain());
  }

  function Root(): Tree { map[[] := Dir(0, 0, [])] }

  /** A file or an empty directory added to a well-formed tree. */
  lemma Sprout(fs: Tree, d: Path, n: string, c: Path, fs': Tree)
    requires WellFormed(fs) && IsDir(fs, d) && |n| == 1 && n[0] != SEP && n[0] != '.' && c == d + [n] && c !in fs
    requires (forall p :: p in fs' <==> p in fs || p == c) && forall p :: p in fs && p != d ==> fs'[p] == fs[p]
    requires fs'[d].Dir? && fs'[d].names == fs[d].names + [n] && (fs'[c].Dir? ==> fs'[c].names == [])
    ensures WellFormed(fs')
  {
    Snoc(d, n);
    assert n in fs[d].names ==> Lists(fs, d, n);
    assert NoDup(fs'[d].names);
    forall x, m | Lists(fs', x, m) ensures GoodName(m) && x + [m] in fs' {
      if !(x == d && m == n) { assert Lists(fs, x, m); }
    }
    forall p | p in fs' && p != [] ensures Lists(fs', Parent(p), Last(p)) {
      if p != c { assert Lists(fs, Parent(p), Last(p)); }
    }
  }

  lemma ChainLinks(d: Path, n: string)
    requires Lists(Chain(), d, n)
    ensures GoodName(n) && d + [n] in Chain()
    ensures d + [n] == ["a"] || d + [n] == ["a", "b"] || d + [n] == ["a", "b", "c"]
  {
    assert |n| == 1;
    assert (d == [] && n == "a") || (d == ["a"] && n == "b") || (d == ["a", "b"] && n == "c");
    assert d == [] ==> d + [n] == ["a"];
    assert d == ["a"] ==> d + [n] == ["a", "b"];
    assert d == ["a", "b"] ==> d + [n] == ["a", "b", "c"];
  }

  /** A directory registered by itself, not recursively, below a recursive one hides
      its own children from the rescan. */
  lemma ClosureCanFail()
    ensures WellFormed(Chain()) && AllPlain(ChainWatches()) && BlindSpot(Chain(), ChainWatches())
  {
    ChainWellFormed();
    var fs, a := Chain(), ChainWatches();
    var x: Path := ["a", "b"];
    assert Lists(fs, x, "c") && x + ["c"] == ["a", "b", "c"];
    forall f, n ensures !Missed(fs, a, f, n) {
      if f == ["a"] && Lists(fs, f, n) { ChainLinks(f, n); }
    }
    assert Blind(fs, a, x, "c") && Active(fs, a, ["a"]) && IsBelow(["a"], x);
  }

  // ---------- two registries that ignore x ----------

  /** a/b/x and z. */
  function Nested(): Tree {
    map[[] := Dir(0, 0, ["a", "z"]), ["a"] := Dir(0, 0, ["b"]), ["a", "b"] := Dir(0, 0, ["x"]),
        ["a", "b", "x"] := Dir(0, 0, []), ["z"] := Dir(0, 0, [])]
  }

  function IgnoringX(): Spec { Spec(true, 0, n => n == "x", _ => true) }

  function AlsoZ(): map<Path, Watch> {
    map[["a"] := Watch(["a"], true, IgnoringX()), ["z"] := Watch(["z"], true, IgnoringX())]
  }

  function OnlyA(): map<Path, Watch> { map[["a"] := Watch(["a"], true, IgnoringX())] }

  lemma NestedLinks(d: Path, n: string)
    requires Lists(Nested(), d, n)
    ensures (d == [] && n == "a") || (d == [] && n == "z") || (d == ["a"] && n == "b") || (d == ["a", "b"] && n == "x")
  {
  }

  function Flat(): Tree { map[[] := Dir(0, 0, ["a", "z"]), ["a"] := Dir(0, 0, []), ["z"] := Dir(0, 0, [])] }

  lemma FlatWellFormed()
    ensures WellFormed(Flat())
  {
    var fs1: Tree := map[[] := Dir(0, 0, ["a"]), ["a"] := Dir(0, 0, [])];
    Sprout(Root(), [], "a", ["a"], fs1);
    Sprout(fs1, [], "z", ["z"], Flat());
  }

  lemma NestedWellFormed()
    ensures WellFormed(Nested())
  {
    var fs3: Tree := map[[] := Dir(0, 0, ["a", "z"]), ["a"] := Dir(0, 0, ["b"]), ["a", "b"] := Dir(0, 0, []),
                         ["z"] := Dir(0, 0, [])];
    FlatWellFormed();
    Sprout(Flat(), ["a"], "b", ["a", "b"], fs3);
    Sprout(fs3, ["a", "b"], "x", ["a", "b", "x"], Nested());
  }

  /** Rescanning a registers a/b, and leaves the ignored a/b/x alone. */
  lemma NestedRound(a: map<Path, Watch>)
    requires a == AlsoZ() || a == OnlyA()
    ensures Missed(Nested(), a, ["a"], "b") && (forall n :: Missed(Nested(), a, ["a"], n) ==> n == "b")
    ensures Fits(Nested(), IgnoringX(), ["a"] + ["b"])
    ensures var c := Round(Nested(), a, ["a"]);
            ["a", "b"] in c && ["a", "b", "x"] !in c && Active(Nested(), c, ["a", "b"])
  {
    var fs := Nested();
    var p: Path := ["a", "b", "x"];
    assert Lists(fs, ["a"], "b") && ["a"] + ["b"] == ["a", "b"];
    RoundTakes(fs, a, ["a"], "b");
    RoundKeys(fs, a, ["a"]);
    forall n | Missed(fs, a, ["a"], n) ensures n == "b" && !EntryAdds(fs, a, ["a"], n, p) {
      NestedLinks(["a"], n);
      assert p[2] == "x";
    }
  }

  lemma NothingBelowZ(b: map<Path, Watch>)
    ensures forall n :: !Missed(Nested(), b, ["z"], n)
  {
    forall n ensures !Missed(Nested(), b, ["z"], n) {
      if Lists(Nested(), ["z"], n) { NestedLinks(["z"], n); }
    }
  }

  function ZTable(): seq<Path> { [["a"], ["z"]] }

  lemma NestedStart()
    ensures IsTable(ZTable(), AlsoZ()) && OneSpec(Nested(), AlsoZ())
  {
    assert ZTable()[0] == ["a"] && ZTable()[1] == ["z"];
  }

  lemma NestedRounds(a1: map<Path, Watch>)
    requires a1 == Round(Nested(), AlsoZ(), ["a"])
    ensures After(Nested(), AlsoZ(), ZTable(), 1) == a1 == After(Nested(), AlsoZ(), ZTable(), |ZTable()|)
  {
    assert ZTable()[0] == ["a"] && ZTable()[1] == ["z"];
    assert After(Nested(), AlsoZ(), ZTable(), 0) == AlsoZ();
    NothingBelowZ(a1);
    RoundOfNothing(Nested(), a1, ["z"]);
  }

  lemma NestedIsLoud(a1: map<Path, Watch>)
    requires a1 == Round(Nested(), AlsoZ(), ["a"])
    ensures !Quiet(Nested(), AlsoZ(), a1)
  {
    NestedRound(AlsoZ());
    assert Lists(Nested(), ["a", "b"], "x") && ["a", "b"] + ["x"] == ["a", "b", "x"];
    assert !ChildrenIn(Nested(), a1, ["a", "b"]);
  }

  lemma NestedFits()
    ensures FirstRoundsFit(Nested(), AlsoZ(), ZTable()) && More(Nested(), AlsoZ(), ZTable())
  {
    var fs, a, table := Nested(), AlsoZ(), ZTable();
    NestedRound(a);
    assert table[0] == ["a"] && table[1] == ["z"] && After(fs, a, table, 0) == a;
    NothingBelowZ(After(fs, a, table, 1));
    forall i, n | 0 <= i < |table| && Missed(fs, After(fs, a, table, i), table[i], n)
      ensures FitsAt(fs, a, table, i, n)
    {
      assert i == 0;
    }
  }

  /** Where all specs agree nobody wants a watch that does not fit its own. */
  lemma StrayIsUnwanted(fs: Tree, a: map<Path, Watch>, b: map<Path, Watch>)
    requires Strays(fs, a, b) && OneSpec(fs, a) && Inherits(fs, a, b)
    ensures !AllWanted(fs, a, b)
  {
    var p :| p in b && p !in a && !Fits(fs, b[p].spec, p);
    assert p != [] ==> Last(p) == p[|p| - 1];
    forall f | Active(fs, a, f) ensures !WantedBelow(fs, a[f].spec, f, p) {
      assert a[f].spec == b[p].spec;
    }
  }

  /** With z behind a the iteration comes to the new a/b, and registers a/b/x though
      every watch ignores it and no missed directory is ignored. */
  lemma LaterRoundStrays(b: map<Path, Watch>)
    requires Outcome(Nested(), AlsoZ(), ZTable(), b)
    ensures WellFormed(Nested()) && IsTable(ZTable(), AlsoZ()) && OneSpec(Nested(), AlsoZ())
    ensures FirstRoundsFit(Nested(), AlsoZ(), ZTable()) && !AllWanted(Nested(), AlsoZ(), b)
  {
    NestedWellFormed();
    NestedStart();
    NestedFits();
    NestedRounds(Round(Nested(), AlsoZ(), ["a"]));
    NestedIsLoud(Round(Nested(), AlsoZ(), ["a"]));
    StrayIsUnwanted(Nested(), AlsoZ(), b);
  }

  /** With a alone the iteration ends before it comes to a/b. */
  lemma LastRoundStops(b: map<Path, Watch>)
    requires Outcome(Nested(), OnlyA(), [["a"]], b)
    ensures WellFormed(Nested()) && IsTable([["a"]], OnlyA()) && AllWanted(Nested(), OnlyA(), b)
    ensures ["a", "b"] in b && ["a", "b", "x"] !in b
  {
    var fs, a, table := Nested(), OnlyA(), [["a"]];
    NestedWellFormed();
    NestedRound(a);
    assert table[0] == ["a"] && After(fs, a, table, 0) == a;
    assert After(fs, a, table, 1) == Round(fs, a, ["a"]);
    RescanAskedForIff(fs, a, table, b);
    AskedForIsWanted(fs, a, table, b);
  }

  // ---------- two specs ----------

  function TwoSpecs(): map<Path, Watch> {
    map[[] := Watch([], true, Spec(true, 0, _ => false, _ => true)),
        ["a"] := Watch(["a"], true, Spec(true, 0, n => n == "b", _ => true))]
  }

  function TwoTable(): seq<Path> { [[], ["a"]] }

  lemma TwoRounds()
    ensures (forall n :: !Missed(Chain(), TwoSpecs(), [], n)) && Missed(Chain(), TwoSpecs(), ["a"], "b")
    ensures After(Chain(), TwoSpecs(), TwoTable(), 1) == TwoSpecs()
    ensures IsTable(TwoTable(), TwoSpecs()) && !More(Chain(), TwoSpecs(), TwoTable())
  {
    assert TwoTable()[0] == [] && TwoTable()[1] == ["a"];
    forall n ensures !Missed(Chain(), TwoSpecs(), [], n) {
      if Lists(Chain(), [], n) { ChainLinks([], n); }
    }
    assert Lists(Chain(), ["a"], "b") && ["a"] + ["b"] == ["a", "b"];
    assert After(Chain(), TwoSpecs(), TwoTable(), 0) == TwoSpecs();
    RoundOfNothing(Chain(), TwoSpecs(), []);
  }

  lemma TwoUnfit()
    ensures !FirstRoundsFit(Chain(), TwoSpecs(), TwoTable())
  {
    TwoRounds();
    assert TwoTable()[1] == ["a"];
    assert !FitsAt(Chain(), TwoSpecs(), TwoTable(), 1, "b");
  }

  /** The root's watch wants everything. */
  lemma TwoWanted(b: map<Path, Watch>)
    requires Extends(Chain(), TwoSpecs(), b)
    ensures AllWanted(Chain(), TwoSpecs(), b)
  {
    forall p | p in b && p !in TwoSpecs()
      ensures Active(Chain(), TwoSpecs(), []) && WantedBelow(Chain(), TwoSpecs()[[]].spec, [], p)
    {
      assert p in Chain() && p[..0] == [];
    }
  }

  /** The watch on a ignores b, the one above does not: a/b comes to be watched with a
      spec that ignores it, though there is a watch that wants it. */
  lemma OtherSpecWants(b: map<Path, Watch>)
    requires Outcome(Chain(), TwoSpecs(), TwoTable(), b)
    ensures IsTable(TwoTable(), TwoSpecs()) && !AskedFor(Chain(), TwoSpecs(), b) && AllWanted(Chain(), TwoSpecs(), b)
  {
    hide Outcome, AskedFor, FirstRoundsFit, AllWanted, Extends, More, IsTable;
    TwoRounds();
    TwoUnfit();
    RescanAskedForIff(Chain(), TwoSpecs(), TwoTable(), b);
    TwoOutcome(b);
    TwoWanted(b);
  }

  lemma TwoOutcome(b: map<Path, Watch>)
    requires Outcome(Chain(), TwoSpecs(), TwoTable(), b)
    ensures Extends(Chain(), TwoSpecs(), b)
  {
    hide Round, Extends, Quiet, Strays, Keeps;
    TwoRounds();
    assert TwoTable()[1] == ["a"] && |TwoTable()| == 2;
    assert After(Chain(), TwoSpecs(), TwoTable(), 2) == Round(Chain(), TwoSpecs(), ["a"]);
    RoundExtends(Chain(), TwoSpecs(), ["a"]);
  }
}
