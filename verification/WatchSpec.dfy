/** What a recursive add of src/backend/backend_inotify.c should register, stated on
    values: the tree and the watches by path. */
module WatchSpec {
  import opened Tables
  import opened Paths
  import opened FileTree

  /** What a target hands down to the targets made for the entries below it. options
      is a set of the bits 1 (files), 2 (directories), 4 (symlinks); 0 means all. */
  datatype Spec = Spec(recursive: bool, options: nat, ignored: string -> bool, watched: string -> bool)

  datatype Watch = Watch(path: Path, isDir: bool, spec: Spec)

  const FILES: nat := 1
  const SYMLINKS: nat := 4

  // ---------- which entries a recursive add should register ----------

  /** The tests of the code on the kind of an entry. */
  predicate TakesDir(options: nat) { options != FILES && options != SYMLINKS }

  predicate TakesFile(options: nat) { options % 2 == 1 || options == 0 }

  /** The options read as a set of kinds, as they are documented. */
  predicate MeansDir(options: nat) { options == 0 || options / 2 % 2 == 1 }

  predicate Takes(spec: Spec, fs: Tree, p: Path)
    requires p != []
  {
    spec.watched(Last(p)) && if IsDir(fs, p) then TakesDir(spec.options) else TakesFile(spec.options)
  }

  /** An entry below d that is under no ignored name and that the spec takes. */
  ghost predicate WantedBelow(fs: Tree, spec: Spec, d: Path, p: Path) {
    IsBelow(d, p) && p in fs && (forall k :: |d| <= k < |p| ==> !spec.ignored(p[k])) && Takes(spec, fs, p)
  }

  ghost function Below(fs: Tree, w: Watch): iset<Path> { iset p | WantedBelow(fs, w.spec, w.path, p) }

  ghost function Entry(fs: Tree, w: Watch, n: string): iset<Path> {
    iset p | Within(w.path + [n], p) && WantedBelow(fs, w.spec, w.path, p)
  }

  ghost function Entries(fs: Tree, w: Watch, names: seq<string>, i: nat): iset<Path>
    requires i <= |names|
  {
    iset p | InEntries(fs, w, names, i, p)
  }

  ghost predicate InEntries(fs: Tree, w: Watch, names: seq<string>, i: nat, p: Path)
    requires i <= |names|
  {
    exists j :: 0 <= j < i && p in Entry(fs, w, names[j])
  }

  ghost function Self(w: Watch, skipped: bool): iset<Path> { if skipped then iset{} else iset{w.path} }

  /** From a to b the registry gains watches on paths of want only, each inheriting
      spec; all of them when no add fails. */
  ghost predicate Grows(willing: bool, fs: Tree, spec: Spec, a: map<Path, Watch>, b: map<Path, Watch>,
                        want: iset<Path>) {
    && (forall p :: p in a ==> p in b && b[p] == a[p])
    && (forall p :: p in b && p !in a ==> p in want && b[p] == Watch(p, IsDir(fs, p), spec))
    && (willing ==> forall p :: p in want ==> p in b)
  }

  lemma GrowsTrans(willing: bool, fs: Tree, spec: Spec, a: map<Path, Watch>, b: map<Path, Watch>, c: map<Path, Watch>,
                   x: iset<Path>, y: iset<Path>)
    requires Grows(willing, fs, spec, a, b, x) && Grows(willing, fs, spec, b, c, y)
    ensures Grows(willing, fs, spec, a, c, x + y)
  {
  }

  lemma GrowsSelf(willing: bool, fs: Tree, w: Watch, a: map<Path, Watch>, b: map<Path, Watch>, ok: bool)
    requires w.isDir == IsDir(fs, w.path) && (ok ==> w.path !in a && b == a[w.path := w])
    requires !ok ==> b == a && (willing ==> w.path in a)
    ensures Grows(willing, fs, w.spec, a, b, Self(w, false))
  {
  }

  lemma EntriesAll(fs: Tree, w: Watch)
    requires WellFormed(fs) && IsDir(fs, w.path)
    ensures Entries(fs, w, fs[w.path].names, |fs[w.path].names|) == Below(fs, w)
  {
    var names := fs[w.path].names;
    forall p | p in Below(fs, w) ensures p in Entries(fs, w, names, |names|) {
      EntryListed(fs, w.path, p);
      var j :| 0 <= j < |names| && names[j] == p[|w.path|];
      WithinChild(w.path, names[j], p);
      assert p in Entry(fs, w, names[j]);
    }
  }

  /** What is below a directory is within one of its entries. */
  lemma EntryListed(fs: Tree, d: Path, p: Path)
    requires WellFormed(fs) && p in fs && IsBelow(d, p)
    ensures Lists(fs, d, p[|d|]) && p[..|d| + 1] == d + [p[|d|]]
    ensures p != d + [p[|d|]] ==> IsDir(fs, d + [p[|d|]])
  {
    var c := p[..|d| + 1];
    assert c == d + [p[|d|]];
    if |c| < |p| { TreePrefix(fs, p, |c|); } else { assert c == p; }
    assert Lists(fs, Parent(c), Last(c));
  }

  lemma EntrySkipped(fs: Tree, w: Watch, n: string)
    requires WellFormed(fs) && (IsDot(n) || w.spec.ignored(n))
    ensures Entry(fs, w, n) == iset{}
  {
    forall p ensures p !in Entry(fs, w, n) {
      WithinChild(w.path, n, p);
      if p in Entry(fs, w, n) { EntryListed(fs, w.path, p); }
    }
  }

  lemma EntryOfDir(fs: Tree, w: Watch, n: string)
    requires WellFormed(fs) && Lists(fs, w.path, n) && !w.spec.ignored(n) && IsDir(fs, w.path + [n])
    ensures var c := Watch(w.path + [n], true, w.spec);
            Entry(fs, w, n) == Below(fs, c) + Self(c, !TakesDir(w.spec.options) || !w.spec.watched(n))
  {
    var c := Watch(w.path + [n], true, w.spec);
    Snoc(w.path, n);
    var skipped := !TakesDir(w.spec.options) || !w.spec.watched(n);
    forall p ensures p in Entry(fs, w, n) <==> p in Below(fs, c) + Self(c, skipped) {
      WithinChild(w.path, n, p);
      if p != c.path && Within(c.path, p) {
        assert IsBelow(c.path, p);
        assert WantedBelow(fs, w.spec, w.path, p) <==> WantedBelow(fs, w.spec, c.path, p);
      }
    }
  }

  lemma EntryOfFile(fs: Tree, w: Watch, n: string)
    requires WellFormed(fs) && Lists(fs, w.path, n) && !w.spec.ignored(n) && IsFile(fs, w.path + [n])
    ensures Entry(fs, w, n) == if TakesFile(w.spec.options) && w.spec.watched(n) then iset{w.path + [n]} else iset{}
  {
    Snoc(w.path, n);
    forall p ensures p in Entry(fs, w, n) <==> p == w.path + [n] && TakesFile(w.spec.options) && w.spec.watched(n) {
      WithinChild(w.path, n, p);
      if p in Entry(fs, w, n) { EntryListed(fs, w.path, p); }
    }
  }

  /** What is left of a when the paths of gone go. */
  ghost function Less(a: map<Path, Watch>, gone: iset<Path>): map<Path, Watch> { map p | p in a && p !in gone :: a[p] }

  ghost function BelowPath(dir: Path): iset<Path> { iset p | IsBelow(dir, p) }

  ghost function WithinPath(dir: Path): iset<Path> { iset p | Within(dir, p) }

  /** Removing a directory undoes adding it: what is left is what there was before,
      less anything registered within it. */
  lemma RemovalUndoesAdd(willing: bool, fs: Tree, w: Watch, a: map<Path, Watch>, b: map<Path, Watch>, skipped: bool)
    requires Grows(willing, fs, w.spec, a, b, Below(fs, w) + Self(w, skipped))
    ensures Less(b, WithinPath(w.path)) == Less(a, WithinPath(w.path))
  {
    forall p | p in b && p !in a ensures Within(w.path, p) {
      WithinCases(w.path, p);
    }
  }

  /** The sets of options under which each kind is registered, one by one. */
  lemma KindsTaken(options: nat)
    requires options < 8
    ensures TakesDir(options) <==> options in {0, 2, 3, 5, 6, 7}
    ensures TakesFile(options) <==> options in {0, 1, 3, 5, 7}
    ensures MeansDir(options) <==> options in {0, 2, 3, 6, 7}
  {
    assert options == 0 || options == 1 || options == 2 || options == 3 ||
           options == 4 || options == 5 || options == 6 || options == 7;
  }

  /** The kinds a recursive add registers are the documented ones for every set of
      options but {files, symlinks}, which takes directories too. */
  lemma OptionsAsDocumented(options: nat)
    requires options < 8
    ensures TakesDir(options) == MeansDir(options) <==> options != FILES + SYMLINKS
  {
    assert options == 0 || options == 1 || options == 2 || options == 3 ||
           options == 4 || options == 5 || options == 6 || options == 7;
  }

  /** With files and symlinks asked for, a recursive add takes a directory. */
  lemma OptionsTakeDirectory(spec: Spec)
    requires spec.options == FILES + SYMLINKS && !spec.ignored("d") && spec.watched("d")
    ensures !MeansDir(spec.options)
    ensures ["d"] in Below(map[[] := Dir(0, 0, ["d"]), ["d"] := Dir(0, 0, [])], Watch([], true, spec))
  {
    var p: Path := ["d"];
    assert Last(p) == "d" && p[..0] == [];
  }
}
