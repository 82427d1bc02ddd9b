/** A file tree frozen at one moment: what stat and readdir report below a root. */
module FileTree {
  import opened Tables
  import opened Paths

  datatype Node = File(mtime: nat, size: nat) | Dir(mtime: nat, size: nat, names: seq<string>)

  /** Every existing path below the root; the root itself is the empty path. */
  type Tree = map<Path, Node>

  predicate IsDot(n: string) { n == "." || n == ".." }

  predicate IsDir(fs: Tree, p: Path) { p in fs && fs[p].Dir? }

  predicate IsFile(fs: Tree, p: Path) { p in fs && fs[p].File? }

  /** d lists n as a proper entry. */
  predicate Lists(fs: Tree, d: Path, n: string) { IsDir(fs, d) && n in fs[d].names && !IsDot(n) }

  /** Directories list their entries once each, and exactly what exists exists. */
  ghost predicate WellFormed(fs: Tree) {
    && (forall d :: IsDir(fs, d) ==> NoDup(fs[d].names))
    && (forall d, n :: Lists(fs, d, n) ==> GoodName(n) && d + [n] in fs)
    && (forall p {:trigger Lists(fs, Parent(p), Last(p))} :: p in fs && p != [] ==> Lists(fs, Parent(p), Last(p)))
  }

  lemma DotsDiffer(names: seq<string>)
    requires NoDup(names) && "." !in names && ".." !in names
    ensures NoDup([".", ".."] + names)
  {
    var all := [".", ".."] + names;
    assert all[0] == "." && all[1] == ".." && |all[0]| == 1 && |all[1]| == 2;
    forall i, j | 0 <= i < j < |all| ensures all[i] != all[j] {
      if j >= 2 { assert all[j] == names[j - 2] && all[j] in names; }
      if i >= 2 { assert all[i] == names[i - 2]; }
    }
  }

  /** A directory of files may list "." and ".." beside them, as readdir does. */
  lemma DotsAreListed(fs: Tree, names: seq<string>)
    requires NoDup(names) && forall n :: n in names ==> GoodName(n) && [n] in fs
    requires IsDir(fs, []) && fs[[]].names == [".", ".."] + names
    requires forall p :: p in fs && p != [] ==> fs[p].File? && |p| == 1 && p[0] in names
    ensures WellFormed(fs)
  {
    forall d, n | Lists(fs, d, n) ensures GoodName(n) && d + [n] in fs {
      assert d == [] && n in names && [] + [n] == [n];
    }
    forall p | p in fs && p != [] ensures Lists(fs, Parent(p), Last(p)) {
      assert Parent(p) == [] && Last(p) == p[0];
    }
    DotsDiffer(names);
  }

  lemma Snoc(d: Path, n: string)
    ensures d + [n] != [] && Parent(d + [n]) == d && Last(d + [n]) == n
  {
  }

  lemma {:induction false} TreePaths(fs: Tree, p: Path)
    requires WellFormed(fs) && p in fs
    ensures GoodPath(p)
    decreases |p|
  {
    if p != [] {
      assert Lists(fs, Parent(p), Last(p));
      TreePaths(fs, Parent(p));
      assert p == Parent(p) + [Last(p)];
    }
  }

  /** Prefixes of an existing path are directories. */
  lemma {:induction false} TreePrefix(fs: Tree, p: Path, k: nat)
    requires WellFormed(fs) && p in fs && k < |p|
    ensures IsDir(fs, p[..k])
    decreases |p|
  {
    assert Lists(fs, Parent(p), Last(p));
    if k < |p| - 1 {
      TreePrefix(fs, Parent(p), k);
      assert Parent(p)[..k] == p[..k];
    }
  }

  /** Length of the string below the root; both ways of going down lengthen it. */
  function Weight(p: Path): nat {
    if p == [] then 0 else Weight(Parent(p)) + |Last(p)| + 1
  }

  lemma ChildWeight(d: Path, n: string)
    ensures Weight(d + [n]) > Weight(d)
  {
    Snoc(d, n);
  }

  lemma LooseWeight(d: Path, p: Path)
    requires Loose(d, p)
    ensures Weight(p) > Weight(d) && p != []
  {
    if IsChild(d, p) {
      assert Parent(p) == d;
    } else {
      assert |Last(d)| < |Last(p)|;
    }
  }

  /** A bound on the weights of finitely many paths. */
  lemma WeightBound(s: set<Path>) returns (m: nat)
    ensures forall p :: p in s ==> Weight(p) <= m
  {
    if s == {} {
      m := 0;
    } else {
      var p :| p in s;
      m := WeightBound(s - {p});
      if m < Weight(p) { m := Weight(p); }
    }
  }
}
