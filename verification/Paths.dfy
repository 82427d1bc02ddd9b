/** Paths: the program keeps them as strings and compares prefixes of strings;
    the properties speak of components. This module relates the two. */
module Paths {

  /** Components below a root directory. */
  type Path = seq<string>

  const SEP: char := '/'

  predicate GoodName(n: string) { n != "" && SEP !in n && n != "." && n != ".." }

  ghost predicate GoodPath(p: Path) { forall i :: 0 <= i < |p| ==> GoodName(p[i]) }

  /** How every traversal builds a child's path: no second separator after a root
      that already ends in one. */
  function Join(dir: string, name: string): string {
    if dir != "" && dir[|dir| - 1] == SEP then dir + name else dir + [SEP] + name
  }

  /** The string the program stores for p below root. */
  function Render(root: string, p: Path): string {
    if p == [] then root else Join(Render(root, p[..|p| - 1]), p[|p| - 1])
  }

  function Parent(p: Path): Path
    requires p != []
  {
    p[..|p| - 1]
  }

  function Last(p: Path): string
    requires p != []
  {
    p[|p| - 1]
  }

  /** What the events name: the path after its last separator. */
  function BaseName(path: string): string {
    if path == "" || path[|path| - 1] == SEP then "" else BaseName(path[..|path| - 1]) + [path[|path| - 1]]
  }

  // ---------- the two prefix tests of the sources ----------

  /** scan_path's test for a direct child: strncmp, skip one separator, no further
      separator in a non-empty rest. */
  predicate ChildTest(path: string, dir: string) {
    dir <= path &&
    var rest := path[|dir|..];
    var name := if rest != "" && rest[0] == SEP then rest[1..] else rest;
    name != "" && SEP !in name
  }

  /** inotify_remove_children's test: strncmp and a separator right after. */
  predicate BelowTest(path: string, dir: string) {
    dir <= path && |dir| < |path| && path[|dir|] == SEP
  }

  // ---------- what they mean ----------

  predicate IsChild(d: Path, p: Path) { |p| == |d| + 1 && p[..|d|] == d }

  /** p is a sibling of d whose name properly extends d's name. */
  predicate IsLongerSibling(d: Path, p: Path) {
    d != [] && |p| == |d| && Parent(p) == Parent(d) && Last(d) <= Last(p) && Last(d) != Last(p)
  }

  predicate Loose(d: Path, p: Path) { IsChild(d, p) || IsLongerSibling(d, p) }

  predicate IsBelow(d: Path, p: Path) { |d| < |p| && p[..|d|] == d }

  /** p is d or below it. */
  predicate Within(d: Path, p: Path) { |d| <= |p| && p[..|d|] == d }

  lemma WithinChild(d: Path, n: string, p: Path)
    ensures Within(d + [n], p) <==> IsBelow(d, p) && p[|d|] == n
  {
    if |d| < |p| { assert p[..|d| + 1] == p[..|d|] + [p[|d|]]; }
  }

  lemma WithinTrans(c: Path, p: Path, q: Path)
    requires Within(c, p) && Within(p, q)
    ensures Within(c, q)
  {
    assert q[..|p|][..|c|] == q[..|c|];
  }

  lemma WithinCases(d: Path, p: Path)
    ensures Within(d, p) <==> p == d || IsBelow(d, p)
  {
    if Within(d, p) && |p| == |d| { assert p[..|d|] == p; }
  }

  /** Components joined by separators. */
  function Joined(p: Path): string {
    if p == [] then "" else if |p| == 1 then p[0] else p[0] + ([SEP] + Joined(p[1..]))
  }

  function Lead(root: string): string { if root != "" && root[|root| - 1] == SEP then "" else [SEP] }

  lemma {:induction false} JoinedSnoc(p: Path, n: string)
    requires p != []
    ensures Joined(p + [n]) == Joined(p) + ([SEP] + n)
  {
    if |p| == 1 {
      assert (p + [n])[1..] == [n];
    } else {
      JoinedSnoc(p[1..], n);
      assert (p + [n])[1..] == p[1..] + [n];
      assert p[0] + ([SEP] + (Joined(p[1..]) + ([SEP] + n))) == (p[0] + ([SEP] + Joined(p[1..]))) + ([SEP] + n);
    }
  }

  lemma JoinedEnd(p: Path)
    requires p != [] && GoodPath(p)
    ensures Joined(p) != "" && Joined(p)[|Joined(p)| - 1] != SEP
  {
    if |p| > 1 { JoinedEnd(p[1..]); }
  }

  lemma {:induction false} RenderSplit(root: string, p: Path)
    requires p != [] && GoodPath(p)
    ensures Render(root, p) == (root + Lead(root)) + Joined(p)
  {
    var q, n := Parent(p), Last(p);
    if q == [] {
      assert Render(root, q) == root && p == [n];
    } else {
      RenderSplit(root, q);
      JoinedEnd(q);
      JoinedSnoc(q, n);
      assert p == q + [n];
    }
  }

  /** A name without separators is a prefix of name-then-rest iff of the name. */
  lemma NamePrefix(a: string, b: string, v: string)
    requires SEP !in a && (v == "" || v[0] == SEP)
    ensures a <= b + v <==> a <= b
    ensures a <= b ==> (b + v)[|a|..] == b[|a|..] + v
  {
    if |b| < |a| <= |b + v| {
      assert (b + v)[|b|] == SEP && a[|b|] in a;
    }
    if a <= b { assert forall i :: 0 <= i < |a| ==> (b + v)[i] == b[i] == a[i]; }
    if a <= b + v && |a| <= |b| { assert forall i :: 0 <= i < |a| ==> a[i] == (b + v)[i] == b[i]; }
  }

  lemma FirstNameEqual(a: string, b: string, u: string, v: string)
    requires SEP !in a && SEP !in b && u != "" && u[0] == SEP && (v == "" || v[0] == SEP)
    ensures a + u <= b + v <==> a == b && u <= v
    ensures a == b && u <= v ==> (b + v)[|a + u|..] == v[|u|..]
  {
    if |a| < |b| {
      assert (a + u)[|a|] == SEP && (b + v)[|a|] == b[|a|] && b[|a|] in b;
    } else if |b| < |a| && |a + u| <= |b + v| {
      assert (b + v)[|b|] == SEP && (a + u)[|b|] == a[|b|] && a[|b|] in a;
    }
    if a + u <= b + v {
      assert forall i :: 0 <= i < |a| ==> a[i] == (a + u)[i] == (b + v)[i] == b[i];
      assert forall i :: 0 <= i < |u| ==> u[i] == (a + u)[|a| + i] == (b + v)[|a| + i] == v[i];
    }
  }

  /** The components of d are those of p, but for the last, which is a prefix. */
  predicate PrefixPath(d: Path, p: Path) {
    && 0 < |d| <= |p| && d[..|d| - 1] == p[..|d| - 1] && d[|d| - 1] <= p[|d| - 1]
  }

  /** What the string comparison leaves of p after d. */
  function Leftover(d: Path, p: Path): string
    requires PrefixPath(d, p)
  {
    p[|d| - 1][|d[|d| - 1]|..] + if |p| > |d| then [SEP] + Joined(p[|d|..]) else ""
  }

  lemma {:induction false} JoinedPrefix(d: Path, p: Path)
    requires d != [] && p != [] && GoodPath(d) && GoodPath(p)
    ensures Joined(d) <= Joined(p) <==> PrefixPath(d, p)
    ensures PrefixPath(d, p) ==> Joined(p)[|Joined(d)|..] == Leftover(d, p)
    decreases |d|
  {
    var v := if |p| > 1 then [SEP] + Joined(p[1..]) else "";
    assert Joined(p) == p[0] + v;
    if |d| == 1 {
      NamePrefix(d[0], p[0], v);
    } else {
      var u := [SEP] + Joined(d[1..]);
      FirstNameEqual(d[0], p[0], u, v);
      assert Joined(d) == d[0] + u;
      if |p| > 1 {
        JoinedPrefix(d[1..], p[1..]);
        PrefixAppend([SEP], Joined(d[1..]), Joined(p[1..]));
        PrefixPathTail(d, p);
        if PrefixPath(d, p) { LeftoverTail(d, p); }
      }
    }
  }

  lemma LeftoverTail(d: Path, p: Path)
    requires |d| > 1 && |p| > 1 && PrefixPath(d, p) && PrefixPath(d[1..], p[1..])
    ensures Leftover(d, p) == Leftover(d[1..], p[1..])
  {
    assert p[1..][|d| - 1..] == p[|d|..];
  }

  lemma PrefixPathTail(d: Path, p: Path)
    requires |d| > 1 && |p| > 1
    ensures PrefixPath(d, p) <==> d[0] == p[0] && PrefixPath(d[1..], p[1..])
  {
    if |d| <= |p| {
      assert d[1..][..|d| - 2] == d[..|d| - 1][1..] && p[1..][..|d| - 2] == p[..|d| - 1][1..];
      assert d[..|d| - 1] == [d[0]] + d[..|d| - 1][1..] && p[..|d| - 1] == [p[0]] + p[..|d| - 1][1..];
    }
  }

  lemma PrefixAppend(r: string, a: string, b: string)
    ensures r + a <= r + b <==> a <= b
    ensures a <= b ==> (r + b)[|r + a|..] == b[|a|..]
  {
    if r + a <= r + b {
      assert |a| <= |b|;
      forall i | 0 <= i < |a| ensures a[i] == b[i] {
        assert a[i] == (r + a)[|r| + i] == (r + b)[|r| + i];
      }
    }
    if a <= b {
      forall i | 0 <= i < |r + a| ensures (r + a)[i] == (r + b)[i] {
        assert i >= |r| ==> a[i - |r|] == b[i - |r|];
      }
    }
  }

  lemma RenderPrefix(root: string, d: Path, p: Path)
    requires d != [] && p != [] && GoodPath(d) && GoodPath(p)
    ensures Render(root, d) <= Render(root, p) <==> PrefixPath(d, p)
    ensures PrefixPath(d, p) ==> Render(root, p)[|Render(root, d)|..] == Leftover(d, p)
  {
    RenderSplit(root, d);
    RenderSplit(root, p);
    JoinedPrefix(d, p);
    PrefixAppend(root + Lead(root), Joined(d), Joined(p));
  }

  lemma JoinedSep(p: Path)
    requires p != [] && GoodPath(p)
    ensures SEP in Joined(p) <==> |p| > 1
  {
    if |p| > 1 { assert Joined(p)[|p[0]|] == SEP; }
  }

  /** scan_path's test holds of the direct children of d, and of siblings whose
      name merely starts with d's name. */
  lemma ChildTestMeaning(root: string, d: Path, p: Path)
    requires GoodPath(d) && GoodPath(p)
    ensures ChildTest(Render(root, p), Render(root, d)) <==> Loose(d, p)
  {
    if p == [] {
      RootIsNoChild(root, d);
    } else if d == [] {
      ChildOfRoot(root, p);
    } else {
      RenderPrefix(root, d, p);
      if PrefixPath(d, p) {
        LeftoverTest(d, p);
      } else if Loose(d, p) {
      }
    }
  }

  lemma RootIsNoChild(root: string, d: Path)
    requires GoodPath(d)
    ensures !ChildTest(root, Render(root, d))
  {
    if d != [] { RenderSplit(root, d); JoinedEnd(d); }
  }

  lemma ChildOfRoot(root: string, p: Path)
    requires p != [] && GoodPath(p)
    ensures ChildTest(Render(root, p), root) <==> Loose([], p)
  {
    RenderSplit(root, p);
    StartsGood(p);
    JoinedSep(p);
    assert p[..0] == [];
  }

  lemma StartsGood(p: Path)
    requires p != [] && GoodPath(p)
    ensures Joined(p) != "" && Joined(p)[0] != SEP
  {
    assert Joined(p)[0] == p[0][0];
  }

  lemma LeftoverTest(d: Path, p: Path)
    requires GoodPath(d) && GoodPath(p) && PrefixPath(d, p)
    ensures var rest := Leftover(d, p);
            var name := if rest != "" && rest[0] == SEP then rest[1..] else rest;
            (name != "" && SEP !in name) <==> Loose(d, p)
  {
    var n := |d|;
    var suffix := p[n - 1][|d[n - 1]|..];
    assert suffix == "" <==> d[n - 1] == p[n - 1];
    assert SEP !in suffix;
    if |p| == n {
      assert Leftover(d, p) == suffix;
      assert suffix != "" ==> suffix[0] in suffix;
    } else {
      var tail := p[n..];
      var rest := Leftover(d, p);
      assert rest == suffix + ([SEP] + Joined(tail));
      StartsGood(tail);
      JoinedSep(tail);
      assert p[..n] == p[..n - 1] + [p[n - 1]] && d == d[..n - 1] + [d[n - 1]];
      if suffix == "" {
        assert rest[1..] == Joined(tail);
      } else {
        assert rest[0] == suffix[0] && suffix[0] in suffix;
        assert rest[|suffix|] == SEP;
      }
    }
  }

  /** inotify_remove_children's test holds of exactly the paths below d. */
  lemma BelowTestMeaning(root: string, d: Path, p: Path)
    requires d != [] && GoodPath(d) && GoodPath(p)
    ensures BelowTest(Render(root, p), Render(root, d)) <==> IsBelow(d, p)
  {
    if p == [] {
      RenderSplit(root, d);
    } else {
      RenderPrefix(root, d, p);
      if PrefixPath(d, p) {
        var rest := Render(root, p)[|Render(root, d)|..];
        assert rest != "" ==> rest[0] == Render(root, p)[|Render(root, d)|];
        LeftoverBelow(d, p);
      } else if IsBelow(d, p) {
      }
    }
  }

  lemma LeftoverBelow(d: Path, p: Path)
    requires GoodPath(p) && PrefixPath(d, p)
    ensures Leftover(d, p) != "" && Leftover(d, p)[0] == SEP <==> IsBelow(d, p)
  {
    var n := |d|;
    var suffix := p[n - 1][|d[n - 1]|..];
    assert suffix == "" <==> d[n - 1] == p[n - 1];
    assert suffix != "" ==> suffix[0] in suffix && Leftover(d, p)[0] == suffix[0];
    assert p[..n] == p[..n - 1] + [p[n - 1]] && d == d[..n - 1] + [d[n - 1]];
  }

  lemma PrefixBoth(p: Path, q: Path)
    requires PrefixPath(p, q) && PrefixPath(q, p)
    ensures p == q
  {
    assert |p| == |q| && p[|p| - 1] == q[|q| - 1];
    assert p == p[..|p| - 1] + [p[|p| - 1]] && q == q[..|q| - 1] + [q[|q| - 1]];
  }

  lemma RenderLonger(root: string, p: Path)
    requires p != [] && GoodPath(p)
    ensures |Render(root, p)| > |Render(root, [])|
  {
    RenderSplit(root, p);
    JoinedEnd(p);
  }

  /** Different component lists are stored as different strings. */
  lemma RenderInjective(root: string, p: Path, q: Path)
    requires GoodPath(p) && GoodPath(q) && Render(root, p) == Render(root, q)
    ensures p == q
  {
    hide Render, Joined, GoodPath, PrefixPath;
    if p == [] || q == [] {
      if p != [] { RenderLonger(root, p); }
      if q != [] { RenderLonger(root, q); }
    } else {
      RenderPrefix(root, p, q);
      RenderPrefix(root, q, p);
      PrefixBoth(p, q);
    }
  }

  lemma {:induction false} BaseNameAfter(a: string, n: string)
    requires SEP !in n && (a == "" || a[|a| - 1] == SEP)
    ensures BaseName(a + n) == n
  {
    if n == "" {
      assert a + n == a;
    } else {
      var m := n[..|n| - 1];
      assert (a + n)[..|a + n| - 1] == a + m && (a + n)[|a + n| - 1] == n[|n| - 1];
      BaseNameAfter(a, m);
      assert m + [n[|n| - 1]] == n;
    }
  }

  /** An event names the last component of its path. */
  lemma BaseNameIsLast(root: string, p: Path)
    requires p != [] && GoodPath(p)
    ensures BaseName(Render(root, p)) == Last(p)
  {
    var dir := Render(root, Parent(p));
    if dir != "" && dir[|dir| - 1] == SEP {
      BaseNameAfter(dir, Last(p));
    } else {
      BaseNameAfter(dir + [SEP], Last(p));
    }
  }
}
