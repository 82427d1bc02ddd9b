/** uthash tables as every client sees them: keys in insertion order, and a map. */
module Tables {
  ghost predicate NoDup<T>(s: seq<T>) { forall i, j :: 0 <= i < j < |s| ==> s[i] != s[j] }

  function Least(m: nat, n: nat): nat { if m < n then m else n }

  /** s without the element at place i. */
  function RemoveAt<T>(s: seq<T>, i: nat): (r: seq<T>)
    requires i < |s|
    ensures |r| == |s| - 1
    ensures forall j :: 0 <= j < |r| ==> r[j] == if j < i then s[j] else s[j + 1]
  {
    s[..i] + s[i + 1..]
  }

  lemma RemoveItems<T>(s: seq<T>, i: nat)
    requires i < |s|
    ensures multiset(s) == multiset(RemoveAt(s, i)) + multiset{s[i]}
  {
    assert s == s[..i] + [s[i]] + s[i + 1..];
  }

  lemma Together<T>(a: seq<T>, b: seq<T>)
    ensures multiset(a + b) == multiset(a) + multiset(b)
  {
  }

  lemma Shifted<T>(a: seq<T>, b: seq<T>, c: seq<T>)
    ensures (a + b) + c == a + (b + c)
  {
  }

  /** The elements of s that keep says so of, in order. */
  function Kept<T(!new)>(s: seq<T>, keep: T -> bool): (r: seq<T>)
    ensures forall x :: x in r <==> x in s && keep(x)
  {
    if s == [] then []
    else if keep(s[|s| - 1]) then Kept(s[..|s| - 1], keep) + [s[|s| - 1]] else Kept(s[..|s| - 1], keep)
  }

  lemma {:induction false} KeptConcat<T(!new)>(a: seq<T>, b: seq<T>, keep: T -> bool)
    ensures Kept(a + b, keep) == Kept(a, keep) + Kept(b, keep)
  {
    if b == [] {
      assert a + b == a;
    } else {
      assert (a + b)[..|a + b| - 1] == a + b[..|b| - 1];
      KeptConcat(a, b[..|b| - 1], keep);
    }
  }

  /** Keys in insertion order, and the entries. */
  ghost predicate Ordered<K(!new), V>(keys: seq<K>, m: map<K, V>) {
    NoDup(keys) && forall k :: k in keys <==> k in m
  }

  function Without<K(==)>(keys: seq<K>, k: K): seq<K> {
    if keys == [] then [] else if keys[0] == k then keys[1..] else [keys[0]] + Without(keys[1..], k)
  }

  lemma {:induction false} WithoutOrdered<K(!new)>(keys: seq<K>, k: K)
    requires NoDup(keys)
    ensures NoDup(Without(keys, k)) && forall j :: j in Without(keys, k) <==> j in keys && j != k
  {
    if keys != [] {
      assert keys == [keys[0]] + keys[1..];
      assert keys[0] !in keys[1..];
      WithoutOrdered(keys[1..], k);
    }
  }

  lemma KeptFront<T(!new)>(x: T, rest: seq<T>, keep: T -> bool)
    ensures Kept([x] + rest, keep) == (if keep(x) then [x] else []) + Kept(rest, keep)
  {
    KeptConcat([x], rest, keep);
    assert [x][..0] == [];
  }

  lemma {:induction false} KeptAll<T(!new)>(s: seq<T>, keep: T -> bool)
    requires forall x :: x in s ==> keep(x)
    ensures Kept(s, keep) == s
  {
    if s != [] { KeptAll(s[..|s| - 1], keep); }
  }

  lemma OrderedRemove<K(!new), V>(keys: seq<K>, m: map<K, V>, k: K)
    requires Ordered(keys, m) && k in m
    ensures Ordered(Without(keys, k), m - {k}) && |Without(keys, k)| == |keys| - 1
  {
    WithoutOrdered(keys, k);
    WithoutLength(keys, k);
  }

  lemma {:induction false} WithoutLength<K>(keys: seq<K>, k: K)
    ensures |Without(keys, k)| == |keys| - if k in keys then 1 else 0
  {
    if keys != [] {
      WithoutLength(keys[1..], k);
    }
  }

  lemma OrderedAdd<K(!new), V>(keys: seq<K>, m: map<K, V>, k: K, v: V)
    requires Ordered(keys, m) && k !in m
    ensures Ordered(keys + [k], m[k := v])
  {
  }

  lemma {:induction false} NoDupBound<T>(s: seq<T>, all: set<T>)
    requires NoDup(s) && forall p :: p in s ==> p in all
    ensures |s| <= |all|
  {
    if s != [] {
      var t, p := s[..|s| - 1], s[|s| - 1];
      NoDupBound(t, all - {p});
    }
  }
}
