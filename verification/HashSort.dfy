/** HASH_SRT of include/uthash.h: the in-place bottom-up merge sort of the
    application-order list. */
module HashSort {
  import opened Tables
  import opened UtHash

  /** The comparison cmpfcn(a, b) <= 0, on the keys of two items. */
  type Order = (string, string) -> bool

  ghost predicate TotalPreorder(le: Order) {
    && (forall x, y :: le(x, y) || le(y, x))
    && (forall x, y, z :: le(x, y) && le(y, z) ==> le(x, z))
  }

  // ---------- what one call computes, on sequences ----------

  function Take<T>(s: seq<T>, k: nat): seq<T> { if k <= |s| then s[..k] else s }

  function Drop<T>(s: seq<T>, k: nat): seq<T> { if k <= |s| then s[k..] else [] }

  function Merge(p: seq<Handle>, q: seq<Handle>, le: Order): (r: seq<Handle>)
    ensures |r| == |p| + |q|
  {
    if p == [] then q
    else if q == [] then p
    else if le(p[0].key, q[0].key) then [p[0]] + Merge(p[1..], q, le)
    else [q[0]] + Merge(p, q[1..], le)
  }

  /** One pass: neighbouring runs of length k merged pairwise. */
  function Pass(s: seq<Handle>, k: nat, le: Order): (r: seq<Handle>)
    requires k > 0
    ensures |r| == |s|
    decreases |s|
  {
    if s == [] then [] else Merge(Take(s, k), Take(Drop(s, k), k), le) + Pass(Drop(s, 2 * k), k, le)
  }

  function Merges(s: seq<Handle>, k: nat): nat
    requires k > 0
    decreases |s|
  {
    if s == [] then 0 else 1 + Merges(Drop(s, 2 * k), k)
  }

  /** A pass stops the sort, having merged at most once, when two runs cover the list. */
  lemma MergesOne(s: seq<Handle>, k: nat)
    requires k > 0
    ensures Merges(s, k) <= 1 <==> |s| <= 2 * k
  {
    if s != [] {
      var t := Drop(s, 2 * k);
      assert Merges(t, k) == 0 <==> t == [];
    }
  }

  /** Passes with doubling run length until one merge does it all. */
  function SortFrom(s: seq<Handle>, k: nat, le: Order): seq<Handle>
    requires k > 0
    decreases if k < |s| then |s| - k else 0
  {
    if |s| <= 2 * k then Pass(s, k, le) else SortFrom(Pass(s, k, le), 2 * k, le)
  }

  // ---------- the result is a sorted, stable permutation ----------

  ghost predicate Sorted(s: seq<Handle>, le: Order) {
    s != [] ==> (forall h :: h in s[1..] ==> le(s[0].key, h.key)) && Sorted(s[1..], le)
  }

  /** The items that tie with x, in order. */
  function Ties(s: seq<Handle>, x: string, le: Order): seq<Handle> {
    if s == [] then []
    else if le(x, s[0].key) && le(s[0].key, x) then [s[0]] + Ties(s[1..], x, le)
    else Ties(s[1..], x, le)
  }

  lemma {:induction false} TiesConcat(s: seq<Handle>, t: seq<Handle>, x: string, le: Order)
    ensures Ties(s + t, x, le) == Ties(s, x, le) + Ties(t, x, le)
  {
    if s == [] {
      assert s + t == t;
    } else {
      TiesConcat(s[1..], t, x, le);
      assert (s + t)[0] == s[0] && (s + t)[1..] == s[1..] + t;
      var a, b := Ties(s[1..], x, le), Ties(t, x, le);
      assert ([s[0]] + a) + b == [s[0]] + (a + b);
    }
  }

  lemma {:induction false} MergeItems(p: seq<Handle>, q: seq<Handle>, le: Order)
    ensures multiset(Merge(p, q, le)) == multiset(p) + multiset(q)
  {
    if p != [] && q != [] {
      assert p == [p[0]] + p[1..] && q == [q[0]] + q[1..];
      if le(p[0].key, q[0].key) { MergeItems(p[1..], q, le); } else { MergeItems(p, q[1..], le); }
    }
  }

  lemma {:induction false} MergeSorted(p: seq<Handle>, q: seq<Handle>, le: Order)
    requires TotalPreorder(le) && Sorted(p, le) && Sorted(q, le)
    ensures Sorted(Merge(p, q, le), le)
  {
    if p != [] && q != [] {
      var r := Merge(p, q, le);
      if le(p[0].key, q[0].key) {
        MergeSorted(p[1..], q, le);
        MergeItems(p[1..], q, le);
        assert r[1..] == Merge(p[1..], q, le);
        forall h | h in r[1..] ensures le(p[0].key, h.key) {
          assert h in multiset(r[1..]);
          assert h in p[1..] || h == q[0] || h in q[1..];
        }
      } else {
        MergeSorted(p, q[1..], le);
        MergeItems(p, q[1..], le);
        assert r[1..] == Merge(p, q[1..], le);
        forall h | h in r[1..] ensures le(q[0].key, h.key) {
          assert h in multiset(r[1..]);
          assert h in q[1..] || h == p[0] || h in p[1..];
        }
      }
    }
  }

  lemma {:induction false} NoTies(s: seq<Handle>, x: string, le: Order)
    requires forall h :: h in s ==> !(le(x, h.key) && le(h.key, x))
    ensures Ties(s, x, le) == []
  {
    if s != [] { NoTies(s[1..], x, le); }
  }

  /** Ties keep their order: all of p's before all of q's. */
  lemma {:induction false} MergeStable(p: seq<Handle>, q: seq<Handle>, x: string, le: Order)
    requires TotalPreorder(le) && Sorted(p, le)
    ensures Ties(Merge(p, q, le), x, le) == Ties(p, x, le) + Ties(q, x, le)
  {
    if p != [] && q != [] {
      if le(p[0].key, q[0].key) {
        MergeStable(p[1..], q, x, le);
        assert Merge(p, q, le)[1..] == Merge(p[1..], q, le);
      } else {
        MergeStable(p, q[1..], x, le);
        assert Merge(p, q, le)[1..] == Merge(p, q[1..], le);
        if le(x, q[0].key) && le(q[0].key, x) {
          forall h | h in p ensures !le(h.key, x) {
            assert h == p[0] || h in p[1..];
          }
          NoTies(p, x, le);
        }
      }
    }
  }

  /** Aligned blocks of length k are sorted. */
  ghost predicate Runs(s: seq<Handle>, k: nat, le: Order)
    requires k > 0
    decreases |s|
  {
    s != [] ==> Sorted(Take(s, k), le) && Runs(Drop(s, k), k, le)
  }

  lemma {:induction false} SingleRuns(s: seq<Handle>, le: Order)
    ensures Runs(s, 1, le)
  {
    if s != [] { SingleRuns(Drop(s, 1), le); }
  }

  lemma {:induction false} PassRuns(s: seq<Handle>, k: nat, le: Order)
    requires k > 0 && TotalPreorder(le) && Runs(s, k, le)
    ensures Runs(Pass(s, k, le), 2 * k, le)
    decreases |s|
  {
    if s != [] {
      var p, q, rest := Take(s, k), Take(Drop(s, k), k), Drop(s, 2 * k);
      assert rest == Drop(Drop(s, k), k);
      assert Sorted(q, le);
      MergeSorted(p, q, le);
      PassRuns(rest, k, le);
      var m := Merge(p, q, le);
      assert Pass(s, k, le) == m + Pass(rest, k, le);
      assert if |s| >= 2 * k then |m| == 2 * k else rest == [];
      assert Take(Pass(s, k, le), 2 * k) == m && Drop(Pass(s, k, le), 2 * k) == Pass(rest, k, le);
    }
  }

  lemma {:induction false} PassKeeps(s: seq<Handle>, k: nat, x: string, le: Order)
    requires k > 0 && TotalPreorder(le) && Runs(s, k, le)
    ensures multiset(Pass(s, k, le)) == multiset(s)
    ensures Ties(Pass(s, k, le), x, le) == Ties(s, x, le)
    decreases |s|
  {
    if s != [] {
      var p, q, rest := Take(s, k), Take(Drop(s, k), k), Drop(s, 2 * k);
      assert rest == Drop(Drop(s, k), k);
      assert s == (p + q) + rest;
      MergeItems(p, q, le);
      MergeStable(p, q, x, le);
      PassKeeps(rest, k, x, le);
      TiesConcat(p, q, x, le);
      TiesConcat(p + q, rest, x, le);
      TiesConcat(Merge(p, q, le), Pass(rest, k, le), x, le);
    }
  }

  lemma {:induction false} SortFromCorrect(s: seq<Handle>, k: nat, x: string, le: Order)
    requires k > 0 && TotalPreorder(le) && Runs(s, k, le)
    ensures var r := SortFrom(s, k, le);
            Sorted(r, le) && multiset(r) == multiset(s) && Ties(r, x, le) == Ties(s, x, le)
    decreases if k < |s| then |s| - k else 0
  {
    var t := Pass(s, k, le);
    PassRuns(s, k, le);
    PassKeeps(s, k, x, le);
    if |s| <= 2 * k {
      assert Take(t, 2 * k) == t;
    } else {
      SortFromCorrect(t, 2 * k, x, le);
    }
  }

  /** HASH_SRT yields a sorted permutation in which ties keep their order. */
  lemma SortCorrect(s: seq<Handle>, le: Order)
    requires TotalPreorder(le)
    ensures Sorted(SortFrom(s, 1, le), le) && multiset(SortFrom(s, 1, le)) == multiset(s)
    ensures forall x :: Ties(SortFrom(s, 1, le), x, le) == Ties(s, x, le)
  {
    SingleRuns(s, le);
    forall x ensures Ties(SortFrom(s, 1, le), x, le) == Ties(s, x, le) {
      SortFromCorrect(s, 1, x, le);
    }
    SortFromCorrect(s, 1, "", le);
  }

  // ---------- the pointer program ----------

  /** next leads through s; what follows the last item is not relied on. */
  ghost predicate NextInside(s: seq<Handle>)
    reads Elems(s)`next
  {
    forall i {:trigger s[i].next} :: 0 <= i < |s| - 1 ==> s[i].next == s[i + 1]
  }

  /** next leads through s to its end. */
  ghost predicate NextThrough(s: seq<Handle>)
    reads Elems(s)`next
  {
    forall i {:trigger s[i].next} :: 0 <= i < |s| ==> s[i].next == At(s, i + 1)
  }

  ghost predicate PrevThrough(s: seq<Handle>)
    reads Elems(s)`prev
  {
    forall i {:trigger s[i].prev} :: 0 <= i < |s| ==> s[i].prev == At(s, i - 1)
  }

  /** The merged output so far, linked both ways except past its last item. */
  ghost predicate Output(out: seq<Handle>, list: Handle?, tail: Handle?)
    reads Elems(out)`next, Elems(out)`prev
  {
    list == At(out, 0) && tail == At(out, |out| - 1) && NextInside(out) && PrevThrough(out)
  }

  /** Put e at the end of the output. */
  method Append(list0: Handle?, tail0: Handle?, e: Handle, ghost out: seq<Handle>) returns (list: Handle?, tail: Handle)
    requires Output(out, list0, tail0) && NoDup(out) && e !in out
    modifies (if out == [] then {} else {out[|out| - 1]})`next, e`prev
    ensures Output(out + [e], list, tail)
  {
    list := list0;
    if tail0 != null { tail0.next := e; } else { list := e; }
    e.prev := tail0;
    tail := e;
  }

  /** Skip a first run of at most size items. */
  method SkipRun(p: Handle, size: nat, ghost s: seq<Handle>) returns (q: Handle?, n: nat)
    requires size > 0 && |s| > 0 && p == s[0] && NextThrough(s)
    ensures n == |Take(s, size)| && q == At(s, n)
  {
    q, n := p, 0;
    for i := 0 to size
      invariant n == i <= |s| && q == At(s, n) && (i < size ==> q != null)
    {
      n := n + 1;
      q := q.next;
      if q == null { break; }
    }
  }

  /** Nothing is shared or repeated among output, first run and the rest. */
  ghost predicate Apart3(out: seq<Handle>, p: seq<Handle>, r: seq<Handle>) {
    && NoDup(out) && NoDup(p) && NoDup(r)
    && (forall h :: h in out ==> h !in p && h !in r)
    && (forall h :: h in p ==> h !in r)
  }

  /** What is still to come when the two runs are p and the first limit of r. */
  function ToMerge(p: seq<Handle>, r: seq<Handle>, limit: nat, le: Order): seq<Handle> {
    Merge(p, Take(r, limit), le)
  }

  lemma NextThroughTail(s: seq<Handle>)
    requires s != [] && NextThrough(s)
    ensures NextThrough(s[1..]) && s[0].next == At(s[1..], 0)
  {
    assert forall i {:trigger s[1..][i].next} :: 0 <= i < |s| - 1 ==> s[1..][i].next == At(s, i + 2);
  }

  lemma NextInsideTail(s: seq<Handle>)
    requires s != [] && NextInside(s)
    ensures NextInside(s[1..]) && (s[1..] != [] ==> s[0].next == s[1..][0])
  {
    assert forall i {:trigger s[1..][i].next} :: 0 <= i < |s| - 2 ==> s[1..][i].next == s[i + 2];
  }

  lemma NoDupMove(out: seq<Handle>, s: seq<Handle>)
    requires NoDup(out) && NoDup(s) && s != [] && s[0] !in out
    ensures NoDup(out + [s[0]]) && NoDup(s[1..]) && s[0] !in s[1..]
  {
  }

  /** out, p and r after one item of p, or of r, has moved to the output. */
  lemma ApartMove(out: seq<Handle>, p: seq<Handle>, r: seq<Handle>)
    requires Apart3(out, p, r)
    ensures p != [] ==> Apart3(out + [p[0]], p[1..], r)
    ensures r != [] ==> Apart3(out + [r[0]], p, r[1..])
  {
    if p != [] { NoDupMove(out, p); }
    if r != [] { NoDupMove(out, r); }
  }

  lemma TakeP(p: seq<Handle>, r: seq<Handle>, limit: nat, le: Order, out: seq<Handle>)
    requires p != [] && (Take(r, limit) == [] || le(p[0].key, r[0].key))
    ensures out + ToMerge(p, r, limit, le) == (out + [p[0]]) + ToMerge(p[1..], r, limit, le)
  {
    assert Take(r, limit) == [] ==> Merge(p[1..], Take(r, limit), le) == p[1..];
    assert ToMerge(p, r, limit, le) == [p[0]] + ToMerge(p[1..], r, limit, le);
  }

  lemma TakeR(p: seq<Handle>, r: seq<Handle>, limit: nat, le: Order, out: seq<Handle>)
    requires r != [] && limit > 0 && (p == [] || !le(p[0].key, r[0].key))
    ensures out + ToMerge(p, r, limit, le) == (out + [r[0]]) + ToMerge(p, r[1..], limit - 1, le)
    ensures Drop(r, limit) == Drop(r[1..], limit - 1)
  {
    var q := Take(r, limit);
    assert q[1..] == Take(r[1..], limit - 1) && q[0] == r[0];
    MergeRight(p, q, le);
    assert out + ([r[0]] + Merge(p, q[1..], le)) == (out + [r[0]]) + Merge(p, q[1..], le);
  }

  lemma MergeRight(p: seq<Handle>, q: seq<Handle>, le: Order)
    requires q != [] && (p == [] || !le(p[0].key, q[0].key))
    ensures Merge(p, q, le) == [q[0]] + Merge(p, q[1..], le)
  {
  }

  /** The state of the innermost loop: psize items of the first run at p, the
      rest of the list at q, and the output linked from list to tail. */
  ghost predicate Merging(p: Handle?, psize: nat, q: Handle?, list: Handle?, tail: Handle?,
                          P: seq<Handle>, R: seq<Handle>, out: seq<Handle>)
    reads (Elems(P) + Elems(R) + Elems(out))`next, (Elems(P) + Elems(R) + Elems(out))`prev
  {
    && |P| == psize && (P != [] ==> p == P[0]) && NextInside(P)
    && q == At(R, 0) && NextThrough(R)
    && Apart3(out, P, R) && Output(out, list, tail)
  }

  /** The item at p moves to the output. */
  method MoveFirst(p0: Handle?, psize: nat, q: Handle?, list0: Handle?, tail0: Handle?,
                   ghost P0: seq<Handle>, ghost R: seq<Handle>, ghost out0: seq<Handle>)
    returns (p: Handle?, list: Handle?, tail: Handle?, ghost P: seq<Handle>, ghost out: seq<Handle>)
    requires Merging(p0, psize, q, list0, tail0, P0, R, out0) && psize > 0
    modifies Elems(out0)`next, (Elems(P0) + Elems(out0))`prev
    ensures P == P0[1..] && out == out0 + [P0[0]]
    ensures Merging(p, psize - 1, q, list, tail, P, R, out)
  {
    ApartMove(out0, P0, R);
    NextInsideTail(P0);
    P, out := P0[1..], out0 + [P0[0]];
    p := p0.next;
    assert out0 != [] ==> out0[|out0| - 1] in out;
    assert NextInside(P) && NextThrough(R) && Elems(P) !! Elems(out) && Elems(R) !! Elems(out);
    list, tail := Append(list0, tail0, p0, out0);
  }

  /** The item at q moves to the output. */
  method MoveSecond(p: Handle?, psize: nat, q0: Handle?, list0: Handle?, tail0: Handle?,
                    ghost P: seq<Handle>, ghost R0: seq<Handle>, ghost out0: seq<Handle>)
    returns (q: Handle?, list: Handle?, tail: Handle?, ghost R: seq<Handle>, ghost out: seq<Handle>)
    requires Merging(p, psize, q0, list0, tail0, P, R0, out0) && q0 != null
    modifies Elems(out0)`next, (Elems(R0) + Elems(out0))`prev
    ensures R == R0[1..] && out == out0 + [R0[0]]
    ensures Merging(p, psize, q, list, tail, P, R, out)
  {
    ApartMove(out0, P, R0);
    NextThroughTail(R0);
    R, out := R0[1..], out0 + [R0[0]];
    q := q0.next;
    assert out0 != [] ==> out0[|out0| - 1] in out;
    assert NextInside(P) && NextThrough(R) && Elems(P) !! Elems(out) && Elems(R) !! Elems(out);
    list, tail := Append(list0, tail0, q0, out0);
  }

  /** One item moves from a run to the output. */
  method MergeStep(p0: Handle?, psize0: nat, q0: Handle?, qsize0: nat, list0: Handle?, tail0: Handle?, le: Order,
                   ghost P0: seq<Handle>, ghost R0: seq<Handle>, ghost out0: seq<Handle>)
    returns (p: Handle?, psize: nat, q: Handle?, qsize: nat, list: Handle?, tail: Handle?,
             ghost P: seq<Handle>, ghost R: seq<Handle>, ghost out: seq<Handle>)
    requires Merging(p0, psize0, q0, list0, tail0, P0, R0, out0)
    requires psize0 != 0 || (qsize0 != 0 && q0 != null)
    modifies (Elems(P0) + Elems(R0) + Elems(out0))`next, (Elems(P0) + Elems(R0) + Elems(out0))`prev
    ensures Merging(p, psize, q, list, tail, P, R, out)
    ensures Elems(P) + Elems(R) + Elems(out) <= Elems(P0) + Elems(R0) + Elems(out0)
    ensures out + ToMerge(P, R, qsize, le) == out0 + ToMerge(P0, R0, qsize0, le)
    ensures Drop(R, qsize) == Drop(R0, qsize0) && |P| + |R| < |P0| + |R0|
  {
    p, psize, q, qsize, P, R := p0, psize0, q0, qsize0, P0, R0;
    if psize == 0 || (qsize != 0 && q != null && !le(p.key, q.key)) {
      TakeR(P, R, qsize, le, out0);
      q, list, tail, R, out := MoveSecond(p, psize, q, list0, tail0, P, R, out0);
      qsize := qsize - 1;
    } else {
      TakeP(P, R, qsize, le, out0);
      p, list, tail, P, out := MoveFirst(p, psize, q, list0, tail0, P, R, out0);
      psize := psize - 1;
    }
  }

  /** One round of the pass: merge the two runs at the front of s onto the output. */
  method MergeRuns(list0: Handle?, tail0: Handle?, p0: Handle, insize: nat, le: Order,
                   ghost out0: seq<Handle>, ghost s: seq<Handle>)
    returns (list: Handle?, tail: Handle?, q: Handle?, ghost out: seq<Handle>)
    requires insize > 0 && |s| > 0 && p0 == s[0] && NextThrough(s) && Output(out0, list0, tail0)
    requires Apart3(out0, [], s)
    modifies (Elems(out0) + Elems(s))`next, (Elems(out0) + Elems(s))`prev
    ensures out == out0 + Merge(Take(s, insize), Take(Drop(s, insize), insize), le)
    ensures Output(out, list, tail) && Apart3(out, [], Drop(s, 2 * insize))
    ensures q == At(Drop(s, 2 * insize), 0) && NextThrough(Drop(s, 2 * insize))
  {
    var p: Handle?, psize, qsize := p0, 0, insize;
    list, tail, out := list0, tail0, out0;
    q, psize := SkipRun(p0, insize, s);
    ghost var P, R := Take(s, insize), Drop(s, insize);
    Split(s, insize, out);
    while psize != 0 || (qsize != 0 && q != null)
      invariant Merging(p, psize, q, list, tail, P, R, out)
      invariant Elems(P) + Elems(R) + Elems(out) <= Elems(out0) + Elems(s)
      invariant out + ToMerge(P, R, qsize, le) == out0 + ToMerge(Take(s, insize), Drop(s, insize), insize, le)
      invariant Drop(R, qsize) == Drop(s, 2 * insize)
      decreases |P| + |R|
    {
      p, psize, q, qsize, list, tail, P, R, out := MergeStep(p, psize, q, qsize, list, tail, le, P, R, out);
    }
    assert Take(R, qsize) == [] && Drop(R, qsize) == R;
  }

  /** The first run and the rest of a linked list. */
  lemma Split(s: seq<Handle>, k: nat, out: seq<Handle>)
    requires NextThrough(s) && Apart3(out, [], s)
    ensures NextInside(Take(s, k)) && NextThrough(Drop(s, k)) && Apart3(out, Take(s, k), Drop(s, k))
    ensures Elems(Take(s, k)) <= Elems(s) && Elems(Drop(s, k)) <= Elems(s)
    ensures Drop(Drop(s, k), k) == Drop(s, 2 * k)
  {
    if k <= |s| {
      assert forall i {:trigger s[k..][i].next} :: 0 <= i < |s| - k ==> s[k..][i].next == At(s, k + i + 1);
      assert forall i {:trigger s[..k][i].next} :: 0 <= i < k - 1 ==> s[..k][i].next == At(s, i + 1);
    }
  }

  /** One pass over the list: Pass on sequences, with the number of merges. */
  method PassOver(list0: Handle, insize: nat, le: Order, ghost s: seq<Handle>)
    returns (list: Handle, tail: Handle, nmerges: nat)
    requires insize > 0 && |s| > 0 && list0 == s[0] && NextThrough(s) && NoDup(s)
    modifies Elems(s)`next, Elems(s)`prev
    ensures nmerges == Merges(s, insize)
    ensures list == At(Pass(s, insize, le), 0) && tail == At(Pass(s, insize, le), |s| - 1)
    ensures NextThrough(Pass(s, insize, le)) && PrevThrough(Pass(s, insize, le))
  {
    var p: Handle?, first: Handle?, last: Handle? := list0, null, null;
    nmerges := 0;
    ghost var out, rest := [], s;
    while p != null
      invariant p == At(rest, 0) && NextThrough(rest) && Apart3(out, [], rest) && Output(out, first, last)
      invariant PassSoFar(s, insize, le, out, rest, nmerges)
      decreases |rest|
    {
      first, last, p, out, rest := PassRound(first, last, p, insize, le, out, rest, s, nmerges);
      nmerges := nmerges + 1;
    }
    PassDone(s, insize, le, out, rest, nmerges);
    list, tail := Terminate(first, last, out);
  }

  /** What a pass has put out and what it has left of s, after n merges. */
  ghost predicate PassSoFar(s: seq<Handle>, insize: nat, le: Order, out: seq<Handle>, rest: seq<Handle>, n: nat)
    requires insize > 0
  {
    && (forall h :: h in out ==> h in s) && (forall h :: h in rest ==> h in s)
    && out + Pass(rest, insize, le) == Pass(s, insize, le)
    && n + Merges(rest, insize) == Merges(s, insize)
  }

  lemma PassDone(s: seq<Handle>, insize: nat, le: Order, out: seq<Handle>, rest: seq<Handle>, n: nat)
    requires insize > 0 && PassSoFar(s, insize, le, out, rest, n) && rest == []
    ensures out == Pass(s, insize, le) && n == Merges(s, insize) && |out| == |s|
  {
  }

  /** One iteration of the loop over the list. */
  method PassRound(list0: Handle?, tail0: Handle?, p: Handle, insize: nat, le: Order,
                   ghost out0: seq<Handle>, ghost rest0: seq<Handle>, ghost s: seq<Handle>, ghost n: nat)
    returns (list: Handle?, tail: Handle?, q: Handle?, ghost out: seq<Handle>, ghost rest: seq<Handle>)
    requires insize > 0 && |rest0| > 0 && p == rest0[0] && NextThrough(rest0)
    requires PassSoFar(s, insize, le, out0, rest0, n)
    requires Output(out0, list0, tail0) && Apart3(out0, [], rest0)
    modifies (Elems(out0) + Elems(rest0))`next, (Elems(out0) + Elems(rest0))`prev
    ensures Output(out, list, tail) && Apart3(out, [], rest) && q == At(rest, 0) && NextThrough(rest)
    ensures forall h :: h in out ==> h in out0 || h in rest0
    ensures forall h :: h in rest ==> h in rest0
    ensures |rest| < |rest0| && PassSoFar(s, insize, le, out, rest, n + 1)
  {
    PassStep(out0, rest0, insize, le);
    MergeFrom(rest0, insize, le);
    rest := Drop(rest0, 2 * insize);
    list, tail, q, out := MergeRuns(list0, tail0, p, insize, le, out0, rest0);
  }

  method Terminate(first: Handle?, last: Handle?, ghost out: seq<Handle>) returns (list: Handle, tail: Handle)
    requires Output(out, first, last) && NoDup(out) && out != []
    modifies {out[|out| - 1]}`next
    ensures list == At(out, 0) && tail == At(out, |out| - 1) && NextThrough(out) && PrevThrough(out)
  {
    list, tail := first, last;
    tail.next := null;
  }

  lemma PassStep(out: seq<Handle>, rest: seq<Handle>, k: nat, le: Order)
    requires k > 0 && rest != []
    ensures (out + Merge(Take(rest, k), Take(Drop(rest, k), k), le)) + Pass(Drop(rest, 2 * k), k, le)
            == out + Pass(rest, k, le)
  {
    var m, f := Merge(Take(rest, k), Take(Drop(rest, k), k), le), Pass(Drop(rest, 2 * k), k, le);
    assert Pass(rest, k, le) == m + f;
    assert (out + m) + f == out + (m + f);
  }

  lemma MergeFrom(rest: seq<Handle>, k: nat, le: Order)
    ensures forall h :: h in Merge(Take(rest, k), Take(Drop(rest, k), k), le) ==> h in rest
    ensures forall h :: h in Drop(rest, 2 * k) ==> h in rest
  {
    var m := Merge(Take(rest, k), Take(Drop(rest, k), k), le);
    MergeItems(Take(rest, k), Take(Drop(rest, k), k), le);
    forall h | h in m ensures h in rest {
      assert h in multiset(m);
    }
  }

  lemma {:induction false} PassItems(s: seq<Handle>, k: nat, le: Order)
    requires k > 0
    ensures multiset(Pass(s, k, le)) == multiset(s)
    decreases |s|
  {
    if s != [] {
      var p, q, rest := Take(s, k), Take(Drop(s, k), k), Drop(s, 2 * k);
      assert s == (p + q) + rest;
      MergeItems(p, q, le);
      PassItems(rest, k, le);
    }
  }

  lemma {:induction false} ElemsCount(s: seq<Handle>)
    ensures |Elems(s)| <= |s|
    ensures |Elems(s)| == |s| ==> NoDup(s)
  {
    if s != [] {
      var t, h := s[..|s| - 1], s[|s| - 1];
      ElemsCount(t);
      assert Elems(s) == Elems(t) + {h};
      assert h in t ==> Elems(s) == Elems(t);
    }
  }

  lemma SameItems(s: seq<Handle>, t: seq<Handle>)
    requires multiset(s) == multiset(t) && NoDup(s)
    ensures NoDup(t) && |s| == |t| && Elems(s) == Elems(t)
    ensures forall h :: h in s <==> h in t
  {
    forall h: Handle ensures h in s <==> h in t {
      assert h in s <==> h in multiset(s);
      assert h in t <==> h in multiset(t);
    }
    assert |multiset(s)| == |s| && |multiset(t)| == |t|;
    NoDupSize(s);
    assert Elems(s) == Elems(t);
    ElemsCount(t);
  }

  lemma PartitionReorder(s: seq<Handle>, r: seq<Handle>, chains: seq<seq<Handle>>)
    requires Partition(s, chains) && forall h :: h in s <==> h in r
    ensures Partition(r, chains)
  {
  }

  lemma ItemsReorder(s: seq<Handle>, r: seq<Handle>, hash: string -> nat)
    requires Items(s, hash) && NoDup(r) && forall h :: h in s <==> h in r
    ensures Items(r, hash)
  {
    forall i, j | 0 <= i < j < |r| ensures r[i].key != r[j].key {
      assert r[i] in r && r[j] in r;
      var a :| 0 <= a < |s| && s[a] == r[i];
      var b :| 0 <= b < |s| && s[b] == r[j];
    }
  }

  /** HASH_SRT: doubles the run length until one merge covers the list. The chains
      of the buckets are not touched. */
  method Sort(t: Table, le: Order)
    requires t.Valid()
    modifies t`head, t`tail, t`order, Elems(t.order)`next, Elems(t.order)`prev
    ensures t.Valid() && t.order == SortFrom(old(t.order), 1, le)
    ensures multiset(t.order) == multiset(old(t.order))
  {
    ghost var s := t.order;
    SortItems(s, 1, le);
    if t.head != null {
      Reordered(s, le, t.hash, t.chains);
      SortNonempty(t, le, s);
      assert t.BucketSide(s);
      SetOrder(t, s, SortFrom(s, 1, le));
    }
  }

  ghost method SetOrder(t: Table, s: seq<Handle>, r: seq<Handle>)
    requires t.AppSide(r) && Items(r, t.hash) && Partition(r, t.chains)
    requires t.BucketSide(s) && t.numItems == |s| == |r|
    modifies t`order
    ensures t.Valid() && t.order == r
  {
    t.order := r;
  }

  /** Sorting keeps keys distinct and every item in its chain. */
  lemma Reordered(s: seq<Handle>, le: Order, hash: string -> nat, chains: seq<seq<Handle>>)
    requires Items(s, hash) && Partition(s, chains)
    ensures Items(SortFrom(s, 1, le), hash) && Partition(SortFrom(s, 1, le), chains)
    ensures Elems(SortFrom(s, 1, le)) == Elems(s) && |SortFrom(s, 1, le)| == |s|
  {
    SortItems(s, 1, le);
    SameItems(s, SortFrom(s, 1, le));
    ItemsReorder(s, SortFrom(s, 1, le), hash);
    PartitionReorder(s, SortFrom(s, 1, le), chains);
  }

  method SortNonempty(t: Table, le: Order, ghost s: seq<Handle>)
    requires t.AppSide(s) && NoDup(s) && s != []
    modifies t`head, t`tail, Elems(s)`next, Elems(s)`prev
    ensures t.AppSide(SortFrom(s, 1, le))
  {
    t.head, t.tail := SortList(t.head, le, s);
  }

  lemma {:induction false} SortItems(s: seq<Handle>, k: nat, le: Order)
    requires k > 0
    ensures multiset(SortFrom(s, k, le)) == multiset(s)
    decreases if k < |s| then |s| - k else 0
  {
    PassItems(s, k, le);
    if |s| > 2 * k { SortItems(Pass(s, k, le), 2 * k, le); }
  }

  /** The outer loop of HASH_SRT. */
  method SortList(head: Handle, le: Order, ghost s: seq<Handle>) returns (list: Handle, tail: Handle)
    requires |s| > 0 && head == s[0] && AppLinked(s) && NoDup(s)
    modifies Elems(s)`next, Elems(s)`prev
    ensures var r := SortFrom(s, 1, le);
            AppLinked(r) && list == At(r, 0) && tail == At(r, |r| - 1)
  {
    var insize, looping := 1, true;
    list, tail := head, head;
    ghost var r := s;
    ghost var goal := SortFrom(s, 1, le);
    while looping
      invariant insize > 0 && |r| == |s| && list == r[0] && NextThrough(r)
      invariant NoDup(r) && Elems(r) <= Elems(s)
      invariant looping ==> SortFrom(r, insize, le) == goal
      invariant !looping ==> r == goal && PrevThrough(r) && tail == r[|r| - 1]
      invariant looping ==> insize <= |s|
      decreases looping, |s| - insize
    {
      list, tail, looping, r := SortRound(list, insize, le, r);
      insize := 2 * insize;
    }
  }

  method SortRound(list0: Handle, insize: nat, le: Order, ghost r0: seq<Handle>)
    returns (list: Handle, tail: Handle, looping: bool, ghost r: seq<Handle>)
    requires insize > 0 && |r0| > 0 && list0 == r0[0] && NextThrough(r0) && NoDup(r0)
    modifies Elems(r0)`next, Elems(r0)`prev
    ensures |r| == |r0| && list == r[0] && tail == r[|r| - 1] && NextThrough(r) && PrevThrough(r)
    ensures NoDup(r) && Elems(r) == Elems(r0)
    ensures looping ==> SortFrom(r, 2 * insize, le) == SortFrom(r0, insize, le) && |r| > 2 * insize
    ensures !looping ==> r == SortFrom(r0, insize, le)
  {
    r := Pass(r0, insize, le);
    PassItems(r0, insize, le);
    SameItems(r0, r);
    MergesOne(r0, insize);
    var nmerges;
    list, tail, nmerges := PassOver(list0, insize, le, r0);
    looping := nmerges > 1;
  }
}
