/** The move detection of poll_scan_target (src/backend/backend_poll.c:306-347) as a
    greedy matching, and why greedy is the best there is. */
module Moves {
  import opened Tables
  import opened Paths
  import opened FileTree
  import opened PollSpec

  function SizeOf(s: Snaps, p: Path): nat { if p in s then s[p].size else 0 }

  /** Index of the first path of that size, or the length. */
  function FirstOfSize(ps: seq<Path>, n: nat, s: Snaps): (i: nat)
    ensures i <= |ps|
    ensures i < |ps| ==> SizeOf(s, ps[i]) == n
    ensures forall k :: 0 <= k < i ==> SizeOf(s, ps[k]) != n
  {
    if ps == [] then 0 else if SizeOf(s, ps[0]) == n then 0 else 1 + FirstOfSize(ps[1..], n, s)
  }

  /** Each vanished path takes the first new path of its size, if there is one. The
      result is the events, and the new paths left over. */
  function Pair(gone: seq<Path>, news: seq<Path>, s: Snaps): (seq<Event>, seq<Path>) {
    if gone == [] then ([], news)
    else
      var i := FirstOfSize(news, SizeOf(s, gone[0]), s);
      if i < |news| then
        var r := Pair(gone[1..], RemoveAt(news, i), s);
        ([Event(Moved, news[i], gone[0])] + r.0, r.1)
      else
        var r := Pair(gone[1..], news, s);
        ([Event(Deleted, gone[0], [])] + r.0, r.1)
  }

  function CountSize(ps: seq<Path>, n: nat, s: Snaps): nat {
    if ps == [] then 0 else (if SizeOf(s, ps[0]) == n then 1 else 0) + CountSize(ps[1..], n, s)
  }

  function CountMoves(es: seq<Event>, n: nat, s: Snaps): nat {
    if es == [] then 0
    else (if es[0].kind.Moved? && SizeOf(s, es[0].from) == n then 1 else 0) + CountMoves(es[1..], n, s)
  }

  lemma {:induction false} CountSplit(a: seq<Path>, b: seq<Path>, n: nat, s: Snaps)
    ensures CountSize(a + b, n, s) == CountSize(a, n, s) + CountSize(b, n, s)
  {
    if a == [] {
      assert a + b == b;
    } else {
      assert (a + b)[1..] == a[1..] + b;
      CountSplit(a[1..], b, n, s);
    }
  }

  lemma CountDrop(ps: seq<Path>, i: nat, n: nat, s: Snaps)
    requires i < |ps|
    ensures CountSize(ps, n, s) == CountSize(RemoveAt(ps, i), n, s) + if SizeOf(s, ps[i]) == n then 1 else 0
  {
    assert ps == ps[..i] + ps[i..] && ps[i..][1..] == ps[i + 1..];
    CountSplit(ps[..i], ps[i..], n, s);
    CountSplit(ps[..i], ps[i + 1..], n, s);
  }

  lemma {:induction false} CountZero(ps: seq<Path>, n: nat, s: Snaps)
    ensures CountSize(ps, n, s) == 0 <==> forall k :: 0 <= k < |ps| ==> SizeOf(s, ps[k]) != n
  {
    if ps != [] {
      CountZero(ps[1..], n, s);
      assert forall k :: 0 <= k < |ps| - 1 ==> ps[1..][k] == ps[k + 1];
      if forall k :: 0 <= k < |ps| ==> SizeOf(s, ps[k]) != n {
        assert forall k :: 0 <= k < |ps| - 1 ==> SizeOf(s, ps[1..][k]) != n;
      } else {
        var k :| 0 <= k < |ps| && SizeOf(s, ps[k]) == n;
        assert k > 0 ==> ps[1..][k - 1] == ps[k];
      }
    }
  }

  /** For every size the number of moves is as large as any pairing could make it,
      so what is left over on the two sides never shares a size. */
  lemma {:induction false} MatchingIsMaximum(gone: seq<Path>, news: seq<Path>, s: Snaps, n: nat)
    ensures CountMoves(Pair(gone, news, s).0, n, s) == Least(CountSize(gone, n, s), CountSize(news, n, s))
    ensures CountSize(Pair(gone, news, s).1, n, s) + CountMoves(Pair(gone, news, s).0, n, s) == CountSize(news, n, s)
    decreases |gone|
  {
    if gone != [] {
      var m := SizeOf(s, gone[0]);
      var i := FirstOfSize(news, m, s);
      if i < |news| {
        CountDrop(news, i, n, s);
        MatchingIsMaximum(gone[1..], RemoveAt(news, i), s, n);
        assert Pair(gone, news, s).0[1..] == Pair(gone[1..], RemoveAt(news, i), s).0;
      } else {
        CountZero(news, m, s);
        MatchingIsMaximum(gone[1..], news, s, n);
        assert Pair(gone, news, s).0[1..] == Pair(gone[1..], news, s).0;
      }
    }
  }

  /** The new names given by the moves of es. */
  function MovedTo(es: seq<Event>): seq<Path> {
    if es == [] then [] else if es[0].kind.Moved? then [es[0].path] + MovedTo(es[1..]) else MovedTo(es[1..])
  }

  predicate FitsGone(e: Event, p: Path, s: Snaps) {
    e == Event(Deleted, p, []) || (e.kind.Moved? && e.from == p && SizeOf(s, e.path) == SizeOf(s, p))
  }

  /** One event for each vanished path, in order: gone, or moved to a new path of
      the same size. */
  lemma {:induction false} PairEvents(gone: seq<Path>, news: seq<Path>, s: Snaps)
    ensures |Pair(gone, news, s).0| == |gone|
    ensures forall k :: 0 <= k < |gone| ==> FitsGone(Pair(gone, news, s).0[k], gone[k], s)
    decreases |gone|
  {
    if gone != [] {
      var i := FirstOfSize(news, SizeOf(s, gone[0]), s);
      var rest := if i < |news| then RemoveAt(news, i) else news;
      PairEvents(gone[1..], rest, s);
      var es, fs := Pair(gone, news, s).0, Pair(gone[1..], rest, s).0;
      assert es == [es[0]] + fs && FitsGone(es[0], gone[0], s);
      forall k | 0 <= k < |gone| ensures FitsGone(es[k], gone[k], s) {
        if k > 0 { assert es[k] == fs[k - 1] && gone[k] == gone[1..][k - 1]; }
      }
    }
  }

  /** The new paths named by moves and those left over are the new paths, so no two
      moves name the same one. */
  lemma {:induction false} PairNews(gone: seq<Path>, news: seq<Path>, s: Snaps)
    ensures multiset(MovedTo(Pair(gone, news, s).0)) + multiset(Pair(gone, news, s).1) == multiset(news)
    decreases |gone|
  {
    if gone != [] {
      var i := FirstOfSize(news, SizeOf(s, gone[0]), s);
      var es := Pair(gone, news, s).0;
      if i < |news| {
        var d := RemoveAt(news, i);
        PairNews(gone[1..], d, s);
        RemoveItems(news, i);
        assert es[1..] == Pair(gone[1..], d, s).0;
      } else {
        PairNews(gone[1..], news, s);
        assert es[1..] == Pair(gone[1..], news, s).0;
      }
    }
  }

  /** No DELETED and no leftover new path have the same size. */
  lemma LeftoversDiffer(gone: seq<Path>, news: seq<Path>, s: Snaps, k: nat, j: nat)
    requires var (es, left) := Pair(gone, news, s); k < |es| && j < |left| && es[k].kind.Deleted?
    ensures var (es, left) := Pair(gone, news, s); SizeOf(s, es[k].path) != SizeOf(s, left[j])
  {
    var (es, left) := Pair(gone, news, s);
    var n := SizeOf(s, left[j]);
    PairEvents(gone, news, s);
    assert FitsGone(es[k], gone[k], s);
    if SizeOf(s, es[k].path) == n {
      MatchingIsMaximum(gone, news, s, n);
      CountZero(left, n, s);
      assert forall i :: 0 <= i < |es| && es[i].kind.Moved? ==> FitsGone(es[i], gone[i], s);
      DeletedCount(gone, es, n, s, k);
    }
  }

  /** A deleted path of size n is not moved, so fewer than all of its size are. */
  lemma {:induction false} DeletedCount(gone: seq<Path>, es: seq<Event>, n: nat, s: Snaps, k: nat)
    requires |es| == |gone| && k < |es| && es[k].kind.Deleted? && SizeOf(s, gone[k]) == n
    requires forall i :: 0 <= i < |es| && es[i].kind.Moved? ==> es[i].from == gone[i]
    ensures CountMoves(es, n, s) < CountSize(gone, n, s)
    decreases |es|
  {
    MovesBound(gone[1..], es[1..], n, s);
    if k > 0 {
      DeletedCount(gone[1..], es[1..], n, s, k - 1);
    }
  }

  lemma {:induction false} MovesBound(gone: seq<Path>, es: seq<Event>, n: nat, s: Snaps)
    requires |es| == |gone|
    requires forall i :: 0 <= i < |es| && es[i].kind.Moved? ==> es[i].from == gone[i]
    ensures CountMoves(es, n, s) <= CountSize(gone, n, s)
    decreases |es|
  {
    if es != [] { MovesBound(gone[1..], es[1..], n, s); }
  }
}
