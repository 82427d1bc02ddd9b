/** The path-by-path differ of src/core/rescan.c, and its agreement with the events
    of a poll scan. */
module Rescan {
  import opened Tables
  import opened Paths
  import opened FileTree
  import opened PollSpec
  import opened Moves
  import opened Poll

  /** e is a difference between two snapshot tables, told by path. */
  predicate IsDifference(before: Snaps, after: Snaps, e: Event) {
    && e.from == []
    && match e.kind
       case Created => e.path in after && e.path !in before
       case Deleted => e.path in before && e.path !in after
       case Modified => StampDiffers(before, after, e.path)
       case Moved => false
  }

  /** es reports each wanted difference once, and nothing else. */
  ghost predicate Reported(wants: Kind -> bool, before: Snaps, after: Snaps, es: seq<Event>) {
    NoDup(es) && forall e :: e in es <==> IsDifference(before, after, e) && wants(e.kind)
  }

  /** Reported, for the part of the tables seen so far. */
  ghost predicate ReportedPart(wants: Kind -> bool, before: Snaps, after: Snaps, news: seq<Path>, olds: seq<Path>,
                               es: seq<Event>) {
    && NoDup(es)
    && forall e :: e in es <==> IsDifference(before, after, e) && wants(e.kind) &&
                                if e.kind.Deleted? then e.path in olds else e.path in news
  }

  /** sw_rescan_diff. */
  method Diff(oldKeys: seq<Path>, before: Snaps, newKeys: seq<Path>, after: Snaps, wants: Kind -> bool)
    returns (es: seq<Event>)
    requires Keyed(oldKeys, before) && Keyed(newKeys, after)
    ensures Reported(wants, before, after, es)
  {
    es := [];
    for i := 0 to |newKeys|
      invariant ReportedPart(wants, before, after, newKeys[..i], [], es)
    {
      var p := newKeys[i];
      assert newKeys[..i + 1] == newKeys[..i] + [p] && p !in newKeys[..i];
      if p !in before {
        if wants(Created) { es := es + [Event(Created, p, [])]; }
      } else if before[p].mtime != after[p].mtime || before[p].size != after[p].size {
        if wants(Modified) { es := es + [Event(Modified, p, [])]; }
      }
    }
    for i := 0 to |oldKeys|
      invariant ReportedPart(wants, before, after, newKeys, oldKeys[..i], es)
    {
      var p := oldKeys[i];
      assert oldKeys[..i + 1] == oldKeys[..i] + [p] && p !in oldKeys[..i];
      if p !in after {
        if wants(Deleted) { es := es + [Event(Deleted, p, [])]; }
      }
    }
  }

  // ---------- the poll scan reports the same differences ----------

  function Split(e: Event): seq<Event> {
    if e.kind.Moved? then [Event(Deleted, e.from, []), Event(Created, e.path, [])] else [e]
  }

  /** Each MOVED told as a DELETED and a CREATED. */
  function SplitAll(es: seq<Event>): seq<Event> {
    if es == [] then [] else Split(es[0]) + SplitAll(es[1..])
  }

  function GoneEvents(ps: seq<Path>): (es: seq<Event>)
    ensures |es| == |ps|
    ensures forall i :: 0 <= i < |ps| ==> es[i] == Event(Deleted, ps[i], [])
  {
    seq(|ps|, i requires 0 <= i < |ps| => Event(Deleted, ps[i], []))
  }

  lemma {:induction false} SplitConcat(a: seq<Event>, b: seq<Event>)
    ensures SplitAll(a + b) == SplitAll(a) + SplitAll(b)
  {
    if a == [] {
      assert a + b == b;
    } else {
      assert (a + b)[0] == a[0] && (a + b)[1..] == a[1..] + b;
      SplitConcat(a[1..], b);
    }
  }

  lemma {:induction false} SplitNothing(es: seq<Event>)
    requires forall e :: e in es ==> !e.kind.Moved?
    ensures SplitAll(es) == es
  {
    if es != [] {
      SplitNothing(es[1..]);
    }
  }

  lemma NewEventsDrop(ps: seq<Path>, i: nat)
    requires i < |ps|
    ensures multiset(NewEvents(ps)) == multiset(NewEvents(RemoveAt(ps, i))) + multiset{Event(Created, ps[i], [])}
  {
    var es, fs := NewEvents(ps), NewEvents(RemoveAt(ps, i));
    assert fs == RemoveAt(es, i);
    RemoveItems(es, i);
  }

  /** Splitting the moves undoes the pairing. */
  lemma {:induction false} SplitPair(gone: seq<Path>, news: seq<Path>, s: Snaps)
    ensures var r := Pair(gone, news, s);
            multiset(SplitAll(r.0)) + multiset(NewEvents(r.1)) == multiset(GoneEvents(gone)) + multiset(NewEvents(news))
    decreases |gone|
  {
    if gone == [] {
      assert GoneEvents(gone) == [];
    } else {
      var r := Pair(gone, news, s);
      var i := FirstOfSize(news, SizeOf(s, gone[0]), s);
      var left := if i < |news| then RemoveAt(news, i) else news;
      var q := Pair(gone[1..], left, s);
      SplitPair(gone[1..], left, s);
      if i < |news| { NewEventsDrop(news, i); }
      assert r.0 == [r.0[0]] + q.0 && r.1 == q.1;
      var d, c := Event(Deleted, gone[0], []), if i < |news| then multiset{Event(Created, news[i], [])} else multiset{};
      assert multiset(Split(r.0[0])) == multiset{d} + c;
      GoneStep(gone);
      Regroup(multiset(SplitAll(q.0)), multiset(NewEvents(q.1)), multiset(GoneEvents(gone[1..])),
              multiset(NewEvents(left)), multiset{d}, c);
    }
  }

  lemma Regroup<T>(a: multiset<T>, b: multiset<T>, x: multiset<T>, y: multiset<T>, d: multiset<T>, c: multiset<T>)
    requires a + b == x + y
    ensures (d + c + a) + b == (d + x) + (y + c)
  {
    assert (d + c + a) + b == d + c + (a + b);
  }

  lemma GoneStep(gone: seq<Path>)
    requires gone != []
    ensures multiset(GoneEvents(gone)) == multiset{Event(Deleted, gone[0], [])} + multiset(GoneEvents(gone[1..]))
  {
    assert GoneEvents(gone) == [Event(Deleted, gone[0], [])] + GoneEvents(gone[1..]);
    Together([Event(Deleted, gone[0], [])], GoneEvents(gone[1..]));
  }

  /** Two duplicate-free sequences with the same elements are permutations. */
  lemma {:induction false} SameElements<T>(a: seq<T>, b: seq<T>)
    requires NoDup(a) && NoDup(b) && forall x :: x in a <==> x in b
    ensures multiset(a) == multiset(b)
  {
    CountsAreOne(a);
    CountsAreOne(b);
    forall x ensures multiset(a)[x] == multiset(b)[x] {
      assert x in multiset(a) <==> x in a;
      assert x in multiset(b) <==> x in b;
    }
  }

  lemma {:induction false} CountsAreOne<T>(a: seq<T>)
    requires NoDup(a)
    ensures forall x :: x in a ==> multiset(a)[x] == 1
  {
    if a != [] {
      var b := a[..|a| - 1];
      assert a == b + [a[|a| - 1]];
      CountsAreOne(b);
      assert a[|a| - 1] !in b;
      assert multiset(b)[a[|a| - 1]] == 0;
    }
  }

  lemma {:induction false} GoneOfElements(keys: seq<Path>, s: Snaps)
    requires NoDup(keys)
    ensures NoDup(GoneOf(keys, s)) && forall p :: p in GoneOf(keys, s) <==> p in keys && IsGone(s, p)
  {
    if keys != [] {
      GoneOfElements(keys[1..], s);
      assert keys == [keys[0]] + keys[1..];
      assert keys[0] !in keys[1..];
    }
  }

  lemma {:induction false} NewOfNoDup(keys: seq<Path>, s: Snaps)
    requires NoDup(keys)
    ensures NoDup(NewOf(keys, s))
  {
    if keys != [] {
      NewOfNoDup(keys[1..], s);
      NewOfElements(keys[1..], s);
      assert keys[0] !in keys[1..];
    }
  }

  /** The tables before, in the middle of and after one scan. */
  ghost predicate ScanTables(w: World, g: set<Path>, s: Snaps, mid: Snaps, keys: seq<Path>, ms: seq<Path>, t: Snaps) {
    && SnapsStep(w, g, Cleared(s), mid) && Keyed(keys, mid)
    && Modifications(Cleared(s), mid, ms) && Announced(mid, t)
  }

  /** The events one scan offers. */
  function ScanEvents(ms: seq<Path>, keys: seq<Path>, mid: Snaps): seq<Event> {
    var r := Pair(GoneOf(keys, mid), NewOf(keys, mid), mid);
    ModEvents(ms) + r.0 + NewEvents(r.1)
  }

  /** The differences a scan found, in the order found. */
  lemma FoundDifferences(w: World, g: set<Path>, s: Snaps, mid: Snaps, keys: seq<Path>, ms: seq<Path>, t: Snaps)
    requires ScanTables(w, g, s, mid, keys, ms, t)
    ensures Reported(_ => true, s, t, ModEvents(ms) + GoneEvents(GoneOf(keys, mid)) + NewEvents(NewOf(keys, mid)))
  {
    var gone, news := GoneOf(keys, mid), NewOf(keys, mid);
    GoneOfElements(keys, mid);
    NewOfElements(keys, mid);
    NewOfNoDup(keys, mid);
    var all := ModEvents(ms) + GoneEvents(gone) + NewEvents(news);
    forall e ensures e in all <==> IsDifference(s, t, e) {
      EventsOf(ms, gone, news, e);
    }
  }

  lemma EventsOf(ms: seq<Path>, gone: seq<Path>, news: seq<Path>, e: Event)
    ensures e in ModEvents(ms) + GoneEvents(gone) + NewEvents(news) <==>
            e.from == [] && ((e.kind.Modified? && e.path in ms) || (e.kind.Deleted? && e.path in gone) ||
                             (e.kind.Created? && e.path in news))
  {
    if e.path in ms { var i :| 0 <= i < |ms| && ms[i] == e.path; assert ModEvents(ms)[i] in ModEvents(ms); }
    if e.path in gone { var i :| 0 <= i < |gone| && gone[i] == e.path; assert GoneEvents(gone)[i] in GoneEvents(gone); }
    if e.path in news { var i :| 0 <= i < |news| && news[i] == e.path; assert NewEvents(news)[i] in NewEvents(news); }
  }

  /** The two differs agree: a scan's events, with the moves split, are a permutation
      of what the path-by-path differ reports. */
  lemma DiffersAgree(w: World, g: set<Path>, s: Snaps, mid: Snaps, keys: seq<Path>, ms: seq<Path>, t: Snaps,
                     es: seq<Event>)
    requires ScanTables(w, g, s, mid, keys, ms, t) && Reported(_ => true, s, t, es)
    ensures multiset(SplitAll(ScanEvents(ms, keys, mid))) == multiset(es)
  {
    var gone, news := GoneOf(keys, mid), NewOf(keys, mid);
    FoundDifferences(w, g, s, mid, keys, ms, t);
    SameElements(ModEvents(ms) + GoneEvents(gone) + NewEvents(news), es);
    SplitScan(ms, keys, mid);
  }

  lemma SplitScan(ms: seq<Path>, keys: seq<Path>, mid: Snaps)
    ensures multiset(SplitAll(ScanEvents(ms, keys, mid))) ==
            multiset(ModEvents(ms) + GoneEvents(GoneOf(keys, mid)) + NewEvents(NewOf(keys, mid)))
  {
    var gone, news := GoneOf(keys, mid), NewOf(keys, mid);
    var r := Pair(gone, news, mid);
    SplitPair(gone, news, mid);
    SplitThree(ModEvents(ms), r.0, NewEvents(r.1));
    ThreeParts(ModEvents(ms), SplitAll(r.0), NewEvents(r.1));
    ThreeParts(ModEvents(ms), GoneEvents(gone), NewEvents(news));
  }

  lemma SplitThree(a: seq<Event>, b: seq<Event>, c: seq<Event>)
    requires forall e :: e in a || e in c ==> !e.kind.Moved?
    ensures SplitAll(a + b + c) == a + SplitAll(b) + c
  {
    SplitConcat(a + b, c);
    SplitConcat(a, b);
    SplitNothing(a);
    SplitNothing(c);
  }

  lemma ThreeParts<T>(a: seq<T>, b: seq<T>, c: seq<T>)
    ensures multiset(a + b + c) == multiset(a) + (multiset(b) + multiset(c))
  {
    Together(a + b, c);
    Together(a, b);
  }

  // ---------- replaying events ----------

  function Applied(e: Event, ks: set<Path>): set<Path> {
    match e.kind
    case Created => ks + {e.path}
    case Deleted => ks - {e.path}
    case Moved => (ks - {e.from}) + {e.path}
    case Modified => ks
  }

  /** The key set a listener arrives at. */
  function Replay(es: seq<Event>, ks: set<Path>): set<Path> {
    if es == [] then ks else Applied(es[|es| - 1], Replay(es[..|es| - 1], ks))
  }

  lemma {:induction false} ReplayConcat(a: seq<Event>, b: seq<Event>, ks: set<Path>)
    ensures Replay(a + b, ks) == Replay(b, Replay(a, ks))
  {
    if b == [] {
      assert a + b == a;
    } else {
      assert (a + b)[..|a + b| - 1] == a + b[..|b| - 1];
      ReplayConcat(a, b[..|b| - 1], ks);
    }
  }

  predicate Removes(es: seq<Event>, p: Path) { Event(Deleted, p, []) in SplitAll(es) }

  predicate Adds(es: seq<Event>, p: Path) { Event(Created, p, []) in SplitAll(es) }

  /** When no path is both removed and added, the order does not matter. */
  lemma {:induction false} ReplayMeaning(es: seq<Event>, ks: set<Path>)
    requires forall e :: e in es ==> e.kind.Moved? || e.from == []
    requires forall p :: !(Removes(es, p) && Adds(es, p))
    ensures forall p :: p in Replay(es, ks) <==> (p in ks && !Removes(es, p)) || Adds(es, p)
  {
    if es != [] {
      var front, e := es[..|es| - 1], es[|es| - 1];
      assert es == front + [e] && [e][1..] == [];
      SplitConcat(front, [e]);
      assert SplitAll([e]) == Split(e);
      forall p ensures Removes(front, p) ==> Removes(es, p) ensures Adds(front, p) ==> Adds(es, p) {
      }
      ReplayMeaning(front, ks);
    }
  }

  /** Replaying a scan's events on the key set before it gives the key set after. */
  lemma ReplayScan(w: World, g: set<Path>, s: Snaps, mid: Snaps, keys: seq<Path>, ms: seq<Path>, t: Snaps)
    requires ScanTables(w, g, s, mid, keys, ms, t)
    ensures Replay(ScanEvents(ms, keys, mid), s.Keys) == t.Keys
  {
    var es := ScanEvents(ms, keys, mid);
    forall p ensures (Removes(es, p) <==> p in s && p !in t) && (Adds(es, p) <==> p in t && p !in s) {
      ScanReplaces(w, g, s, mid, keys, ms, t, p);
    }
    ScanEventsPlain(ms, keys, mid);
    ReplayMeaning(es, s.Keys);
    forall p ensures p in Replay(es, s.Keys) <==> p in t {
      assert p in Replay(es, s.Keys) <==> (p in s.Keys && !Removes(es, p)) || Adds(es, p);
    }
  }

  lemma ScanReplaces(w: World, g: set<Path>, s: Snaps, mid: Snaps, keys: seq<Path>, ms: seq<Path>, t: Snaps, p: Path)
    requires ScanTables(w, g, s, mid, keys, ms, t)
    ensures Removes(ScanEvents(ms, keys, mid), p) <==> p in s && p !in t
    ensures Adds(ScanEvents(ms, keys, mid), p) <==> p in t && p !in s
  {
    FoundDifferences(w, g, s, mid, keys, ms, t);
    SplitScan(ms, keys, mid);
    ReportReplaces(ScanEvents(ms, keys, mid), s, t,
                   ModEvents(ms) + GoneEvents(GoneOf(keys, mid)) + NewEvents(NewOf(keys, mid)), p);
  }

  lemma ReportReplaces(es: seq<Event>, s: Snaps, t: Snaps, found: seq<Event>, p: Path)
    requires Reported(_ => true, s, t, found) && multiset(SplitAll(es)) == multiset(found)
    ensures Removes(es, p) <==> p in s && p !in t
    ensures Adds(es, p) <==> p in t && p !in s
  {
    SameMembers(SplitAll(es), found, Event(Deleted, p, []));
    SameMembers(SplitAll(es), found, Event(Created, p, []));
    assert Event(Deleted, p, []) in found <==> IsDifference(s, t, Event(Deleted, p, []));
    assert Event(Created, p, []) in found <==> IsDifference(s, t, Event(Created, p, []));
  }

  lemma SameMembers<T>(a: seq<T>, b: seq<T>, x: T)
    requires multiset(a) == multiset(b)
    ensures x in a <==> x in b
  {
    assert x in multiset(a) <==> x in multiset(b);
  }

  lemma ScanEventsPlain(ms: seq<Path>, keys: seq<Path>, mid: Snaps)
    ensures forall e :: e in ScanEvents(ms, keys, mid) ==> e.kind.Moved? || e.from == []
  {
    var gone, news := GoneOf(keys, mid), NewOf(keys, mid);
    var r := Pair(gone, news, mid);
    PairEvents(gone, news, mid);
    forall e | e in r.0 ensures e.kind.Moved? || e.from == [] {
      var k :| 0 <= k < |r.0| && r.0[k] == e;
      assert FitsGone(r.0[k], gone[k], mid);
    }
  }
}
