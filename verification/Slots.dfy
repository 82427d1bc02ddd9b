/** What one pending slot of inotify_coalesce_add (src/backend/backend_inotify.c:557-609)
    says about the events it has absorbed, and how often slots can be dispatched. */
module Slots {
  import opened Options

  datatype Ev = Created | Modified | Deleted | Moved | Opened | Closed | Accessed | Attrib

  /** The merge rules, on the event alone. */
  function SlotStep(slot: Option<Ev>, e: Ev): Option<Ev> {
    match slot
    case None => Some(e)
    case Some(x) =>
      if x == Created && e == Deleted then None
      else if x == Created && e == Modified then Some(Created)
      else if x == Modified && e == Modified then Some(Modified)
      else if x == Modified && e == Deleted then Some(Deleted)
      else Some(e)
  }

  /** The slot after history h of one path in one window. */
  function Slot(h: seq<Ev>): Option<Ev> {
    if h == [] then None else SlotStep(Slot(h[..|h| - 1]), h[|h| - 1])
  }

  /** Whether the path exists after h, if it did or did not before. */
  function Exists(before: bool, h: seq<Ev>): bool {
    if h == [] then before
    else if h[|h| - 1] == Created then true
    else if h[|h| - 1] == Deleted then false
    else Exists(before, h[..|h| - 1])
  }

  predicate CanHappen(exists_: bool, e: Ev) { if exists_ then e == Modified || e == Deleted else e == Created }

  /** A possible history: what does not exist is created, what exists is changed or
      deleted. */
  predicate Legal(before: bool, h: seq<Ev>) {
    h == [] || (Legal(before, h[..|h| - 1]) && CanHappen(Exists(before, h[..|h| - 1]), h[|h| - 1]))
  }

  /** What a listener should be told about h as a whole. */
  function Net(before: bool, h: seq<Ev>): Option<Ev> {
    if Exists(before, h) then
      if !before then Some(Created) else if h == [] then None else Some(Modified)
    else if before then Some(Deleted) else None
  }

  /** A path present at the start that was deleted and created again: from then on
      the slot speaks as if it had been absent. */
  predicate Recreated(before: bool, h: seq<Ev>) { before && Created in h }

  lemma {:induction false} SlotMeaning(before: bool, h: seq<Ev>)
    requires Legal(before, h)
    ensures !Recreated(before, h) ==> Slot(h) == Net(before, h)
    ensures Recreated(before, h) ==> Slot(h) == if Exists(before, h) then Some(Created) else None
  {
    if h != [] {
      var t, e := h[..|h| - 1], h[|h| - 1];
      SlotMeaning(before, t);
      assert h == t + [e];
    }
  }

  /** A slot tells the net effect of its window exactly when the path was not present
      at its start and created again in it. */
  lemma {:induction false} SlotIsNetIff(before: bool, h: seq<Ev>)
    requires Legal(before, h)
    ensures Slot(h) == Net(before, h) <==> !Recreated(before, h)
  {
    SlotMeaning(before, h);
  }

  /** Deleted and created again: told as created, though it was changed. */
  lemma RecreationMisleads()
    ensures Legal(true, [Deleted, Created]) && Slot([Deleted, Created]) == Some(Created)
    ensures Net(true, [Deleted, Created]) == Some(Modified)
  {
    var h := [Deleted, Created];
    assert h[..1] == [Deleted] && [Deleted][..0] == [];
  }

  /** A history cut in two. */
  lemma {:induction false} LegalSplit(before: bool, a: seq<Ev>, b: seq<Ev>)
    ensures Exists(before, a + b) == Exists(Exists(before, a), b)
    ensures Legal(before, a + b) <==> Legal(before, a) && Legal(Exists(before, a), b)
  {
    if b == [] {
      assert a + b == a;
    } else {
      var c := b[..|b| - 1];
      assert (a + b)[..|a + b| - 1] == a + c && (a + b)[|a + b| - 1] == b[|b| - 1];
      LegalSplit(before, a, c);
    }
  }

  // ---------- dispatches ----------

  /** A callback made for a pending entry. */
  datatype Sent = Sent(path: string, event: Ev, time: nat, isDir: bool, from: Option<string>)

  /** Two dispatches for one path are at least c apart. */
  ghost predicate Spaced(c: nat, sent: seq<Sent>) {
    forall i, j :: 0 <= i < j < |sent| && sent[i].path == sent[j].path ==> sent[i].time + c <= sent[j].time
  }

  /** Dispatches for p from time lo to time hi. */
  function CountIn(sent: seq<Sent>, p: string, lo: nat, hi: int): nat {
    if sent == [] then 0
    else
      var s := sent[|sent| - 1];
      CountIn(sent[..|sent| - 1], p, lo, hi) + if s.path == p && lo <= s.time <= hi then 1 else 0
  }

  /** Lowering the upper limit changes nothing if nothing is above it. */
  lemma {:induction false} CountUpTo(sent: seq<Sent>, p: string, lo: nat, hi: int, top: int)
    requires top <= hi && forall i :: 0 <= i < |sent| && sent[i].path == p ==> sent[i].time <= top
    ensures CountIn(sent, p, lo, hi) == CountIn(sent, p, lo, top)
  {
    if sent != [] {
      CountUpTo(sent[..|sent| - 1], p, lo, hi, top);
    }
  }

  lemma {:induction false} GapsFit(c: nat, sent: seq<Sent>, p: string, lo: nat, hi: int)
    requires Spaced(c, sent) && CountIn(sent, p, lo, hi) > 0
    ensures (CountIn(sent, p, lo, hi) - 1) * c <= hi - lo
    decreases |sent|
  {
    var front, s := sent[..|sent| - 1], sent[|sent| - 1];
    if s.path == p && lo <= s.time <= hi {
      var n := CountIn(front, p, lo, hi);
      var top := s.time - c;
      assert forall i :: 0 <= i < |front| ==> front[i] == sent[i];
      CountUpTo(front, p, lo, hi, top);
      if n > 0 {
        GapsFit(c, front, p, lo, top);
        assert (n - 1) * c + c == n * c;
      }
    } else {
      GapsFit(c, front, p, lo, hi);
    }
  }

  /** At most L/c + 1 dispatches for one path fall into an interval of length L. */
  lemma RateBound(c: nat, sent: seq<Sent>, p: string, lo: nat, length: nat)
    requires c > 0 && Spaced(c, sent)
    ensures CountIn(sent, p, lo, lo + length) <= length / c + 1
  {
    var n := CountIn(sent, p, lo, lo + length);
    if n > 0 {
      GapsFit(c, sent, p, lo, lo + length);
      QuotientAtLeast(n - 1, c, length);
    }
  }

  lemma QuotientAtLeast(k: nat, c: nat, n: nat)
    requires c > 0 && k * c <= n
    ensures k <= n / c
  {
    var q, r := n / c, n % c;
    assert n == q * c + r;
    assert (k - q - 1) * c == k * c - q * c - c;
    assert k >= q + 1 ==> (k - q - 1) * c >= 0;
  }
}
