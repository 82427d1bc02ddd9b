/** Pairing of renames by cookie in src/backend/backend_inotify.c, stated on values:
    the FROM entries waiting, and what led to each call of the dispatcher. */
module Pairing {
  import opened Tables
  import opened Paths
  import opened Options
  import opened Slots
  import opened Coalesce

  /** The place of the entry with that cookie, or the length. */
  function IndexOfCookie(moves: seq<Move>, cookie: nat): (i: nat)
    ensures i <= |moves|
    ensures i < |moves| ==> moves[i].cookie == cookie
    ensures forall k :: 0 <= k < i ==> moves[k].cookie != cookie
  {
    if moves == [] then 0 else if moves[0].cookie == cookie then 0 else 1 + IndexOfCookie(moves[1..], cookie)
  }

  /** Entries have different cookies, are not from the future, and their paths end in
      a name. */
  ghost predicate GoodMoves(moves: seq<Move>, now: nat) {
    && (forall i, j :: 0 <= i < j < |moves| ==> moves[i].cookie != moves[j].cookie)
    && (forall i :: 0 <= i < |moves| ==> moves[i].stamp <= now)
    && (forall i :: 0 <= i < |moves| ==> Named(moves[i]))
  }

  predicate Named(m: Move) { m.path == FullPath(m.target, BaseName(m.path)) }

  lemma NamedAt(moves: seq<Move>, now: nat, i: nat)
    requires i < |moves| && GoodMoves(moves, now)
    ensures moves[i].path == FullPath(moves[i].target, BaseName(moves[i].path))
  {
    assert Named(moves[i]);
  }

  predicate IsStale(m: Move, now: nat, limit: nat) { now - m.stamp >= limit }

  function Fresh(moves: seq<Move>, now: nat, limit: nat): seq<Move> {
    if moves == [] then []
    else
      var n := |moves| - 1;
      Fresh(moves[..n], now, limit) + if IsStale(moves[n], now, limit) then [] else [moves[n]]
  }

  function Stale(moves: seq<Move>, now: nat, limit: nat): seq<Move> {
    if moves == [] then []
    else
      var n := |moves| - 1;
      Stale(moves[..n], now, limit) + if IsStale(moves[n], now, limit) then [moves[n]] else []
  }

  /** The DELETED a stale entry is turned into, if its target wants it. */
  function Deletion(m: Move): seq<Call> {
    if m.target.wants(Deleted) then [Call(m.target, Deleted, Some(BaseName(m.path)), m.isDir, None)] else []
  }

  function Deletions(stale: seq<Move>): seq<Call> {
    if stale == [] then [] else Deletions(stale[..|stale| - 1]) + Deletion(stale[|stale| - 1])
  }

  /** Why inotify_dispatch_event may be called: a FROM has expired, a TO has been
      handled, with the FROM of its cookie if that was pending, or some other record. */
  datatype Cause = Expiry(from: Move) | Matched(to: Raw, found: Option<Move>) | Passed(raw: Raw)

  /** The calls it leads to: none if mask or patterns are against it. */
  function CallsFor(c: Cause): seq<Call> {
    match c
    case Expiry(m) => Deletion(m)
    case Matched(to, found) =>
      if to.name.Some? && to.target.wants(Moved) && Passes(to.target, to.name)
      then [Call(to.target, Moved, to.name, to.isDir, if found.Some? then Some(found.value.path) else None)] else []
    case Passed(raw) =>
      if raw.Plain? && raw.target.wants(raw.event) && Passes(raw.target, raw.name)
      then [Call(raw.target, raw.event, raw.name, raw.isDir, None)] else []
  }

  function CallsOf(causes: seq<Cause>): seq<Call> {
    if causes == [] then [] else CallsOf(causes[..|causes| - 1]) + CallsFor(causes[|causes| - 1])
  }

  /** The FROM entries that TO records have consumed, those that have expired, and the
      records handled. */
  function Consumed(causes: seq<Cause>): seq<Move> {
    if causes == [] then [] else Consumed(causes[..|causes| - 1]) + ConsumedBy(causes[|causes| - 1])
  }

  function ConsumedBy(c: Cause): seq<Move> { if c.Matched? && c.found.Some? then [c.found.value] else [] }

  function Expired(causes: seq<Cause>): seq<Move> {
    if causes == [] then [] else Expired(causes[..|causes| - 1]) + ExpiredBy(causes[|causes| - 1])
  }

  function ExpiredBy(c: Cause): seq<Move> { if c.Expiry? then [c.from] else [] }

  function RawsOf(causes: seq<Cause>): seq<Raw> {
    if causes == [] then [] else RawsOf(causes[..|causes| - 1]) + RawBy(causes[|causes| - 1])
  }

  function RawBy(c: Cause): seq<Raw> { if c.Matched? then [c.to] else if c.Passed? then [c.raw] else [] }

  lemma CausesMore(causes: seq<Cause>, c: Cause)
    ensures CallsOf(causes + [c]) == CallsOf(causes) + CallsFor(c)
    ensures Consumed(causes + [c]) == Consumed(causes) + ConsumedBy(c)
    ensures Expired(causes + [c]) == Expired(causes) + ExpiredBy(c)
    ensures RawsOf(causes + [c]) == RawsOf(causes) + RawBy(c)
  {
    assert (causes + [c])[..|causes|] == causes;
  }

  /** A TO consumes the FROM of its own cookie. */
  predicate WellCaused(c: Cause) {
    match c
    case Expiry(m) => true
    case Matched(to, found) => to.To? && (found.Some? ==> to.cookie != 0 && found.value.cookie == to.cookie)
    case Passed(raw) => raw.Plain?
  }

  /** The calls made are those the causes lead to, in order. */
  ghost predicate Caused(calls: seq<Call>, causes: seq<Cause>) {
    calls == CallsOf(causes) && forall i :: 0 <= i < |causes| ==> WellCaused(causes[i])
  }

  lemma CausedMore(calls: seq<Call>, causes: seq<Cause>, c: Cause)
    requires Caused(calls, causes) && WellCaused(c)
    ensures Caused(calls + CallsFor(c), causes + [c])
  {
    CausesMore(causes, c);
  }

  /** Every buffered FROM is still pending, consumed by a TO, or expired: once. */
  ghost predicate Conserved(buffered: seq<Move>, moves: seq<Move>, causes: seq<Cause>) {
    multiset(buffered) == multiset(moves) + multiset(Consumed(causes)) + multiset(Expired(causes))
  }

  lemma ConservedDrop(buffered: seq<Move>, moves: seq<Move>, causes: seq<Cause>, i: nat, c: Cause)
    requires i < |moves| && Conserved(buffered, moves, causes) && ConsumedBy(c) + ExpiredBy(c) == [moves[i]]
    ensures Conserved(buffered, RemoveAt(moves, i), causes + [c])
  {
    CausesMore(causes, c);
    RemoveItems(moves, i);
    Together(Consumed(causes), ConsumedBy(c));
    Together(Expired(causes), ExpiredBy(c));
    Together(ConsumedBy(c), ExpiredBy(c));
  }

  lemma GoodDrop(moves: seq<Move>, i: nat, now: nat)
    requires i < |moves| && GoodMoves(moves, now)
    ensures GoodMoves(RemoveAt(moves, i), now)
  {
    var d := RemoveAt(moves, i);
    forall j | 0 <= j < |d| ensures d[j] == moves[if j < i then j else j + 1] {
    }
  }

  /** After an expiry pass no pending entry is as old as the limit. */
  lemma {:induction false} FreshIsFresh(moves: seq<Move>, now: nat, limit: nat)
    ensures forall m :: m in Fresh(moves, now, limit) ==> !IsStale(m, now, limit)
    ensures forall m :: m in Stale(moves, now, limit) ==> IsStale(m, now, limit)
  {
    if moves != [] {
      FreshIsFresh(moves[..|moves| - 1], now, limit);
    }
  }

  /** No entry is lost or doubled by the pass. */
  lemma {:induction false} FreshAndStale(moves: seq<Move>, now: nat, limit: nat)
    ensures multiset(Fresh(moves, now, limit)) + multiset(Stale(moves, now, limit)) == multiset(moves)
  {
    if moves != [] {
      var n := |moves| - 1;
      FreshAndStale(moves[..n], now, limit);
      OneMore(moves[..n], moves[n], moves);
      if IsStale(moves[n], now, limit) {
        OneMore(Stale(moves[..n], now, limit), moves[n], Stale(moves, now, limit));
      } else {
        OneMore(Fresh(moves[..n], now, limit), moves[n], Fresh(moves, now, limit));
      }
    }
  }

  lemma OneMore(a: seq<Move>, m: Move, b: seq<Move>)
    requires b == a + [m]
    ensures multiset(b) == multiset(a) + multiset{m}
  {
  }

  /** The two parts, told by age; what the stale ones lead to. */
  lemma {:induction false} FreshTold(moves: seq<Move>, now: nat, limit: nat)
    ensures Fresh(moves, now, limit) == Kept(moves, (m: Move) => now - m.stamp < limit)
    ensures Deletions(Stale(moves, now, limit)) ==
            DeletedCalls(Kept(moves, (m: Move) => now - m.stamp >= limit && m.target.wants(Deleted)))
  {
    var due := (m: Move) => now - m.stamp >= limit && m.target.wants(Deleted);
    if moves != [] {
      var n := |moves| - 1;
      var m, gone := moves[n], Stale(moves[..n], now, limit);
      FreshTold(moves[..n], now, limit);
      assert (gone + [m])[..|gone|] == gone;
      assert gone + [] == gone && Deletions(gone) + [] == Deletions(gone);
      assert Deletions(gone) == DeletedCalls(Kept(moves[..n], due));
      assert due(m) <==> IsStale(m, now, limit) && m.target.wants(Deleted);
    }
  }

  /** One DELETED for each entry: its target, the name its path ends in, and no old path. */
  function DeletedCalls(ms: seq<Move>): (cs: seq<Call>)
    ensures |cs| == |ms|
    ensures forall i :: 0 <= i < |ms| ==>
              cs[i] == Call(ms[i].target, Deleted, Some(BaseName(ms[i].path)), ms[i].isDir, None)
  {
    seq(|ms|, i requires 0 <= i < |ms| => Call(ms[i].target, Deleted, Some(BaseName(ms[i].path)), ms[i].isDir, None))
  }

  function Expiries(ms: seq<Move>): seq<Cause> {
    if ms == [] then [] else Expiries(ms[..|ms| - 1]) + [Expiry(ms[|ms| - 1])]
  }

  lemma {:induction false} ExpiriesCalls(causes: seq<Cause>, ms: seq<Move>)
    ensures CallsOf(causes + Expiries(ms)) == CallsOf(causes) + Deletions(ms)
  {
    if ms == [] {
      assert causes + [] == causes && CallsOf(causes) + [] == CallsOf(causes);
    } else {
      var front, m := ms[..|ms| - 1], ms[|ms| - 1];
      ExpiriesCalls(causes, front);
      CausesMore(causes + Expiries(front), Expiry(m));
      Shifted(causes, Expiries(front), [Expiry(m)]);
      Shifted(CallsOf(causes), Deletions(front), Deletion(m));
    }
  }

  /** What an expiry pass has done when it has looked at the first k entries of m0;
      i is the place it stands on. */
  ghost predicate ExpiredTo(m0: seq<Move>, k: nat, now: nat, limit: nat, x0: seq<Cause>,
                            i: nat, moves: seq<Move>, causes: seq<Cause>)
    requires k <= |m0|
  {
    && moves == Fresh(m0[..k], now, limit) + m0[k..] && i == |Fresh(m0[..k], now, limit)|
    && causes == x0 + Expiries(Stale(m0[..k], now, limit))
  }

  lemma ExpiredEnd(m0: seq<Move>, k: nat, now: nat, limit: nat, x0: seq<Cause>, i: nat, moves: seq<Move>,
                   causes: seq<Cause>)
    requires k <= |m0| && ExpiredTo(m0, k, now, limit, x0, i, moves, causes)
    ensures k == |m0| <==> i == |moves|
    ensures k == |m0| ==> moves == Fresh(m0, now, limit) && causes == x0 + Expiries(Stale(m0, now, limit))
  {
    assert m0[..|m0|] == m0 && |m0[k..]| == |m0| - k;
    if k == |m0| {
      assert Fresh(m0, now, limit) + [] == Fresh(m0, now, limit);
    }
  }

  lemma ExpiredMore(m0: seq<Move>, k: nat, now: nat, limit: nat, x0: seq<Cause>, i: nat, moves: seq<Move>,
                    causes: seq<Cause>)
    requires k < |m0| && ExpiredTo(m0, k, now, limit, x0, i, moves, causes)
    ensures i < |moves| && moves[i] == m0[k]
    ensures if IsStale(moves[i], now, limit) then
              ExpiredTo(m0, k + 1, now, limit, x0, i, RemoveAt(moves, i), causes + [Expiry(moves[i])])
            else ExpiredTo(m0, k + 1, now, limit, x0, i + 1, moves, causes)
  {
    StaleNext(m0, k, now, limit);
    Around(Fresh(m0[..k], now, limit), m0, k, moves);
    Shifted(x0, Expiries(Stale(m0[..k], now, limit)), [Expiry(m0[k])]);
  }

  lemma Around(f: seq<Move>, m0: seq<Move>, k: nat, moves: seq<Move>)
    requires k < |m0| && moves == f + m0[k..]
    ensures |f| < |moves| && moves[|f|] == m0[k]
    ensures RemoveAt(moves, |f|) == f + m0[k + 1..] && moves == (f + [m0[k]]) + m0[k + 1..]
  {
  }

  lemma StaleNext(m0: seq<Move>, k: nat, now: nat, limit: nat)
    requires k < |m0|
    ensures var m := m0[k];
            if IsStale(m, now, limit) then
              && Fresh(m0[..k + 1], now, limit) == Fresh(m0[..k], now, limit)
              && Stale(m0[..k + 1], now, limit) == Stale(m0[..k], now, limit) + [m]
              && Expiries(Stale(m0[..k + 1], now, limit)) == Expiries(Stale(m0[..k], now, limit)) + [Expiry(m)]
            else
              && Fresh(m0[..k + 1], now, limit) == Fresh(m0[..k], now, limit) + [m]
              && Stale(m0[..k + 1], now, limit) == Stale(m0[..k], now, limit)
  {
    assert m0[..k + 1][..k] == m0[..k];
    var gone := Stale(m0[..k], now, limit);
    assert (gone + [m0[k]])[..|gone|] == gone;
  }

  lemma GoodAdd(moves: seq<Move>, now: nat, m: Move)
    requires GoodMoves(moves, now) && m.stamp <= now && Named(m)
    requires IndexOfCookie(moves, m.cookie) == |moves|
    ensures GoodMoves(moves + [m], now)
  {
  }

  lemma FullPathName(t: Receiver, name: string)
    requires SEP !in name
    ensures BaseName(FullPath(t, name)) == name
  {
    if t.path != "" && t.path[|t.path| - 1] == SEP {
      BaseNameAfter(t.path, name);
    } else {
      BaseNameAfter(t.path + [SEP], name);
    }
  }

  // ---------- runs ----------

  /** A round of the thread loop before it reads, or one record that it read. */
  datatype Step = Tick | Event(raw: Raw)

  /** A FROM that is buffered: one with a cookie and a name. */
  predicate Buffers(raw: Raw) { raw.From? && raw.cookie != 0 && raw.name.Some? }

  datatype Label = Label(cookie: nat, path: string, isDir: bool)

  function FromsOf(steps: seq<Step>): seq<Label> {
    if steps == [] then [] else FromsOf(steps[..|steps| - 1]) + LabelOf(steps[|steps| - 1])
  }

  function LabelOf(s: Step): seq<Label> {
    if s.Event? && Buffers(s.raw)
    then [Label(s.raw.cookie, FullPath(s.raw.target, s.raw.name.value), s.raw.isDir)] else []
  }

  function LabelsOf(moves: seq<Move>): seq<Label> {
    seq(|moves|, i requires 0 <= i < |moves| => MoveLabel(moves[i]))
  }

  function MoveLabel(m: Move): Label { Label(m.cookie, m.path, m.isDir) }

  predicate PlainName(raw: Raw) { raw.name.Some? ==> SEP !in raw.name.value }

  /** The records of a run that are not FROM, in order. */
  function OthersOf(steps: seq<Step>): seq<Raw> {
    if steps == [] then [] else OthersOf(steps[..|steps| - 1]) + OtherOf(steps[|steps| - 1])
  }

  function OtherOf(s: Step): seq<Raw> { if s.Event? && !s.raw.From? then [s.raw] else [] }

  ghost predicate CookiesOnce(ls: seq<Label>) { forall i, j :: 0 <= i < j < |ls| ==> ls[i].cookie != ls[j].cookie }

  lemma {:induction false} FromsPrefix(steps: seq<Step>, k: nat)
    requires k <= |steps|
    ensures FromsOf(steps[..k]) <= FromsOf(steps)
    decreases |steps|
  {
    if k < |steps| {
      FromsPrefix(steps[..|steps| - 1], k);
      assert steps[..|steps| - 1][..k] == steps[..k];
    } else {
      assert steps[..k] == steps;
    }
  }

  lemma LabelsMore(b0: seq<Move>, b1: seq<Move>, step: Step)
    requires if step.Event? && Buffers(step.raw) then |b1| == |b0| + 1 && b1[..|b0|] == b0 &&
             LabelOf(step) == [MoveLabel(b1[|b0|])]
             else b1 == b0
    ensures LabelsOf(b1) == LabelsOf(b0) + LabelOf(step)
  {
    if step.Event? && Buffers(step.raw) { assert b1 == b0 + [b1[|b0|]]; }
  }

  /** What the first k steps have buffered and handled. */
  ghost predicate Followed(steps: seq<Step>, k: nat, buffered: seq<Move>, causes: seq<Cause>) {
    k <= |steps| && LabelsOf(buffered) == FromsOf(steps[..k]) && RawsOf(causes) == OthersOf(steps[..k])
  }

  lemma FollowedStart(steps: seq<Step>)
    ensures Followed(steps, 0, [], [])
  {
  }

  lemma FollowedMore(steps: seq<Step>, k: nat, b0: seq<Move>, x0: seq<Cause>, b1: seq<Move>, x1: seq<Cause>)
    requires k < |steps| && Followed(steps, k, b0, x0)
    requires LabelsOf(b1) == LabelsOf(b0) + LabelOf(steps[k]) && RawsOf(x1) == RawsOf(x0) + OtherOf(steps[k])
    ensures Followed(steps, k + 1, b1, x1)
  {
    hide FromsOf, OthersOf, LabelsOf, RawsOf, LabelOf, OtherOf;
    FromsSnoc(steps[..k + 1], steps[..k], steps[k]);
  }

  lemma FollowedEnd(steps: seq<Step>, buffered: seq<Move>, causes: seq<Cause>)
    requires Followed(steps, |steps|, buffered, causes)
    ensures LabelsOf(buffered) == FromsOf(steps) && RawsOf(causes) == OthersOf(steps)
  {
    assert steps[..|steps|] == steps;
  }

  lemma CookieIsNew(steps: seq<Step>, k: nat, buffered: seq<Move>, moves: seq<Move>, causes: seq<Cause>)
    requires k < |steps| && steps[k].Event? && Buffers(steps[k].raw) && CookiesOnce(FromsOf(steps))
    requires Followed(steps, k, buffered, causes) && Conserved(buffered, moves, causes)
    ensures IndexOfCookie(moves, steps[k].raw.cookie) == |moves|
  {
    FromsMore(steps, k);
    var l := Label(steps[k].raw.cookie, FullPath(steps[k].raw.target, steps[k].raw.name.value), steps[k].raw.isDir);
    assert LabelOf(steps[k]) == [l];
    NotPending(FromsOf(steps), l, buffered, moves, causes);
  }

  lemma FromsMore(steps: seq<Step>, k: nat)
    requires k < |steps|
    ensures FromsOf(steps[..k]) + LabelOf(steps[k]) <= FromsOf(steps)
  {
    hide FromsOf;
    FromsPrefix(steps, k + 1);
    FromsSnoc(steps[..k + 1], steps[..k], steps[k]);
  }

  lemma FromsSnoc(t: seq<Step>, front: seq<Step>, s: Step)
    requires t == front + [s]
    ensures FromsOf(t) == FromsOf(front) + LabelOf(s) && OthersOf(t) == OthersOf(front) + OtherOf(s)
  {
    assert t[..|t| - 1] == front;
  }

  lemma NotPending(ls: seq<Label>, l: Label, buffered: seq<Move>, moves: seq<Move>, causes: seq<Cause>)
    requires CookiesOnce(ls) && LabelsOf(buffered) + [l] <= ls && Conserved(buffered, moves, causes)
    ensures IndexOfCookie(moves, l.cookie) == |moves|
  {
    assert ls[|buffered|] == l;
    forall i | 0 <= i < |moves| ensures moves[i].cookie != l.cookie {
      assert moves[i] in multiset(moves) && moves[i] in multiset(buffered);
      var j :| 0 <= j < |buffered| && buffered[j] == moves[i];
      assert LabelsOf(buffered)[j] == ls[j];
    }
  }

  // ---------- where old paths come from ----------

  /** One of the first n steps is the FROM record that m was buffered for. */
  ghost predicate CameFrom(steps: seq<Step>, n: nat, m: Move)
    requires n <= |steps|
  {
    exists j :: 0 <= j < n && steps[j].Event? && BufferedFor(steps[j].raw, m)
  }

  ghost predicate BufferedFor(raw: Raw, m: Move) {
    && raw.From? && raw.cookie == m.cookie != 0 && raw.name.Some?
    && m.path == FullPath(raw.target, raw.name.value) && m.target == raw.target && m.isDir == raw.isDir
  }

  /** The call is the MOVED of a TO record among the first n steps, and its old path is that of an earlier FROM record
      with the same cookie. */
  ghost predicate Renamed(steps: seq<Step>, n: nat, c: Call)
    requires n <= |steps|
  {
    exists j, k :: 0 <= j < k < n && steps[j].Event? && steps[k].Event? && RenamedBy(steps[j].raw, steps[k].raw, c)
  }

  ghost predicate RenamedBy(from: Raw, to: Raw, c: Call) {
    && from.From? && to.To? && from.cookie == to.cookie != 0 && from.name.Some?
    && c == Call(to.target, Moved, to.name, to.isDir, Some(FullPath(from.target, from.name.value)))
  }

  /** Every pending entry and every old path handed on can be traced to the first n steps. */
  ghost predicate Traced(steps: seq<Step>, n: nat, moves: seq<Move>, calls: seq<Call>) {
    && n <= |steps|
    && (forall m :: m in moves ==> CameFrom(steps, n, m))
    && (forall i :: 0 <= i < |calls| && calls[i].from.Some? ==> Renamed(steps, n, calls[i]))
  }

  /** What one step can do to the entries and the calls. */
  ghost predicate Changed(step: Step, moves0: seq<Move>, calls0: seq<Call>, moves: seq<Move>, calls: seq<Call>) {
    && (forall m :: m in moves ==> m in moves0 || (step.Event? && BufferedFor(step.raw, m)))
    && |calls0| <= |calls| && calls[..|calls0|] == calls0
    && (forall i :: |calls0| <= i < |calls| && calls[i].from.Some? ==>
          exists m :: m in moves0 && step.Event? && step.raw.To? && step.raw.cookie == m.cookie != 0 &&
                      calls[i] == Call(step.raw.target, Moved, step.raw.name, step.raw.isDir, Some(m.path)))
  }

  lemma TracedStart(steps: seq<Step>, moves: seq<Move>, calls: seq<Call>)
    requires Conserved([], moves, []) && Caused(calls, [])
    ensures Traced(steps, 0, moves, calls)
  {
    assert |multiset(moves)| == |moves|;
  }

  lemma TickChanges(moves0: seq<Move>, calls0: seq<Call>, now: nat, limit: nat, moves: seq<Move>, calls: seq<Call>)
    requires moves == Fresh(moves0, now, limit) && calls == calls0 + Deletions(Stale(moves0, now, limit))
    ensures Changed(Tick, moves0, calls0, moves, calls)
  {
    FreshTold(moves0, now, limit);
  }

  /** A TO, or any other record, adds no entry and makes at most one call. */
  lemma CallChanges(raw: Raw, moves0: seq<Move>, calls0: seq<Call>, moves: seq<Move>, calls: seq<Call>,
                    c: Option<Call>)
    requires forall m :: m in moves ==> m in moves0
    requires calls == calls0 + if c.Some? then [c.value] else []
    requires c.Some? && c.value.from.Some? ==>
               exists m :: m in moves0 && raw.To? && raw.cookie == m.cookie != 0 &&
                           c.value == Call(raw.target, Moved, raw.name, raw.isDir, Some(m.path))
    ensures Changed(Event(raw), moves0, calls0, moves, calls)
  {
  }

  lemma TracedMore(steps: seq<Step>, k: nat, moves0: seq<Move>, calls0: seq<Call>, moves: seq<Move>, calls: seq<Call>)
    requires k < |steps| && Traced(steps, k, moves0, calls0) && Changed(steps[k], moves0, calls0, moves, calls)
    ensures Traced(steps, k + 1, moves, calls)
  {
    forall m | m in moves ensures CameFrom(steps, k + 1, m) {
      if m in moves0 {
        var j :| 0 <= j < k && steps[j].Event? && BufferedFor(steps[j].raw, m);
      }
    }
    forall i | 0 <= i < |calls| && calls[i].from.Some? ensures Renamed(steps, k + 1, calls[i]) {
      if i < |calls0| {
        assert calls[i] == calls0[i];
        var j, l :| 0 <= j < l < k && steps[j].Event? && steps[l].Event? &&
          RenamedBy(steps[j].raw, steps[l].raw, calls[i]);
      } else {
        var m :| m in moves0 && calls[i].from == Some(m.path) && steps[k].raw.cookie == m.cookie;
        var j :| 0 <= j < k && steps[j].Event? && BufferedFor(steps[j].raw, m);
        assert RenamedBy(steps[j].raw, steps[k].raw, calls[i]);
      }
    }
  }

  // ---------- single records ----------

  /** The pending FROM of a cookie. */
  function PendingFor(moves: seq<Move>, cookie: nat): Option<Move> {
    if cookie != 0 && IndexOfCookie(moves, cookie) < |moves| then Some(moves[IndexOfCookie(moves, cookie)]) else None
  }

  /** The mask has the event, and the callback patterns, if there are any, admit the record's name. */
  predicate Asked(raw: Raw, event: Ev) {
    raw.target.wants(event) && (raw.target.patterned ==> raw.name.Some? && raw.target.named(raw.name.value))
  }

  function PathOf(m: Option<Move>): Option<string> { if m.Some? then Some(m.value.path) else None }

  /** It is the only entry with that cookie, and taking it leaves all others. */
  lemma PendingTold(moves: seq<Move>, cookie: nat, now: nat)
    requires GoodMoves(moves, now)
    ensures forall m :: m in moves && m.cookie == cookie && cookie != 0 ==>
              PathOf(PendingFor(moves, cookie)) == Some(m.path)
    ensures (forall m :: m in moves ==> m.cookie != cookie || cookie == 0) ==> PathOf(PendingFor(moves, cookie)) == None
    ensures PendingFor(moves, cookie).None? ==> forall m :: m in moves ==> m.cookie != cookie || cookie == 0
    ensures var m := PendingFor(moves, cookie); m.Some? ==> m.value in moves && m.value.cookie == cookie != 0
    ensures PendingFor(moves, cookie).Some? ==>
              forall m :: m in RemoveAt(moves, IndexOfCookie(moves, cookie)) <==> m in moves && m.cookie != cookie
  {
    var i := IndexOfCookie(moves, cookie);
    if cookie != 0 && i < |moves| { TakenLeaves(moves, i, now); }
  }

  lemma TakenLeaves(moves: seq<Move>, i: nat, now: nat)
    requires GoodMoves(moves, now) && i < |moves|
    ensures forall m :: m in RemoveAt(moves, i) <==> m in moves && m.cookie != moves[i].cookie
  {
  }

  /** A FROM with cookie and name joins the pending ones. */
  ghost predicate FromHandled(raw: Raw, now: nat, moves0: seq<Move>, buffered0: seq<Move>,
                              moves: seq<Move>, buffered: seq<Move>)
    requires raw.From?
  {
    if Buffers(raw) then
      var m := Move(raw.cookie, FullPath(raw.target, raw.name.value), raw.target, raw.isDir, now);
      moves == moves0 + [m] && buffered == buffered0 + [m]
    else moves == moves0 && buffered == buffered0
  }

  /** A TO takes the FROM of its cookie, if one is pending, and only that. */
  ghost predicate ToHandled(raw: Raw, moves0: seq<Move>, causes0: seq<Cause>, moves: seq<Move>, causes: seq<Cause>)
    requires raw.To?
  {
    && causes == causes0 + [Matched(raw, PendingFor(moves0, raw.cookie))]
    && moves == if PendingFor(moves0, raw.cookie).Some? then RemoveAt(moves0, IndexOfCookie(moves0, raw.cookie))
                else moves0
  }

  lemma {:induction false} ExpiriesHaveNoRaws(causes: seq<Cause>, ms: seq<Move>)
    ensures RawsOf(causes + Expiries(ms)) == RawsOf(causes)
  {
    if ms == [] {
      assert causes + [] == causes;
    } else {
      var front, m := ms[..|ms| - 1], ms[|ms| - 1];
      ExpiriesHaveNoRaws(causes, front);
      CausesMore(causes + Expiries(front), Expiry(m));
      Shifted(causes, Expiries(front), [Expiry(m)]);
    }
  }

  lemma TickNoted(buffered: seq<Move>, causes: seq<Cause>, stale: seq<Move>)
    ensures LabelsOf(buffered) == LabelsOf(buffered) + LabelOf(Tick)
    ensures RawsOf(causes + Expiries(stale)) == RawsOf(causes) + OtherOf(Tick)
  {
    ExpiriesHaveNoRaws(causes, stale);
  }

  lemma EventNoted(raw: Raw, now: nat, moves0: seq<Move>, buffered0: seq<Move>, causes0: seq<Cause>,
                   moves: seq<Move>, buffered: seq<Move>, causes: seq<Cause>)
    requires raw.From? ==> FromHandled(raw, now, moves0, buffered0, moves, buffered) && causes == causes0
    requires raw.To? ==> ToHandled(raw, moves0, causes0, moves, causes)
    requires raw.Plain? ==> causes == causes0 + [Passed(raw)]
    requires !raw.From? ==> buffered == buffered0
    ensures LabelsOf(buffered) == LabelsOf(buffered0) + LabelOf(Event(raw))
    ensures RawsOf(causes) == RawsOf(causes0) + OtherOf(Event(raw))
  {
    if raw.From? {
      assert RawsOf(causes) + [] == RawsOf(causes);
      if Buffers(raw) { LabelsMore(buffered0, buffered, Event(raw)); }
    } else {
      CausesMore(causes0, if raw.To? then Matched(raw, PendingFor(moves0, raw.cookie)) else Passed(raw));
    }
  }
}
