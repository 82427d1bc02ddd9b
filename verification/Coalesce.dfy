/** Coalescing and debounced dispatch in src/backend/backend_inotify.c, stated on
    values: the table of pending slots, the callbacks, and what they stand for. */
module Coalesce {
  import opened Tables
  import opened Paths
  import opened Options
  import opened Slots

  /** What dispatching asks of a target: its string, its mask, and its callback
      patterns, if it has any. */
  datatype Receiver = Receiver(path: string, wants: Ev -> bool, patterned: bool, named: string -> bool)

  /** coalesce_entry and move_pending. */
  datatype Entry = Entry(event: Ev, target: Receiver, stamp: nat, isDir: bool, from: Option<string>)
  datatype Move = Move(cookie: nat, path: string, target: Receiver, isDir: bool, stamp: nat)

  /** A call of inotify_dispatch_event. */
  datatype Call = Call(target: Receiver, event: Ev, name: Option<string>, isDir: bool, from: Option<string>)

  /** A kernel record with a watch in the table; an empty name is None. */
  datatype Raw =
    | From(cookie: nat, target: Receiver, name: Option<string>, isDir: bool)
    | To(cookie: nat, target: Receiver, name: Option<string>, isDir: bool)
    | Plain(event: Ev, target: Receiver, name: Option<string>, isDir: bool)

  type Pending = map<string, Entry>

  function FullPath(t: Receiver, name: string): string { Join(t.path, name) }

  /** A full path is the target's string and the name, with just one separator between them. */
  lemma FullPathMeaning(t: Receiver, name: string)
    ensures var p := FullPath(t, name);
            && t.path <= p && p[|p| - |name|..] == name
            && |p| > |name| && p[|p| - |name| - 1] == '/'
            && |p| == |t.path| + |name| + if t.path != "" && t.path[|t.path| - 1] == '/' then 0 else 1
  {
  }

  predicate Passes(t: Receiver, name: Option<string>) { !t.patterned || (name.Some? && t.named(name.value)) }

  // ---------- one slot ----------

  function Find(pending: Pending, p: string): Option<Entry> { if p in pending then Some(pending[p]) else None }

  function EventOf(slot: Option<Entry>): Option<Ev> { if slot.Some? then Some(slot.value.event) else None }

  /** What becomes of a slot when e arrives. */
  function Merge(slot: Option<Entry>, e: Entry): (r: Option<Entry>)
    ensures EventOf(r) == SlotStep(EventOf(slot), e.event)
    ensures r.Some? ==> r.value.stamp == e.stamp
  {
    match slot
    case None => Some(e)
    case Some(x) =>
      if x.event == Created && e.event == Deleted then None
      else if (x.event == Created || x.event == Modified) && e.event == Modified then Some(x.(stamp := e.stamp))
      else if x.event == Modified && e.event == Deleted then Some(x.(event := Deleted, stamp := e.stamp))
      else Some(e.(target := x.target))
  }

  function Put(pending: Pending, p: string, slot: Option<Entry>): Pending {
    if slot.Some? then pending[p := slot.value] else pending - {p}
  }

  /** A new slot goes to the end, a merged one keeps its place. */
  function PutKey(order: seq<string>, pending: Pending, p: string, slot: Option<Entry>): seq<string> {
    if slot.None? then Without(order, p) else if p in pending then order else order + [p]
  }

  /** What the arrival of e does to the slot of p, the others staying as they are: a new slot goes to the end of the
      table; CREATED and DELETED cancel out; a MODIFIED on a CREATED or a MODIFIED only makes it younger, and a
      DELETED on a MODIFIED makes it a younger DELETED, with all else kept; any other arrival replaces all but the
      target. */
  ghost predicate Coalesced(order0: seq<string>, pending0: Pending, p: string, e: Entry, order: seq<string>,
                            pending: Pending) {
    && (forall q :: q != p ==> Find(pending, q) == Find(pending0, q))
    && if p !in pending0 then
         order == order0 + [p] && Find(pending, p) == Some(e)
       else
         var was := pending0[p];
         if was.event == Created && e.event == Deleted then
           order == Kept(order0, q => q != p) && p !in pending
         else
           && order == order0 && p in pending
           && pending[p] ==
                if (was.event == Created || was.event == Modified) && e.event == Modified then
                  Entry(was.event, was.target, e.stamp, was.isDir, was.from)
                else if was.event == Modified && e.event == Deleted then
                  Entry(Deleted, was.target, e.stamp, was.isDir, was.from)
                else Entry(e.event, was.target, e.stamp, e.isDir, e.from)
  }

  lemma CoalescedAs(order: seq<string>, pending: Pending, p: string, e: Entry)
    requires NoDup(order)
    ensures var slot := Merge(Find(pending, p), e);
            Coalesced(order, pending, p, e, PutKey(order, pending, p, slot), Put(pending, p, slot))
  {
    CancelKeeps(order, p);
    hide Without, Kept;
  }

  lemma {:induction false} CancelKeeps(order: seq<string>, p: string)
    requires NoDup(order)
    ensures Without(order, p) == Kept(order, q => q != p)
  {
    if order != [] {
      var x, rest := order[0], order[1..];
      assert order == [x] + rest && x !in rest;
      CancelKeeps(rest, p);
      KeptFront(x, rest, q => q != p);
      if x == p { KeptAll(rest, q => q != p); }
    }
  }

  /** A call has been merged into the slot of its full path at time now. */
  ghost predicate Absorbed(call: Call, now: nat, order0: seq<string>, pending0: Pending, order: seq<string>,
                           pending: Pending)
    requires call.name.Some?
  {
    var p := FullPath(call.target, call.name.value);
    var slot := Merge(Find(pending0, p), Entry(call.event, call.target, now, call.isDir, call.from));
    pending == Put(pending0, p, slot) && order == PutKey(order0, pending0, p, slot)
  }

  // ---------- the ages of slots and dispatches ----------

  ghost predicate Clocked(time: nat -> nat) { forall i: nat, j: nat :: i <= j ==> time(i) <= time(j) }

  /** At time now: every pending slot is at least as young as the last dispatch for
      its path, and dispatches are spaced. */
  ghost predicate Timely(c: nat, order: seq<string>, pending: Pending, sent: seq<Sent>, now: nat) {
    && Ordered(order, pending) && Spaced(c, sent)
    && (forall p :: p in pending ==> pending[p].stamp <= now)
    && (forall i :: 0 <= i < |sent| ==> sent[i].time <= now)
    && (forall i :: 0 <= i < |sent| && sent[i].path in pending ==> sent[i].time <= pending[sent[i].path].stamp)
  }

  lemma TimelyLater(c: nat, order: seq<string>, pending: Pending, sent: seq<Sent>, now: nat, later: nat)
    requires Timely(c, order, pending, sent, now) && now <= later
    ensures Timely(c, order, pending, sent, later)
  {
  }

  lemma TimelyPut(c: nat, order: seq<string>, pending: Pending, sent: seq<Sent>, now: nat, p: string,
                  slot: Option<Entry>)
    requires Timely(c, order, pending, sent, now) && (slot.Some? ==> slot.value.stamp == now)
    requires slot.None? ==> p in pending
    ensures Timely(c, PutKey(order, pending, p, slot), Put(pending, p, slot), sent, now)
  {
    if slot.None? {
      OrderedRemove(order, pending, p);
    } else if p !in pending {
      OrderedAdd(order, pending, p, slot.value);
    }
  }

  lemma TimelySend(c: nat, order: seq<string>, pending: Pending, sent: seq<Sent>, now: nat, p: string, s: Sent)
    requires Timely(c, order, pending, sent, now) && p in pending && pending[p].stamp + c <= now
    requires s.path == p && s.time == now
    ensures Timely(c, Without(order, p), pending - {p}, sent + [s], now)
  {
    OrderedRemove(order, pending, p);
  }

  // ---------- what the dispatches summarise ----------

  function History(hist: map<string, seq<Ev>>, p: string): seq<Ev> { if p in hist then hist[p] else [] }

  /** The events given for p, in order. */
  function Given(given: seq<(string, Ev)>, p: string): seq<Ev> {
    if given == [] then []
    else Given(given[..|given| - 1], p) + if given[|given| - 1].0 == p then [given[|given| - 1].1] else []
  }

  /** The windows dispatched for p, one after the other. */
  function Dispatched(sent: seq<Sent>, windows: seq<seq<Ev>>, p: string): seq<Ev>
    requires |windows| == |sent|
  {
    if sent == [] then []
    else
      var n := |sent| - 1;
      Dispatched(sent[..n], windows[..n], p) + if sent[n].path == p then windows[n] else []
  }

  /** Dispatch i stands for windows[i], the pending slot of p for its history, and
      together these are all the events given for p. */
  ghost predicate Summaries(pending: Pending, sent: seq<Sent>, windows: seq<seq<Ev>>, hist: map<string, seq<Ev>>,
                            given: seq<(string, Ev)>) {
    && |windows| == |sent|
    && (forall i :: 0 <= i < |sent| ==> Slot(windows[i]) == Some(sent[i].event))
    && (forall p :: SummaryFor(pending, sent, windows, hist, given, p))
  }

  ghost predicate SummaryFor(pending: Pending, sent: seq<Sent>, windows: seq<seq<Ev>>, hist: map<string, seq<Ev>>,
                             given: seq<(string, Ev)>, p: string)
    requires |windows| == |sent|
  {
    && Slot(History(hist, p)) == EventOf(Find(pending, p))
    && Given(given, p) == Dispatched(sent, windows, p) + History(hist, p)
  }

  lemma SummariesPut(pending: Pending, sent: seq<Sent>, windows: seq<seq<Ev>>, hist: map<string, seq<Ev>>,
                     given: seq<(string, Ev)>, p: string, e: Entry)
    requires Summaries(pending, sent, windows, hist, given)
    ensures Summaries(Put(pending, p, Merge(Find(pending, p), e)), sent, windows,
                      hist[p := History(hist, p) + [e.event]], given + [(p, e.event)])
  {
    var pending' := Put(pending, p, Merge(Find(pending, p), e));
    var hist', given' := hist[p := History(hist, p) + [e.event]], given + [(p, e.event)];
    forall q ensures SummaryFor(pending', sent, windows, hist', given', q) {
      SummaryPut(pending, sent, windows, hist, given, p, e, q);
    }
  }

  lemma SummaryPut(pending: Pending, sent: seq<Sent>, windows: seq<seq<Ev>>, hist: map<string, seq<Ev>>,
                   given: seq<(string, Ev)>, p: string, e: Entry, q: string)
    requires |windows| == |sent| && SummaryFor(pending, sent, windows, hist, given, q)
    ensures SummaryFor(Put(pending, p, Merge(Find(pending, p), e)), sent, windows,
                       hist[p := History(hist, p) + [e.event]], given + [(p, e.event)], q)
  {
    var slot := Merge(Find(pending, p), e);
    assert Find(Put(pending, p, slot), q) == if q == p then slot else Find(pending, q);
    if q == p { SlotSnoc(History(hist, p), e.event); }
  }

  lemma SlotSnoc(h: seq<Ev>, e: Ev)
    ensures Slot(h + [e]) == SlotStep(Slot(h), e)
  {
    assert (h + [e])[..|h|] == h;
  }

  lemma SummariesSend(pending: Pending, sent: seq<Sent>, windows: seq<seq<Ev>>, hist: map<string, seq<Ev>>,
                      given: seq<(string, Ev)>, p: string, s: Sent)
    requires Summaries(pending, sent, windows, hist, given) && p in pending
    requires s.path == p && s.event == pending[p].event
    ensures Summaries(pending - {p}, sent + [s], windows + [History(hist, p)], hist[p := []], given)
  {
    assert SummaryFor(pending, sent, windows, hist, given, p);
    var pending', sent', windows', hist' := pending - {p}, sent + [s], windows + [History(hist, p)], hist[p := []];
    forall q ensures SummaryFor(pending', sent', windows', hist', given, q) {
      SummarySend(pending, sent, windows, hist, given, p, s, q);
    }
  }

  lemma SummarySend(pending: Pending, sent: seq<Sent>, windows: seq<seq<Ev>>, hist: map<string, seq<Ev>>,
                    given: seq<(string, Ev)>, p: string, s: Sent, q: string)
    requires |windows| == |sent| && SummaryFor(pending, sent, windows, hist, given, q) && s.path == p
    ensures SummaryFor(pending - {p}, sent + [s], windows + [History(hist, p)], hist[p := []], given, q)
  {
    var sent', windows' := sent + [s], windows + [History(hist, p)];
    assert sent'[..|sent|] == sent && windows'[..|sent|] == windows;
  }

  /** Over a whole run that is legal for p, dispatch i tells the net effect of its
      window exactly when p was not there at the window's start and created again. */
  lemma {:induction false} DispatchIsNetIff(sent: seq<Sent>, windows: seq<seq<Ev>>, p: string, before: bool, i: nat)
    requires |windows| == |sent| && (forall i :: 0 <= i < |sent| ==> Slot(windows[i]) == Some(sent[i].event))
    requires i < |sent| && sent[i].path == p && Legal(before, Dispatched(sent, windows, p))
    ensures var start := Exists(before, Dispatched(sent[..i], windows[..i], p));
            && Legal(start, windows[i])
            && (Some(sent[i].event) == Net(start, windows[i]) <==> !Recreated(start, windows[i]))
    decreases |sent|
  {
    var n := |sent| - 1;
    LegalSplit(before, Dispatched(sent[..n], windows[..n], p), if sent[n].path == p then windows[n] else []);
    if i == n {
      SlotIsNetIff(Exists(before, Dispatched(sent[..i], windows[..i], p)), windows[i]);
    } else {
      assert sent[..n][..i] == sent[..i] && windows[..n][..i] == windows[..i];
      DispatchIsNetIff(sent[..n], windows[..n], p, before, i);
    }
  }

  // ---------- flushing ----------

  predicate Ripe(pending: Pending, p: string, now: nat, c: nat) { p in pending && now - pending[p].stamp >= c }

  function RipeOf(order: seq<string>, pending: Pending, now: nat, c: nat): seq<string> {
    if order == [] then []
    else
      var n := |order| - 1;
      RipeOf(order[..n], pending, now, c) + if Ripe(pending, order[n], now, c) then [order[n]] else []
  }

  function UnripeOf(order: seq<string>, pending: Pending, now: nat, c: nat): seq<string> {
    if order == [] then []
    else
      var n := |order| - 1;
      UnripeOf(order[..n], pending, now, c) + if Ripe(pending, order[n], now, c) then [] else [order[n]]
  }

  function SentFor(e: Entry, p: string, now: nat): Sent { Sent(p, e.event, now, e.isDir, e.from) }

  function SentOf(ps: seq<string>, pending: Pending, now: nat): seq<Sent>
    requires forall p :: p in ps ==> p in pending
  {
    seq(|ps|, i requires 0 <= i < |ps| => SentFor(pending[ps[i]], ps[i], now))
  }

  /** The slots left when the first i keys have been looked at. */
  ghost predicate FlushedTo(keys: seq<string>, i: nat, p0: Pending, s0: seq<Sent>, now: nat, c: nat,
                            order: seq<string>, pending: Pending, sent: seq<Sent>)
    requires i <= |keys|
  {
    && order == UnripeOf(keys[..i], p0, now, c) + keys[i..]
    && (forall p :: p in RipeOf(keys[..i], p0, now, c) ==> p in p0)
    && sent == s0 + SentOf(RipeOf(keys[..i], p0, now, c), p0, now)
    && pending == Remaining(p0, RipeOf(keys[..i], p0, now, c))
  }

  function Remaining(pending: Pending, gone: seq<string>): Pending { map p | p in pending && p !in gone :: pending[p] }

  lemma {:induction false} WithoutMiddle(a: seq<string>, p: string, b: seq<string>)
    requires p !in a
    ensures Without(a + ([p] + b), p) == a + b
  {
    if a == [] {
      assert a + ([p] + b) == [p] + b && a + b == b;
    } else {
      assert (a + ([p] + b))[0] == a[0] && (a + ([p] + b))[1..] == a[1..] + ([p] + b);
      WithoutMiddle(a[1..], p, b);
      assert [a[0]] + (a[1..] + b) == a + b;
    }
  }

  lemma {:induction false} RipeSplit(keys: seq<string>, pending: Pending, now: nat, c: nat)
    ensures forall p :: p in RipeOf(keys, pending, now, c) <==> p in keys && Ripe(pending, p, now, c)
    ensures forall p :: p in UnripeOf(keys, pending, now, c) <==> p in keys && !Ripe(pending, p, now, c)
  {
    if keys != [] {
      RipeSplit(keys[..|keys| - 1], pending, now, c);
      assert keys == keys[..|keys| - 1] + [keys[|keys| - 1]];
    }
  }

  lemma FlushNext(keys: seq<string>, i: nat, p0: Pending, now: nat, c: nat)
    requires i < |keys| && NoDup(keys)
    ensures var p := keys[i];
            && keys[i] !in UnripeOf(keys[..i], p0, now, c) && keys[i] !in RipeOf(keys[..i], p0, now, c)
            && RipeOf(keys[..i + 1], p0, now, c) ==
               RipeOf(keys[..i], p0, now, c) + (if Ripe(p0, p, now, c) then [p] else [])
            && UnripeOf(keys[..i + 1], p0, now, c) ==
               UnripeOf(keys[..i], p0, now, c) + (if Ripe(p0, p, now, c) then [] else [p])
  {
    RipeSplit(keys[..i], p0, now, c);
    assert keys[..i + 1][..i] == keys[..i];
  }

  /** The slot the loop stands on is pending as it was, and is kept or dispatched. */
  lemma FlushedMore(keys: seq<string>, i: nat, p0: Pending, s0: seq<Sent>, now: nat, c: nat,
                    order: seq<string>, pending: Pending, sent: seq<Sent>)
    requires i < |keys| && Ordered(keys, p0) && FlushedTo(keys, i, p0, s0, now, c, order, pending, sent)
    ensures var p := keys[i];
            && p in pending && pending[p] == p0[p]
            && if Ripe(p0, p, now, c) then
                 FlushedTo(keys, i + 1, p0, s0, now, c, Without(order, p), pending - {p},
                           sent + [SentFor(pending[p], p, now)])
               else FlushedTo(keys, i + 1, p0, s0, now, c, order, pending, sent)
  {
    assert keys[i] in keys;
    FlushNext(keys, i, p0, now, c);
    if Ripe(p0, keys[i], now, c) {
      FlushedSend(keys, i, p0, s0, now, c, order, pending, sent);
    } else {
      FlushedKeep(keys, i, p0, s0, now, c, order, pending, sent);
    }
  }

  lemma FlushedSend(keys: seq<string>, i: nat, p0: Pending, s0: seq<Sent>, now: nat, c: nat,
                    order: seq<string>, pending: Pending, sent: seq<Sent>)
    requires i < |keys| && NoDup(keys) && FlushedTo(keys, i, p0, s0, now, c, order, pending, sent)
    requires Ripe(p0, keys[i], now, c) && keys[i] in pending && pending[keys[i]] == p0[keys[i]]
    ensures FlushedTo(keys, i + 1, p0, s0, now, c, Without(order, keys[i]), pending - {keys[i]},
                      sent + [SentFor(pending[keys[i]], keys[i], now)])
  {
    FlushNext(keys, i, p0, now, c);
    assert keys[i..] == [keys[i]] + keys[i + 1..];
    WithoutMiddle(UnripeOf(keys[..i], p0, now, c), keys[i], keys[i + 1..]);
  }

  lemma FlushedKeep(keys: seq<string>, i: nat, p0: Pending, s0: seq<Sent>, now: nat, c: nat,
                    order: seq<string>, pending: Pending, sent: seq<Sent>)
    requires i < |keys| && NoDup(keys) && FlushedTo(keys, i, p0, s0, now, c, order, pending, sent)
    requires !Ripe(p0, keys[i], now, c)
    ensures FlushedTo(keys, i + 1, p0, s0, now, c, order, pending, sent)
  {
    FlushNext(keys, i, p0, now, c);
    assert keys[i..] == [keys[i]] + keys[i + 1..];
    Shifted(UnripeOf(keys[..i], p0, now, c), [keys[i]], keys[i + 1..]);
  }

  /** The result of a flush: the slots quiet for c by now are out, in order of first arrival, each as the callback its
      entry stands for; the others are as they were. */
  ghost predicate Settled(keys: seq<string>, p0: Pending, s0: seq<Sent>, now: nat, c: nat,
                          order: seq<string>, pending: Pending, sent: seq<Sent>) {
    var quiet := Kept(keys, p => p in p0 && now - p0[p].stamp >= c);
    && order == Kept(keys, p => p in p0 && now - p0[p].stamp < c)
    && (forall p :: p in pending <==> p in p0 && now - p0[p].stamp < c)
    && (forall p :: p in pending ==> pending[p] == p0[p])
    && |sent| == |s0| + |quiet| && sent[..|s0|] == s0
    && (forall i :: 0 <= i < |quiet| ==>
          var p := quiet[i];
          p in p0 && sent[|s0| + i] == Sent(p, p0[p].event, now, p0[p].isDir, p0[p].from))
  }

  lemma {:induction false} RipeKept(keys: seq<string>, p0: Pending, now: nat, c: nat)
    requires forall p :: p in keys ==> p in p0
    ensures RipeOf(keys, p0, now, c) == Kept(keys, p => p in p0 && now - p0[p].stamp >= c)
    ensures UnripeOf(keys, p0, now, c) == Kept(keys, p => p in p0 && now - p0[p].stamp < c)
  {
    if keys != [] { RipeKept(keys[..|keys| - 1], p0, now, c); }
  }

  lemma FlushedSettles(keys: seq<string>, p0: Pending, s0: seq<Sent>, now: nat, c: nat,
                       order: seq<string>, pending: Pending, sent: seq<Sent>)
    requires Ordered(keys, p0) && FlushedTo(keys, |keys|, p0, s0, now, c, order, pending, sent)
    ensures Settled(keys, p0, s0, now, c, order, pending, sent)
  {
    hide Kept, RipeOf, UnripeOf, SentOf, Ripe;
    var quiet := RipeOf(keys, p0, now, c);
    assert keys[..|keys|] == keys && UnripeOf(keys, p0, now, c) + [] == UnripeOf(keys, p0, now, c);
    RipeKept(keys, p0, now, c);
    SentTold(quiet, p0, s0, now, sent);
    QuietRemain(keys, p0, now, c);
  }

  lemma QuietRemain(keys: seq<string>, p0: Pending, now: nat, c: nat)
    requires Ordered(keys, p0)
    ensures forall p :: p in Remaining(p0, RipeOf(keys, p0, now, c)) <==> p in p0 && now - p0[p].stamp < c
  {
    RipeSplit(keys, p0, now, c);
  }

  lemma SentTold(ripe: seq<string>, p0: Pending, s0: seq<Sent>, now: nat, sent: seq<Sent>)
    requires (forall p :: p in ripe ==> p in p0) && sent == s0 + SentOf(ripe, p0, now)
    ensures |sent| == |s0| + |ripe| && sent[..|s0|] == s0
    ensures forall i :: 0 <= i < |ripe| ==>
              var p := ripe[i];
              p in p0 && sent[|s0| + i] == Sent(p, p0[p].event, now, p0[p].isDir, p0[p].from)
  {
  }

  /** No slot has been quiet for as long as c. */
  ghost predicate NoneRipe(pending: Pending, now: nat, c: nat) {
    forall p :: p in pending ==> !Ripe(pending, p, now, c)
  }

  lemma SettledUnripe(keys: seq<string>, p0: Pending, s0: seq<Sent>, now: nat, c: nat,
                      order: seq<string>, pending: Pending, sent: seq<Sent>)
    requires Settled(keys, p0, s0, now, c, order, pending, sent)
    ensures NoneRipe(pending, now, c)
    ensures c == 0 && (forall p :: p in p0 ==> p0[p].stamp <= now) ==> order == [] && pending == map[]
  {
    assert order != [] ==> order[0] in order;
  }

  // ---------- dispatching ----------

  predicate GoesToSlot(c: nat, call: Call) { c > 0 && call.name.Some? }

  function ToSlots(c: nat, calls: seq<Call>): seq<(string, Ev)> {
    if calls == [] then []
    else
      var call := calls[|calls| - 1];
      ToSlots(c, calls[..|calls| - 1]) +
      if GoesToSlot(c, call) then [(FullPath(call.target, call.name.value), call.event)] else []
  }

  function AtOnce(c: nat, calls: seq<Call>): seq<Call> {
    if calls == [] then []
    else
      var call := calls[|calls| - 1];
      AtOnce(c, calls[..|calls| - 1]) + if GoesToSlot(c, call) then [] else [call]
  }
}
