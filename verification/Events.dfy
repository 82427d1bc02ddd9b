/** The event half of src/backend/backend_inotify.c as the object it updates, and its
    runs. */
module Events {
  import opened Tables
  import opened Paths
  import opened Options
  import opened Slots
  import opened Coalesce
  import opened Pairing

  /** The part of swatcher_inotify that handles events. The clock is an arbitrary one
      that does not run backwards: reading number i shows time(i). */
  class Pipeline {
    const coalesceMs: nat
    const time: nat -> nat
    var readings: nat
    var order: seq<string>
    var pending: Pending
    var moves: seq<Move>
    /** Callbacks made for slots, and those made at once. */
    var sent: seq<Sent>
    var direct: seq<Call>
    /** All calls of inotify_dispatch_event; what was given to slots; the window each
        dispatch stands for; every FROM buffered; and what led to the calls. */
    ghost var calls: seq<Call>
    ghost var given: seq<(string, Ev)>
    ghost var windows: seq<seq<Ev>>
    ghost var hist: map<string, seq<Ev>>
    ghost var buffered: seq<Move>
    ghost var causes: seq<Cause>

    ghost predicate Valid()
      reads this
    {
      ValidAt(coalesceMs)
    }

    /** c is the spacing promised so far. */
    ghost predicate ValidAt(c: nat)
      reads this
    {
      && Clocked(time)
      && Timely(c, order, pending, sent, time(readings))
      && Summaries(pending, sent, windows, hist, given)
      && GoodMoves(moves, time(readings)) && Conserved(buffered, moves, causes)
    }

    /** With coalescing on, named calls go to their slot, in order; all others are
        made at once. */
    ghost predicate Routed()
      reads this
    {
      given == ToSlots(coalesceMs, calls) && direct == AtOnce(coalesceMs, calls)
    }

    /** All that holds between any two steps of the thread. */
    ghost predicate Sound()
      reads this
    {
      Valid() && Routed() && Caused(calls, causes)
    }

    constructor (coalesceMs: nat, time: nat -> nat)
      requires Clocked(time)
      ensures Sound() && this.coalesceMs == coalesceMs && this.time == time
      ensures pending == map[] && moves == [] && sent == [] && direct == [] && calls == [] && given == [] &&
              buffered == []
      ensures causes == []
    {
      this.coalesceMs, this.time, readings := coalesceMs, time, 0;
      order, pending, moves, sent, direct := [], map[], [], [], [];
      calls, given, windows, hist, buffered, causes := [], [], [], map[], [], [];
    }

    /** sw_time_now_ms. */
    method Now() returns (now: nat)
      requires Valid()
      modifies this`readings
      ensures Valid() && readings == old(readings) + 1 && now == time(old(readings)) && now <= time(readings)
      ensures Timely(coalesceMs, order, pending, sent, now)
    {
      now := time(readings);
      readings := readings + 1;
      TimelyLater(coalesceMs, order, pending, sent, now, time(readings));
    }

    /** inotify_coalesce_add. */
    method CoalesceAdd(path: string, event: Ev, target: Receiver, isDir: bool, from: Option<string>)
      requires Valid()
      modifies this`readings, this`order, this`pending, this`hist, this`given
      ensures Valid() && given == old(given) + [(path, event)] && old(readings) <= readings
      ensures var slot := Merge(Find(old(pending), path), Entry(event, target, time(old(readings)), isDir, from));
              pending == Put(old(pending), path, slot) && order == PutKey(old(order), old(pending), path, slot)
      ensures Coalesced(old(order), old(pending), path, Entry(event, target, time(old(readings)), isDir, from),
                        order, pending)
    {
      CoalescedAs(order, pending, path, Entry(event, target, time(readings), isDir, from));
      hide Timely, Summaries, GoodMoves, Conserved, Coalesced;
      ghost var e := Entry(event, target, time(readings), isDir, from);
      if path in pending {
        var existing := pending[path];
        if existing.event == Created && event == Deleted {
          Store(path, None, e);
          return;
        }
        var now := Now();
        if existing.event == Created && event == Modified {
          Store(path, Some(existing.(stamp := now)), e);
        } else if existing.event == Modified && event == Modified {
          Store(path, Some(existing.(stamp := now)), e);
        } else if existing.event == Modified && event == Deleted {
          Store(path, Some(existing.(event := Deleted, stamp := now)), e);
        } else {
          Store(path, Some(existing.(event := event, stamp := now, isDir := isDir, from := from)), e);
        }
      } else {
        var now := Now();
        Store(path, Some(Entry(event, target, now, isDir, from)), e);
      }
    }

    /** The change of the table, e being what arrived. */
    method Store(path: string, slot: Option<Entry>, ghost e: Entry)
      requires Valid() && slot == Merge(Find(pending, path), e)
      requires slot.Some? ==> Timely(coalesceMs, order, pending, sent, e.stamp) && e.stamp <= time(readings)
      modifies this`order, this`pending, this`hist, this`given
      ensures Valid() && given == old(given) + [(path, e.event)]
      ensures pending == Put(old(pending), path, slot) && order == PutKey(old(order), old(pending), path, slot)
    {
      hide Timely, Summaries, GoodMoves, Conserved;
      SummariesPut(pending, sent, windows, hist, given, path, e);
      ghost var at := if slot.Some? then e.stamp else time(readings);
      TimelyPut(coalesceMs, order, pending, sent, at, path, slot);
      TimelyLater(coalesceMs, PutKey(order, pending, path, slot), Put(pending, path, slot), sent, at, time(readings));
      hist := hist[path := History(hist, path) + [e.event]];
      given := given + [(path, e.event)];
      if slot.None? {
        order, pending := Without(order, path), pending - {path};
      } else if path in pending {
        pending := pending[path := slot.value];
      } else {
        order, pending := order + [path], pending[path := slot.value];
      }
    }

    /** inotify_coalesce_flush at time now: every slot that has been quiet for
        coalesceMs, or every slot if all are to go. */
    method Flush(now: nat, all: bool)
      requires var c := if all then 0 else coalesceMs;
               ValidAt(c) && Timely(c, order, pending, sent, now) && now <= time(readings)
      modifies this`order, this`pending, this`sent, this`windows, this`hist
      ensures var c := if all then 0 else coalesceMs;
              && ValidAt(c)
              && Settled(old(order), old(pending), old(sent), now, c, order, pending, sent)
    {
      ghost var c := if all then 0 else coalesceMs;
      var keys := order;
      ghost var p0, s0 := pending, sent;
      for i := 0 to |keys|
        invariant ValidAt(c) && Timely(c, order, pending, sent, now)
        invariant FlushedTo(keys, i, p0, s0, now, c, order, pending, sent)
      {
        FlushedMore(keys, i, p0, s0, now, c, order, pending, sent);
        if all || now - pending[keys[i]].stamp >= coalesceMs {
          Send(keys[i], now, c);
        }
      }
      FlushedSettles(keys, p0, s0, now, c, order, pending, sent);
    }

    /** Dispatching a slot and deleting it. */
    method Send(path: string, now: nat, ghost c: nat)
      requires ValidAt(c) && path in pending && pending[path].stamp + c <= now
      requires Timely(c, order, pending, sent, now) && now <= time(readings)
      modifies this`order, this`pending, this`sent, this`windows, this`hist
      ensures ValidAt(c) && Timely(c, order, pending, sent, now)
      ensures order == Without(old(order), path) && pending == old(pending) - {path}
      ensures sent == old(sent) + [SentFor(old(pending)[path], path, now)]
    {
      hide Timely, Summaries, GoodMoves, Conserved;
      var s := SentFor(pending[path], path, now);
      SummariesSend(pending, sent, windows, hist, given, path, s);
      TimelySend(c, order, pending, sent, now, path, s);
      TimelyLater(c, Without(order, path), pending - {path}, sent + [s], now, time(readings));
      windows, hist := windows + [History(hist, path)], hist[path := []];
      sent := sent + [s];
      order, pending := Without(order, path), pending - {path};
    }

    /** The flush of one round of the thread loop. */
    method FlushDue()
      requires Valid()
      modifies this`readings, this`order, this`pending, this`sent, this`windows, this`hist
      ensures Valid()
      ensures Settled(old(order), old(pending), old(sent), time(old(readings)), coalesceMs, order, pending, sent)
      ensures readings == old(readings) + 1 && NoneRipe(pending, time(old(readings)), coalesceMs)
    {
      var now := Now();
      ghost var order0, pending0, sent0 := order, pending, sent;
      Flush(now, false);
      SettledUnripe(order0, pending0, sent0, now, coalesceMs, order, pending, sent);
    }

    /** The flush at shutdown: what no dispatch stands for has cancelled out. */
    method Shutdown()
      requires Valid()
      modifies this`order, this`pending, this`sent, this`windows, this`hist
      ensures order == [] && pending == map[]
      ensures Settled(old(order), old(pending), old(sent), time(readings), 0, order, pending, sent)
      ensures Summaries(map[], sent, windows, hist, given)
    {
      ghost var order0, pending0, sent0 := order, pending, sent;
      Flush(time(readings), true);
      SettledUnripe(order0, pending0, sent0, time(readings), 0, order, pending, sent);
    }

    /** inotify_dispatch_event. */
    method Dispatch(call: Call)
      requires Valid() && Routed()
      modifies this`readings, this`order, this`pending, this`hist, this`given, this`direct, this`calls
      ensures Valid() && Routed() && calls == old(calls) + [call] && old(readings) <= readings
      ensures GoesToSlot(coalesceMs, call) ==>
              given == old(given) + [(FullPath(call.target, call.name.value), call.event)]
      ensures if GoesToSlot(coalesceMs, call) then
                Absorbed(call, time(old(readings)), old(order), old(pending), order, pending)
              else order == old(order) && pending == old(pending)
      ensures if coalesceMs > 0 && call.name.Some? then
                direct == old(direct) && given == old(given) + [(FullPath(call.target, call.name.value), call.event)]
              else
                direct == old(direct) + [call] && given == old(given) && order == old(order) && pending == old(pending)
    {
      assert direct + [] == direct && given + [] == given;
      calls := calls + [call];
      if coalesceMs > 0 && call.name.Some? {
        CoalesceAdd(FullPath(call.target, call.name.value), call.event, call.target, call.isDir, call.from);
      } else {
        direct := direct + [call];
      }
    }

    function Limit(): nat { if coalesceMs > 0 then coalesceMs else 100 }

    /** The expiry pass: entries as old as the limit leave, each with one DELETED. */
    method Expire()
      requires Sound()
      modifies this`readings, this`order, this`pending, this`hist, this`given, this`direct, this`calls,
               this`moves, this`causes
      ensures Sound()
      ensures var now := time(old(readings));
              && moves == Fresh(old(moves), now, Limit())
              && causes == old(causes) + Expiries(Stale(old(moves), now, Limit()))
              && calls == old(calls) + Deletions(Stale(old(moves), now, Limit()))
      ensures var now, limit := time(old(readings)), if coalesceMs > 0 then coalesceMs else 100;
              && moves == Kept(old(moves), (m: Move) => now - m.stamp < limit)
              && calls == old(calls) +
                   DeletedCalls(Kept(old(moves), (m: Move) => now - m.stamp >= limit && m.target.wants(Deleted)))
    {
      hide Timely, Summaries, GoodMoves, Conserved, Absorbed, ToSlots, AtOnce, Ordered;
      ghost var m0, x0 := moves, causes;
      var now := Now();
      var i: nat := 0;
      ghost var k := 0;
      ExpiredEnd(m0, 0, now, Limit(), x0, i, moves, causes);
      while i < |moves|
        invariant Sound() && k <= |m0| && (k == |m0| <==> i == |moves|)
        invariant ExpiredTo(m0, k, now, Limit(), x0, i, moves, causes)
        decreases |m0| - k
      {
        i := ExpireStep(i, now, m0, k, x0);
        k := k + 1;
        ExpiredEnd(m0, k, now, Limit(), x0, i, moves, causes);
      }
      ExpiredEnd(m0, k, now, Limit(), x0, i, moves, causes);
      ExpiriesCalls(x0, Stale(m0, now, Limit()));
      FreshTold(m0, now, Limit());
    }

    /** The body of its loop. */
    method ExpireStep(i: nat, now: nat, ghost m0: seq<Move>, ghost k: nat, ghost x0: seq<Cause>) returns (next: nat)
      requires Sound() && i < |moves| && k < |m0| && ExpiredTo(m0, k, now, Limit(), x0, i, moves, causes)
      modifies this`readings, this`order, this`pending, this`hist, this`given, this`direct, this`calls,
               this`moves, this`causes
      ensures Sound() && ExpiredTo(m0, k + 1, now, Limit(), x0, next, moves, causes)
    {
      hide Timely, Summaries, GoodMoves, Conserved, Absorbed, ToSlots, AtOnce, Ordered;
      ExpiredMore(m0, k, now, Limit(), x0, i, moves, causes);
      if now - moves[i].stamp >= Limit() {
        ExpireOne(i);
        next := i;
      } else {
        next := i + 1;
      }
    }

    /** DELETED for the entry at place i, which is then deleted. The path that is
        handed on is the one buffered. */
    method ExpireOne(i: nat)
      requires Sound() && i < |moves|
      modifies this`readings, this`order, this`pending, this`hist, this`given, this`direct, this`calls,
               this`moves, this`causes
      ensures Sound() && moves == RemoveAt(old(moves), i) && causes == old(causes) + [Expiry(old(moves)[i])]
      ensures calls == old(calls) + Deletion(old(moves)[i])
      ensures var m := old(moves)[i];
              calls == old(calls) + if !m.target.wants(Deleted) then [] else
                [Call(m.target, Deleted, Some(BaseName(m.path)), m.isDir, None)]
      ensures coalesceMs > 0 && old(moves)[i].target.wants(Deleted) ==>
              given == old(given) + [(old(moves)[i].path, Deleted)]
    {
      hide Timely, Summaries, GoodMoves, Conserved, Absorbed, ToSlots, AtOnce, Ordered;
      var m := moves[i];
      NamedAt(moves, time(readings), i);
      CausedMore(calls, causes, Expiry(m));
      assert calls + [] == calls;
      if m.target.wants(Deleted) {
        Dispatch(Call(m.target, Deleted, Some(BaseName(m.path)), m.isDir, None));
      }
      DropMove(i, Expiry(m));
    }

    /** Deletes the entry at place i, for that cause. */
    method DropMove(i: nat, ghost c: Cause)
      requires Valid() && i < |moves| && ConsumedBy(c) + ExpiredBy(c) == [moves[i]]
      modifies this`moves, this`causes
      ensures Valid() && moves == RemoveAt(old(moves), i) && causes == old(causes) + [c]
    {
      hide Timely, Summaries, GoodMoves, Conserved, ConsumedBy, ExpiredBy;
      ConservedDrop(buffered, moves, causes, i, c);
      GoodDrop(moves, i, time(readings));
      causes, moves := causes + [c], RemoveAt(moves, i);
    }

    /** The body of the event loop. */
    method Handle(raw: Raw)
      requires Sound() && PlainName(raw) && (Buffers(raw) ==> IndexOfCookie(moves, raw.cookie) == |moves|)
      modifies this`readings, this`order, this`pending, this`hist, this`given, this`direct, this`calls,
               this`moves, this`buffered, this`causes
      ensures Sound()
      ensures raw.From? ==> FromHandled(raw, time(old(readings)), old(moves), old(buffered), moves, buffered)
      ensures raw.From? ==> calls == old(calls) && causes == old(causes)
      ensures raw.To? ==> ToHandled(raw, old(moves), old(causes), moves, causes)
      ensures raw.Plain? ==> moves == old(moves) && causes == old(causes) + [Passed(raw)]
      ensures !raw.From? ==> buffered == old(buffered)
      ensures CallsOf(causes) == calls
      ensures raw.From? ==>
                && calls == old(calls)
                && moves == old(moves) + if raw.cookie == 0 || raw.name.None? then [] else
                  [Move(raw.cookie, FullPath(raw.target, raw.name.value), raw.target, raw.isDir, time(old(readings)))]
      ensures raw.To? && Asked(raw, Moved) && raw.name.Some? ==>
                && (forall m :: m in old(moves) && m.cookie == raw.cookie && raw.cookie != 0 ==>
                      calls == old(calls) + [Call(raw.target, Moved, raw.name, raw.isDir, Some(m.path))])
                && ((forall m :: m in old(moves) ==> m.cookie != raw.cookie || raw.cookie == 0) ==>
                      calls == old(calls) + [Call(raw.target, Moved, raw.name, raw.isDir, None)])
      ensures raw.To? && (!Asked(raw, Moved) || raw.name.None?) ==> calls == old(calls)
      ensures raw.To? ==> forall m :: m in moves <==> m in old(moves) && !(m.cookie == raw.cookie && raw.cookie != 0)
      ensures raw.Plain? ==>
                calls == if Asked(raw, raw.event)
                         then old(calls) + [Call(raw.target, raw.event, raw.name, raw.isDir, None)] else old(calls)
      ensures Changed(Event(raw), old(moves), old(calls), moves, calls)
    {
      hide *;
      match raw {
        case From(_, _, _, _) => HandleFrom(raw);
        case To(_, _, _, _) => HandleTo(raw);
        case Plain(_, _, _, _) => HandlePlain(raw);
      }
    }

    method HandleFrom(raw: Raw)
      requires Sound() && raw.From? && PlainName(raw) && (Buffers(raw) ==> IndexOfCookie(moves, raw.cookie) == |moves|)
      modifies this`readings, this`moves, this`buffered
      ensures Sound() && CallsOf(causes) == calls
      ensures FromHandled(raw, time(old(readings)), old(moves), old(buffered), moves, buffered)
      ensures moves == old(moves) + if raw.cookie == 0 || raw.name.None? then [] else
                [Move(raw.cookie, FullPath(raw.target, raw.name.value), raw.target, raw.isDir, time(old(readings)))]
      ensures Changed(Event(raw), old(moves), old(calls), moves, calls)
    {
      hide Timely, Summaries, GoodMoves, Conserved, Absorbed, ToSlots, AtOnce, Ordered;
      if raw.name.Some? && raw.cookie != 0 {
        FullPathName(raw.target, raw.name.value);
        var now := Now();
        Buffer(Move(raw.cookie, FullPath(raw.target, raw.name.value), raw.target, raw.isDir, now));
      }
    }

    method HandleTo(raw: Raw)
      requires Sound() && raw.To?
      modifies this`readings, this`order, this`pending, this`hist, this`given, this`direct, this`calls,
               this`moves, this`causes
      ensures Sound() && CallsOf(causes) == calls && ToHandled(raw, old(moves), old(causes), moves, causes)
      ensures Asked(raw, Moved) && raw.name.Some? ==>
                && (forall m :: m in old(moves) && m.cookie == raw.cookie && raw.cookie != 0 ==>
                      calls == old(calls) + [Call(raw.target, Moved, raw.name, raw.isDir, Some(m.path))])
                && ((forall m :: m in old(moves) ==> m.cookie != raw.cookie || raw.cookie == 0) ==>
                      calls == old(calls) + [Call(raw.target, Moved, raw.name, raw.isDir, None)])
      ensures !Asked(raw, Moved) || raw.name.None? ==> calls == old(calls)
      ensures forall m :: m in moves <==> m in old(moves) && !(m.cookie == raw.cookie && raw.cookie != 0)
      ensures Changed(Event(raw), old(moves), old(calls), moves, calls)
    {
      hide Timely, Summaries, GoodMoves, Conserved, Absorbed, ToSlots, AtOnce, Ordered;
      hide RemoveAt, FullPath, Changed;
      PendingTold(moves, raw.cookie, time(readings));
      var found := TakeMove(raw);
      CausedMore(calls, old(causes), Matched(raw, found));
      assert calls + [] == calls;
      if raw.name.Some? && raw.target.wants(Moved) && Passes(raw.target, raw.name) {
        var oldPath := if found.Some? then Some(found.value.path) else None;
        Dispatch(Call(raw.target, Moved, raw.name, raw.isDir, oldPath));
        ghost var c := Call(raw.target, Moved, raw.name, raw.isDir, oldPath);
        CallChanges(raw, old(moves), old(calls), moves, calls, Some(c));
      } else {
        CallChanges(raw, old(moves), old(calls), moves, calls, None);
      }
    }

    method HandlePlain(raw: Raw)
      requires Sound() && raw.Plain?
      modifies this`readings, this`order, this`pending, this`hist, this`given, this`direct, this`calls, this`causes
      ensures Sound() && CallsOf(causes) == calls && causes == old(causes) + [Passed(raw)]
      ensures calls == if Asked(raw, raw.event)
                       then old(calls) + [Call(raw.target, raw.event, raw.name, raw.isDir, None)] else old(calls)
      ensures Changed(Event(raw), old(moves), old(calls), moves, calls)
    {
      hide Timely, Summaries, GoodMoves, Conserved, Absorbed, ToSlots, AtOnce, Ordered;
      hide Changed;
      CausedMore(calls, causes, Passed(raw));
      assert calls + [] == calls;
      if raw.target.wants(raw.event) && Passes(raw.target, raw.name) {
        Dispatch(Call(raw.target, raw.event, raw.name, raw.isDir, None));
        CallChanges(raw, moves, old(calls), moves, calls, Some(Call(raw.target, raw.event, raw.name, raw.isDir, None)));
      } else {
        CallChanges(raw, moves, old(calls), moves, calls, None);
      }
      NoteCause(Passed(raw));
    }

    ghost method NoteCause(c: Cause)
      requires Valid() && ConsumedBy(c) == [] && ExpiredBy(c) == []
      modifies this`causes
      ensures Valid() && causes == old(causes) + [c]
    {
      causes := causes + [c];
    }

    method Buffer(m: Move)
      requires Valid() && m.stamp <= time(readings) && Named(m)
      requires IndexOfCookie(moves, m.cookie) == |moves|
      modifies this`moves, this`buffered
      ensures Valid() && moves == old(moves) + [m] && buffered == old(buffered) + [m]
    {
      GoodAdd(moves, time(readings), m);
      moves, buffered := moves + [m], buffered + [m];
    }

    /** Finds and deletes the FROM with the cookie of a TO. */
    method TakeMove(raw: Raw) returns (found: Option<Move>)
      requires Valid() && raw.To?
      modifies this`moves, this`causes
      ensures Valid() && ToHandled(raw, old(moves), old(causes), moves, causes)
      ensures found == PendingFor(old(moves), raw.cookie) && causes == old(causes) + [Matched(raw, found)]
    {
      hide Timely, Summaries, GoodMoves, Conserved;
      var k := if raw.cookie == 0 then |moves| else IndexOfCookie(moves, raw.cookie);
      if k == |moves| {
        NoteCause(Matched(raw, None));
        return None;
      }
      found := Some(moves[k]);
      DropMove(k, Matched(raw, found));
    }

    /** What the thread does before it reads: the expiry pass, and with coalescing on a
        flush of the slots that the pass has left. */
    method DoTick() returns (ghost order1: seq<string>, ghost pending1: Pending)
      requires Sound()
      modifies this`readings, this`order, this`pending, this`hist, this`given, this`direct, this`calls,
               this`moves, this`causes, this`sent, this`windows
      ensures Sound()
      ensures var now := time(old(readings));
              && moves == Fresh(old(moves), now, Limit())
              && causes == old(causes) + Expiries(Stale(old(moves), now, Limit()))
              && calls == old(calls) + Deletions(Stale(old(moves), now, Limit()))
      ensures var now, limit := time(old(readings)), if coalesceMs > 0 then coalesceMs else 100;
              && moves == Kept(old(moves), (m: Move) => now - m.stamp < limit)
              && calls == old(calls) +
                   DeletedCalls(Kept(old(moves), (m: Move) => now - m.stamp >= limit && m.target.wants(Deleted)))
      ensures coalesceMs > 0 ==> FlushedAt(order1, pending1, old(sent))
    {
      hide Timely, Summaries, GoodMoves, Conserved, Absorbed, ToSlots, AtOnce, Ordered;
      Expire();
      order1, pending1 := order, pending;
      FlushRound();
    }

    /** The last reading of the clock was that of a flush, which started from these. */
    ghost predicate FlushedAt(order1: seq<string>, pending1: Pending, sent1: seq<Sent>)
      reads this
    {
      && readings > 0 && Settled(order1, pending1, sent1, time(readings - 1), coalesceMs, order, pending, sent)
      && NoneRipe(pending, time(readings - 1), coalesceMs)
    }

    method FlushRound()
      requires Sound()
      modifies this`readings, this`order, this`pending, this`sent, this`windows, this`hist
      ensures Sound() && (coalesceMs > 0 ==> FlushedAt(old(order), old(pending), old(sent)))
    {
      hide Timely, Summaries, GoodMoves, Conserved, Absorbed, ToSlots, AtOnce, Ordered;
      if coalesceMs > 0 { FlushDue(); }
    }

    /** The loop of inotify_thread_func, over any sequence of rounds and records in
        which no FROM reuses a cookie. */
    method Run(steps: seq<Step>)
      requires Sound() && buffered == [] && causes == [] && CookiesOnce(FromsOf(steps))
      requires forall k :: 0 <= k < |steps| && steps[k].Event? ==> PlainName(steps[k].raw)
      modifies this
      ensures Sound() && LabelsOf(buffered) == FromsOf(steps) && RawsOf(causes) == OthersOf(steps)
      ensures Caused(calls, causes) && Conserved(buffered, moves, causes)
      ensures Traced(steps, |steps|, moves, calls)
    {
      hide Timely, Summaries, GoodMoves, Conserved, Absorbed, ToSlots, AtOnce, Ordered;
      hide Followed, Changed;
      FollowedStart(steps);
      TracedStart(steps, moves, calls);
      for k := 0 to |steps|
        invariant Sound() && Followed(steps, k, buffered, causes)
        invariant Traced(steps, k, moves, calls)
      {
        if steps[k].Event? && Buffers(steps[k].raw) { CookieIsNew(steps, k, buffered, moves, causes); }
        ghost var b0, x0, m0, c0 := buffered, causes, moves, calls;
        Do(steps[k]);
        TracedMore(steps, k, m0, c0, moves, calls);
        FollowedMore(steps, k, b0, x0, buffered, causes);
      }
      FollowedEnd(steps, buffered, causes);
    }

    method Do(step: Step)
      requires Sound() && (step.Event? ==> PlainName(step.raw))
      requires step.Event? && Buffers(step.raw) ==> IndexOfCookie(moves, step.raw.cookie) == |moves|
      modifies this
      ensures Sound() && LabelsOf(buffered) == LabelsOf(old(buffered)) + LabelOf(step)
      ensures RawsOf(causes) == RawsOf(old(causes)) + OtherOf(step)
      ensures Changed(step, old(moves), old(calls), moves, calls)
    {
      hide Timely, Summaries, GoodMoves, Conserved, Absorbed, ToSlots, AtOnce, Ordered;
      hide Changed, Fresh, Stale, FromHandled, ToHandled, Kept;
      ghost var b0, x0, m0 := buffered, causes, moves;
      match step {
        case Tick =>
          ghost var now := time(readings);
          ghost var _, _ := DoTick();
          TickNoted(b0, x0, Stale(m0, now, Limit()));
          TickChanges(m0, old(calls), now, Limit(), moves, calls);
        case Event(raw) =>
          ghost var now := time(readings);
          Handle(raw);
          EventNoted(raw, now, m0, b0, x0, moves, buffered, causes);
      }
    }
  }

  /** In every reachable state, for every path whose events so far are a possible
      history: a dispatch tells the net effect of its window exactly when the path was
      not present at the window's start and created again in it. */
  lemma RunTellsNet(t: Pipeline, p: string, before: bool, i: nat)
    requires t.Valid() && Legal(before, Given(t.given, p)) && i < |t.sent| && t.sent[i].path == p
    ensures |t.windows| == |t.sent|
    ensures var start := Exists(before, Dispatched(t.sent[..i], t.windows[..i], p));
            Some(t.sent[i].event) == Net(start, t.windows[i]) <==> !Recreated(start, t.windows[i])
  {
    assert SummaryFor(t.pending, t.sent, t.windows, t.hist, t.given, p);
    LegalSplit(before, Dispatched(t.sent, t.windows, p), History(t.hist, p));
    DispatchIsNetIff(t.sent, t.windows, p, before, i);
  }

  /** In every reachable state before shutdown, at most L/c + 1 dispatches for one
      path fall into an interval of length L. */
  lemma RunIsDebounced(t: Pipeline, p: string, lo: nat, length: nat)
    requires t.Valid() && t.coalesceMs > 0
    ensures CountIn(t.sent, p, lo, lo + length) <= length / t.coalesceMs + 1
  {
    RateBound(t.coalesceMs, t.sent, p, lo, length);
  }
}
