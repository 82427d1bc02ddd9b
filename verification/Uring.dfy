/** The ring protocol of src/backend/backend_uring.c: one read at a time into one
    shared buffer, through two rings with wrapping 32-bit indices. The kernel is an
    adversary that takes any of its steps between any two of the program's. */
module Uring {
  import opened Bits

  const WORD: nat := 0x1_0000_0000

  type u32 = x: int | 0 <= x < WORD

  /** uint32_t subtraction and increment. */
  function Minus(a: u32, b: u32): u32 { if a >= b then a - b else a - b + WORD }

  function Next(x: u32): u32 { if x == WORD - 1 then 0 else x + 1 }

  /** A read of the inotify descriptor into the buffer, with its tag. */
  datatype Sqe = Blank | Read(tag: nat)
  datatype Cqe = Cqe(tag: nat, res: int)

  const READ_TAG: nat := 1

  /** What a read puts into the buffer. */
  type Data = seq<int>

  /** What the kernel may do at any time: write into the buffer of a read it has taken,
      and complete such a read. Steps it cannot take do nothing. */
  datatype KernelStep = Write(data: Data) | Complete(res: int, last: Data)

  /** The kernel takes a queued request only in a call of io_uring_enter, and not in
      one that is interrupted or fails. */
  datatype Enter = Entered | EnterInterrupted | EnterFailed
  datatype Poll = Ready | Timeout | PollInterrupted | PollFailed

  /** One round of the loop as the environment plays it: kernel steps in each gap
      between accesses to the rings, and the results of the two system calls. */
  datatype Round = Round(k0: seq<KernelStep>, k1: seq<KernelStep>, k2: seq<KernelStep>, enter: Enter,
                         k3: seq<KernelStep>, poll: Poll, k4: seq<KernelStep>, k5: seq<KernelStep>, k6: seq<KernelStep>)

  /** uint32_t subtraction wraps. */
  lemma MinusWraps(a: u32, b: u32)
    ensures Minus(a, b) == (a - b) % 0x1_0000_0000 && Next(a) == (a + 1) % 0x1_0000_0000
  {
  }

  // ---------- a read, as the program will learn of it ----------

  /** Place of the first completion among kernel steps. */
  function First(ks: seq<KernelStep>): (i: nat)
    ensures i <= |ks| && (i < |ks| ==> ks[i].Complete?)
    ensures forall j :: 0 <= j < i ==> !ks[j].Complete?
  {
    if ks == [] || ks[0].Complete? then 0 else 1 + First(ks[1..])
  }

  predicate Arrives(ks: seq<KernelStep>) { exists k :: k in ks && k.Complete? }

  lemma FirstArrives(ks: seq<KernelStep>)
    ensures Arrives(ks) <==> First(ks) < |ks|
  {
    if First(ks) < |ks| { assert ks[First(ks)] in ks; }
  }

  /** What a completion puts before the program. */
  function Got(k: KernelStep): seq<Data>
    requires k.Complete?
  {
    if k.res > 0 then [k.last] else []
  }

  /** No read is outstanding; or it is queued and stays so, in the kernel, or completed with this much data. */
  datatype Status = Idle | Stuck | Out | Back(got: seq<Data>)

  /** Kernel steps complete a read that is in the kernel, and nothing else. */
  function Through(ks: seq<KernelStep>, s: Status): Status {
    if s.Out? && First(ks) < |ks| then Back(Got(ks[First(ks)])) else s
  }

  /** A round: the read it starts if there is none, and what it parses. */
  function Submitted(r: Round, s: Status): Status {
    var t := Through(r.k0, s);
    Through(r.k3, if !t.Idle? then t else if r.enter == Entered then Out else Stuck)
  }

  function Drained(k4: seq<KernelStep>, k5: seq<KernelStep>, s: Status): (Status, seq<Data>) {
    var t := Through(k4, s);
    if t.Back? then (Idle, t.got) else (Through(k5, t), [])
  }

  /** The status, and what has been parsed, once more has been. */
  function After(r: (Status, seq<Data>), parsed: seq<Data>): (Status, seq<Data>) { (r.0, parsed + r.1) }

  function RoundOf(r: Round, s: Status): (Status, seq<Data>) {
    if r.poll == Ready then Drained(r.k4, r.k5, Submitted(r, s)) else (Submitted(r, s), [])
  }

  /** A round ends the loop when one of its system calls fails. */
  predicate Fails(r: Round, s: Status) { (s.Idle? && r.enter == EnterFailed) || r.poll == PollFailed }

  function RunOf(rs: seq<Round>, s: Status): (Status, seq<Data>) {
    if rs == [] then (s, [])
    else
      var before := RunOf(rs[..|rs| - 1], s);
      var last := RoundOf(rs[|rs| - 1], before.0);
      (last.0, before.1 + last.1)
  }

  lemma RunNone(rs: seq<Round>, s: Status, parsed: seq<Data>)
    ensures After(RunOf(rs[..0], s), parsed) == (s, parsed)
  {
    assert rs[..0] == [] && parsed + [] == parsed;
  }

  lemma RunMore(rs: seq<Round>, i: nat, s: Status, parsed: seq<Data>)
    requires i < |rs|
    ensures var t := After(RunOf(rs[..i], s), parsed);
            After(RunOf(rs[..i + 1], s), parsed) == After(RoundOf(rs[i], t.0), t.1)
  {
    assert rs[..i + 1][..i] == rs[..i];
    var before := RunOf(rs[..i], s);
    assert parsed + (before.1 + RoundOf(rs[i], before.0).1) == (parsed + before.1) + RoundOf(rs[i], before.0).1;
  }

  /** The read is submitted, completes, and is polled for. */
  predicate Smooth(r: Round) { r.enter == Entered && r.poll == Ready && Arrives(r.k3) }

  /** All that the first completions of the rounds bring. */
  function Brought(rs: seq<Round>): seq<Data>
    requires forall i :: 0 <= i < |rs| ==> Arrives(rs[i].k3)
  {
    if rs == [] then []
    else
      var k3 := rs[|rs| - 1].k3;
      FirstArrives(k3);
      Brought(rs[..|rs| - 1]) + Got(k3[First(k3)])
  }

  /** From rest, smooth rounds parse everything their reads bring, in order, and end at rest. */
  lemma {:induction false} SmoothRun(rs: seq<Round>)
    requires forall i :: 0 <= i < |rs| ==> Smooth(rs[i])
    ensures forall i :: 0 <= i < |rs| ==> Arrives(rs[i].k3)
    ensures RunOf(rs, Idle) == (Idle, Brought(rs))
  {
    if rs != [] {
      SmoothRun(rs[..|rs| - 1]);
      var r := rs[|rs| - 1];
      assert Smooth(r);
      FirstArrives(r.k3);
      assert Submitted(r, Idle) == Back(Got(r.k3[First(r.k3)]));
    }
  }

  /** A completed read waits for the first round whose poll reports it, and is parsed there. */
  lemma {:induction false} BackRun(rs: seq<Round>, got: seq<Data>)
    ensures if exists i :: 0 <= i < |rs| && rs[i].poll.Ready? then got <= RunOf(rs, Back(got)).1
            else RunOf(rs, Back(got)) == (Back(got), [])
  {
    if rs != [] {
      var short, last := rs[..|rs| - 1], rs[|rs| - 1];
      BackRun(short, got);
      if exists i :: 0 <= i < |rs| && rs[i].poll.Ready? {
        if i :| 0 <= i < |short| && short[i].poll.Ready? {
          assert rs[i].poll.Ready?;
        } else {
          assert last.poll.Ready?;
          assert RoundOf(last, Back(got)) == (Idle, got);
        }
      } else {
        assert forall i :: 0 <= i < |short| ==> short[i] == rs[i];
        assert last == rs[|rs| - 1] && !last.poll.Ready?;
      }
    }
  }

  lemma RunTold(rs: seq<Round>, s: Status)
    ensures s.Back? && (exists i :: 0 <= i < |rs| && rs[i].poll.Ready?) ==> s.got <= RunOf(rs, s).1
    ensures s.Idle? && (forall i :: 0 <= i < |rs| ==> Smooth(rs[i])) ==>
              (forall i :: 0 <= i < |rs| ==> Arrives(rs[i].k3)) && RunOf(rs, s) == (Idle, Brought(rs))
  {
    if s.Back? { BackRun(rs, s.got); }
    if s.Idle? && forall i :: 0 <= i < |rs| ==> Smooth(rs[i]) { SmoothRun(rs); }
  }

  lemma FailTold(rs: seq<Round>, i: nat, s: Status)
    requires i < |rs| && Fails(rs[i], RunOf(rs[..i], s).0)
    ensures rs[i].enter == EnterFailed || rs[i].poll == PollFailed
    ensures !(forall j :: 0 <= j < |rs| ==> Smooth(rs[j]))
  {
    if Smooth(rs[i]) { assert false; }
  }

  /** Nothing is read after a stranded read. */
  lemma {:induction false} StuckRun(rs: seq<Round>)
    ensures RunOf(rs, Stuck) == (Stuck, [])
  {
    if rs != [] {
      StuckRun(rs[..|rs| - 1]);
      assert RoundOf(rs[|rs| - 1], Stuck) == (Stuck, []);
      assert [] + [] == RunOf(rs, Stuck).1;
    }
  }

  lemma MinusNext(a: u32, b: u32)
    ensures Minus(a, b) == 0 <==> a == b
    ensures Minus(a, b) < WORD - 1 ==> Minus(Next(a), b) == Minus(a, b) + 1
    ensures Minus(a, b) > 0 ==> Minus(a, Next(b)) == Minus(a, b) - 1
  {
  }

  lemma {:induction false} WordDivides(k: nat) returns (q: nat)
    requires k <= 32
    ensures WORD == Pow2(k) * q
    decreases 32 - k
  {
    if k == 32 {
      assert Pow2(4) == 16;
      assert Pow2(8) == 16 * Pow2(4);
      assert Pow2(12) == 16 * Pow2(8);
      assert Pow2(16) == 16 * Pow2(12);
      assert Pow2(20) == 16 * Pow2(16);
      assert Pow2(24) == 16 * Pow2(20);
      assert Pow2(28) == 16 * Pow2(24);
      assert Pow2(32) == 16 * Pow2(28);
      q := 1;
    } else {
      var r := WordDivides(k + 1);
      q := 2 * r;
      assert Pow2(k + 1) == 2 * Pow2(k);
    }
  }

  /** Successive indices use successive slots of the ring, across the wrap of the
      index as well. */
  lemma SlotsFollow(x: u32, k: nat)
    requires k <= 32
    ensures var mask := Pow2(k) - 1;
            And(Next(x), mask) == if And(x, mask) == mask then 0 else And(x, mask) + 1
  {
    AndMask(x, k);
    AndMask(Next(x), k);
    var q := WordDivides(k);
    NextRemainder(x, Pow2(k), q);
  }

  lemma NextRemainder(x: u32, m: nat, q: nat)
    requires m > 0 && WORD == m * q
    ensures Next(x) % m == if x % m == m - 1 then 0 else x % m + 1
  {
    if x == WORD - 1 {
      assert q > 0;
      Distribute(m, q - 1, 1);
      DivModUnique(x, m, q - 1, m - 1);
      DivModUnique(0, m, 0, 0);
    } else {
      DivMod(x, m);
      if x % m == m - 1 {
        Distribute(m, x / m, 1);
        DivModUnique(x + 1, m, x / m + 1, 0);
      } else {
        DivModUnique(x + 1, m, x / m, x % m + 1);
      }
    }
  }

  /** The rings, the buffer and the program's one flag. parsed lists what
      uring_process_inotify_events was given, delivered what the kernel put into the
      buffer with a positive result. */
  class Ring {
    const sqBits: nat
    const cqBits: nat
    var sqHead: u32
    var sqTail: u32
    var cqHead: u32
    var cqTail: u32
    const sqArray: array<nat>
    const sqes: array<Sqe>
    const cqes: array<Cqe>
    var readBuf: Data
    var readPending: bool
    var parsed: seq<Data>
    var taken: seq<nat>
    ghost var delivered: seq<Data>

    ghost predicate Shape()
      reads this
    {
      && sqBits <= 31 && cqBits <= 31
      && sqArray.Length == sqes.Length == Pow2(sqBits) && cqes.Length == Pow2(cqBits)
    }

    function Queued(): nat
      reads this
    {
      Minus(sqTail, sqHead)
    }

    function Completed(): nat
      reads this
    {
      Minus(cqTail, cqHead)
    }

    /** The completion the program has not consumed. */
    function Front(): Cqe
      reads this, cqes
      requires Shape()
    {
      cqes[cqHead % Pow2(cqBits)]
    }

    /** n reads are queued, in the kernel, or completed and not consumed; what was
        delivered and not parsed is in the buffer. */
    ghost predicate Holds(n: nat)
      reads this, sqArray, sqes, cqes
    {
      && Shape() && n <= 1 && Queued() + |taken| + Completed() == n
      && (Queued() == 1 ==> SlotIsRead(sqHead))
      && (forall i :: 0 <= i < |taken| ==> taken[i] == READ_TAG)
      && (Completed() == 1 ==> Front().tag == READ_TAG)
      && delivered == parsed + if Completed() == 1 && Front().res > 0 then [readBuf] else []
    }

    predicate SlotIsRead(head: u32)
      reads this, sqArray, sqes
      requires Shape()
    {
      sqArray[head % Pow2(sqBits)] < sqes.Length && sqes[sqArray[head % Pow2(sqBits)]] == Read(READ_TAG)
    }

    /** Where the outstanding read is. */
    ghost function Status(): Status
      reads this, cqes
      requires Shape()
    {
      if !readPending then Idle
      else if Queued() == 1 then Stuck
      else if taken != [] then Out
      else Back(if Front().res > 0 then [readBuf] else [])
    }

    /** The completion k has happened and has not been consumed. */
    ghost predicate Finished(k: KernelStep)
      reads this, cqes
      requires Shape() && k.Complete?
    {
      taken == [] && Completed() == 1 && Front() == Cqe(READ_TAG, k.res) && (k.res > 0 ==> readBuf == k.last)
    }

    constructor (sqBits: nat, cqBits: nat, head: u32, cq: u32)
      requires sqBits <= 31 && cqBits <= 31
      ensures Holds(0) && !readPending && parsed == [] && delivered == []
      ensures fresh(sqArray) && fresh(sqes) && fresh(cqes)
    {
      this.sqBits, this.cqBits := sqBits, cqBits;
      sqHead, sqTail, cqHead, cqTail := head, head, cq, cq;
      sqArray := new nat[Pow2(sqBits)](_ => 0);
      sqes := new Sqe[Pow2(sqBits)](_ => Blank);
      cqes := new Cqe[Pow2(cqBits)](_ => Cqe(0, 0));
      readBuf, readPending, parsed, taken, delivered := [], false, [], [], [];
    }

    // ---------- the kernel ----------

    /** One kernel step. Whatever it is, it moves no read out of the program's sight
        and leaves the program's own fields alone. */
    method KernelDoes(k: KernelStep, ghost n: nat)
      requires Holds(n)
      modifies this`cqTail, this`taken, this`readBuf, this`delivered, cqes
      ensures Holds(n)
      ensures old(taken) == [] ==> Still(old(cqTail), old(taken), old(readBuf), old(delivered))
      ensures old(Completed()) == 1 ==> Front() == old(Front())
      ensures |old(taken)| == 1 ==> if k.Complete? then Finished(k) else taken == old(taken) && cqTail == old(cqTail)
    {
      match k {
        case Write(data) =>
          if taken != [] { readBuf := data; }
        case Complete(res, last) =>
          if taken != [] && Minus(cqTail, cqHead) < Pow2(cqBits) { KernelCompletes(res, last, n); }
      }
    }

    /** The kernel has done nothing. */
    ghost predicate Still(tail: u32, t: seq<nat>, buf: Data, d: seq<Data>)
      reads this
    {
      cqTail == tail && taken == t && readBuf == buf && delivered == d
    }

    /** What io_uring_enter does with the one request that is queued. */
    method KernelTakes()
      requires Holds(1) && Queued() == 1
      modifies this`sqHead, this`taken
      ensures Holds(1) && Queued() == 0 && |taken| == 1
    {
      MinusNext(sqTail, sqHead);
      AndMask(sqHead, sqBits);
      var sqe := sqes[sqArray[And(sqHead, Pow2(sqBits) - 1)]];
      taken := taken + [sqe.tag];
      sqHead := Next(sqHead);
    }

    method KernelCompletes(res: int, last: Data, ghost n: nat)
      requires Holds(n) && taken != []
      modifies this`cqTail, this`taken, this`readBuf, this`delivered, cqes
      ensures Holds(n) && Finished(Complete(res, last))
    {
      MinusNext(cqTail, cqHead);
      AndMask(cqTail, cqBits);
      cqes[And(cqTail, Pow2(cqBits) - 1)] := Cqe(taken[0], res);
      taken := taken[1..];
      cqTail := Next(cqTail);
      if res > 0 {
        readBuf := last;
        delivered := delivered + [last];
      }
    }

    method KernelRuns(ks: seq<KernelStep>, ghost n: nat)
      requires Holds(n)
      modifies this`cqTail, this`taken, this`readBuf, this`delivered, cqes
      ensures Holds(n)
      ensures old(taken) == [] ==> Still(old(cqTail), old(taken), old(readBuf), old(delivered))
      ensures old(Completed()) == 1 ==> Front() == old(Front())
      ensures |old(taken)| == 1 ==>
                if First(ks) < |ks| then Finished(ks[First(ks)]) else taken == old(taken) && cqTail == old(cqTail)
      ensures (n == 1 <==> readPending) ==> Status() == Through(ks, old(Status()))
    {
      for i := 0 to |ks|
        invariant Holds(n)
        invariant |old(taken)| == 1 ==>
                    if First(ks) < i then Finished(ks[First(ks)]) else taken == old(taken) && cqTail == old(cqTail)
        invariant old(taken) == [] ==> Still(old(cqTail), old(taken), old(readBuf), old(delivered))
        invariant old(Completed()) == 1 ==> Front() == old(Front())
      {
        KernelDoes(ks[i], n);
      }
    }

    // ---------- the program ----------

    /** uring_submit_read: with nothing outstanding the ring is never full, and the
        request lands in a slot of the ring. */
    method SubmitRead(k1: seq<KernelStep>, k2: seq<KernelStep>) returns (ok: bool)
      requires Holds(0)
      modifies this`sqTail, this`cqTail, this`taken, this`readBuf, this`delivered, sqArray, sqes, cqes
      ensures ok && Holds(1) && Queued() == 1 && parsed == old(parsed) && delivered == old(delivered)
    {
      var tail := sqTail;
      var head := sqHead;
      KernelRuns(k1, 0);
      if Minus(tail, head) >= Pow2(sqBits) { return false; }
      AndMask(tail, sqBits);
      var idx := And(tail, Pow2(sqBits) - 1);
      sqes[idx] := Blank;
      sqes[idx] := Read(READ_TAG);
      sqArray[idx] := idx;
      KernelRuns(k2, 0);
      MinusNext(tail, head);
      sqTail := Next(tail);
      ok := true;
    }

    /** The completion loop: it consumes what was completed when the tail was loaded,
        one round each, and parses the buffer only while no read can write to it. */
    method Drain(k4: seq<KernelStep>, k5: seq<KernelStep>, k6: seq<KernelStep>) returns (ghost rounds: nat)
      requires Holds(if readPending then 1 else 0)
      modifies this`cqHead, this`cqTail, this`taken, this`readBuf, this`delivered,
               this`readPending, this`parsed, cqes
      ensures Holds(if readPending then 1 else 0)
      ensures rounds == Minus(cqHead, old(cqHead))
      ensures old(Completed()) == 1 ==> !readPending && delivered == parsed == old(delivered)
      ensures |old(taken)| == 1 && Arrives(k4) ==>
                !readPending && delivered == parsed == old(delivered) + Got(k4[First(k4)])
      ensures old(Completed()) == 0 && !Arrives(k4) ==> readPending == old(readPending) && parsed == old(parsed)
      ensures (Status(), parsed) == After(Drained(k4, k5, old(Status())), old(parsed))
    {
      FirstArrives(k4);
      assert parsed + [] == parsed;
      ghost var n := if readPending then 1 else 0;
      ghost var was := Status();
      var head := cqHead;
      KernelRuns(k4, n);
      var tail := cqTail;
      ghost var t := Through(k4, was);
      KernelRuns(k5, n);
      rounds := 0;
      MinusNext(tail, head);
      while head != tail
        invariant cqHead == old(cqHead) && Minus(tail, head) + rounds == Minus(tail, cqHead) <= 1
        invariant rounds == 0 ==> Holds(n) && head == cqHead && n == (if readPending then 1 else 0)
        invariant rounds == 0 ==> parsed == old(parsed) && Status() == Through(k5, t)
        invariant head != tail ==> rounds == 0 && cqTail == tail
        invariant t.Back? <==> rounds == 1 || head != tail
        invariant rounds == 1 ==> Consumed(tail) && parsed == old(parsed) + t.got
        decreases Minus(tail, head)
      {
        rounds := rounds + 1;
        Consume(head, k6);
        head := Next(head);
        MinusNext(tail, cqHead);
      }
      MinusNext(tail, head);
      cqHead := head;
    }

    /** The last completion has been used, and only cq_head is to be advanced. */
    ghost predicate Consumed(tail: u32)
      reads this
    {
      && Shape() && tail == cqTail == Next(cqHead) && Queued() == 0 && taken == []
      && delivered == parsed && !readPending
    }

    /** The body of the loop. */
    method Consume(head: u32, k6: seq<KernelStep>)
      requires Holds(1) && Completed() == 1 && head == cqHead && readPending
      modifies this`cqTail, this`taken, this`readBuf, this`delivered, this`readPending, this`parsed, cqes
      ensures Consumed(cqTail) && delivered == old(delivered) && cqTail == old(cqTail)
      ensures parsed == old(parsed) + old(Status()).got
    {
      AndMask(head, cqBits);
      var cqe := cqes[And(head, Pow2(cqBits) - 1)];
      KernelRuns(k6, 1);
      MinusNext(cqTail, cqHead);
      if cqe.tag == READ_TAG {
        readPending := false;
        if cqe.res > 0 { parsed := parsed + [readBuf]; }
      }
    }

    /** A read is pending that the kernel has not taken. */
    ghost predicate Stranded()
      reads this
    {
      readPending && Queued() == 1
    }

    /** uring_thread_func's loop, over any behaviour of the kernel and the two calls: at each top of the loop one read
        is outstanding if read_pending and none otherwise, and everything the kernel delivered is parsed, once and in
        order, but for a completion not yet consumed. Where the read is, and what has been parsed, is what the rounds
        make of it; the loop is left just when one of their calls fails. */
    method ThreadLoop(rounds: seq<Round>) returns (stopped: bool)
      requires Holds(if readPending then 1 else 0)
      modifies this`sqHead, this`sqTail, this`cqHead, this`cqTail, this`taken, this`readBuf, this`delivered,
               this`readPending, this`parsed, sqArray, sqes, cqes
      ensures !stopped ==> Holds(if readPending then 1 else 0)
      ensures !stopped && !readPending ==> parsed == delivered
      ensures stopped <==> exists i :: 0 <= i < |rounds| && Fails(rounds[i], RunOf(rounds[..i], old(Status())).0)
      ensures !stopped ==> (Status(), parsed) == After(RunOf(rounds, old(Status())), old(parsed))
      ensures stopped ==>
                exists i :: 0 <= i < |rounds| && (rounds[i].enter == EnterFailed || rounds[i].poll == PollFailed)
      ensures old(Completed()) == 1 && !stopped && (exists i :: 0 <= i < |rounds| && rounds[i].poll.Ready?) ==>
                old(delivered) <= parsed
      ensures !old(readPending) && (forall i :: 0 <= i < |rounds| ==> Smooth(rounds[i])) ==>
                (forall i :: 0 <= i < |rounds| ==> Arrives(rounds[i].k3)) &&
                !stopped && !readPending && parsed == delivered == old(parsed) + Brought(rounds)
      ensures old(Stranded()) ==> Stranded() && parsed == old(parsed)
    {
      hide RunOf, RoundOf, Fails;
      stopped := false;
      RunNone(rounds, Status(), parsed);
      for i := 0 to |rounds|
        invariant Holds(if readPending then 1 else 0)
        invariant (Status(), parsed) == After(RunOf(rounds[..i], old(Status())), old(parsed))
        invariant forall j :: 0 <= j < i ==> !Fails(rounds[j], RunOf(rounds[..j], old(Status())).0)
        invariant old(Stranded()) ==> Stranded() && parsed == old(parsed)
      {
        RunMore(rounds, i, old(Status()), old(parsed));
        stopped := OneRound(rounds[i]);
        if stopped {
          FailTold(rounds, i, old(Status()));
          return;
        }
      }
      assert rounds[..|rounds|] == rounds;
      RunTold(rounds, old(Status()));
    }

    /** One round. It strands its read exactly if io_uring_enter is interrupted. A read completed by the time the tail
        is loaded is consumed: what it brought is parsed and the next round starts another. */
    method OneRound(r: Round) returns (stopped: bool)
      requires Holds(if readPending then 1 else 0)
      modifies this`sqHead, this`sqTail, this`cqHead, this`cqTail, this`taken, this`readBuf, this`delivered,
               this`readPending, this`parsed, sqArray, sqes, cqes
      ensures stopped <==> (!old(readPending) && r.enter == EnterFailed) || r.poll == PollFailed
      ensures stopped <==> Fails(r, old(Status()))
      ensures !stopped ==> Holds(if readPending then 1 else 0)
      ensures old(Stranded()) ==> Stranded() && delivered == old(delivered) && parsed == old(parsed)
      ensures !stopped ==> (Stranded() <==> old(Stranded()) || (!old(readPending) && r.enter == EnterInterrupted))
      ensures !stopped && r.poll.Ready? && old(Completed()) == 1 ==>
                !readPending && parsed == delivered == old(delivered)
      ensures !stopped && r.poll.Ready? && |old(taken)| == 1 && Arrives(r.k0) ==>
                !readPending && parsed == delivered == old(delivered) + Got(r.k0[First(r.k0)])
      ensures !stopped && r.poll.Ready? && |old(taken)| == 1 && !Arrives(r.k0) && Arrives(r.k3) ==>
                !readPending && parsed == delivered == old(delivered) + Got(r.k3[First(r.k3)])
      ensures !stopped && r.poll.Ready? && !old(readPending) && r.enter == Entered && Arrives(r.k3) ==>
                !readPending && parsed == delivered == old(delivered) + Got(r.k3[First(r.k3)])
      ensures stopped || !r.poll.Ready? ==> parsed == old(parsed)
      ensures !stopped ==> (Status(), parsed) == After(RoundOf(r, old(Status())), old(parsed))
    {
      FirstArrives(r.k0);
      FirstArrives(r.k3);
      assert parsed + [] == parsed;
      stopped := EnsureRead(r);
      if stopped { return; }
      match r.poll {
        case PollInterrupted => return false;
        case PollFailed => return true;
        case Timeout =>
        case Ready => ghost var n := Drain(r.k4, r.k5, r.k6);
      }
      stopped := false;
    }

    /** The top half of a round: a read is outstanding. */
    method EnsureRead(r: Round) returns (stopped: bool)
      requires Holds(if readPending then 1 else 0)
      modifies this`sqHead, this`sqTail, this`cqTail, this`taken, this`readBuf, this`delivered, this`readPending,
               sqArray, sqes, cqes
      ensures stopped <==> !old(readPending) && r.enter == EnterFailed
      ensures !stopped ==> readPending && Holds(1) && Status() == Submitted(r, old(Status()))
      ensures old(Stranded()) ==> delivered == old(delivered)
    {
      KernelRuns(r.k0, if readPending then 1 else 0);
      if !readPending {
        stopped := StartRead(r);
        if stopped { return; }
      }
      KernelRuns(r.k3, 1);
      stopped := false;
    }

    /** The submission at the top of a round. */
    method StartRead(r: Round) returns (stopped: bool)
      requires Holds(0) && !readPending
      modifies this`sqHead, this`sqTail, this`cqTail, this`taken, this`readBuf, this`delivered, this`readPending,
               sqArray, sqes, cqes
      ensures stopped <==> r.enter == EnterFailed
      ensures !stopped ==> readPending && Holds(1) && Status() == if r.enter == Entered then Out else Stuck
      ensures delivered == old(delivered)
    {
      var ok := SubmitRead(r.k1, r.k2);
      if !ok { return false; }
      if r.enter == EnterFailed { return true; }
      if r.enter == Entered { KernelTakes(); }
      readPending := true;
      stopped := false;
    }
  }
}
