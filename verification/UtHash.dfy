/** include/uthash.h: a table with two sets of links. Every handle sits in the
    application-order list (prev/next) and in one bucket chain (hhPrev/hhNext). */
module UtHash {
  import opened Tables
  import opened Bits

  const INITIAL_NUM_BUCKETS: nat := 32
  const INITIAL_NUM_BUCKETS_LOG2: nat := 5
  const BKT_CAPACITY_THRESH: nat := 10

  /** UT_hash_handle. The key and its hash value are fixed when the item is made. */
  class Handle {
    const key: string
    const hashv: nat
    var prev: Handle?
    var next: Handle?
    var hhPrev: Handle?
    var hhNext: Handle?

    constructor (key: string, hashv: nat)
      ensures this.key == key && this.hashv == hashv
    {
      this.key, this.hashv := key, hashv;
      prev, next, hhPrev, hhNext := null, null, null, null;
    }
  }

  datatype Bucket = Bucket(hhHead: Handle?, count: nat, expandMult: nat)

  // ---------- sequences of handles ----------

  function At(s: seq<Handle>, i: int): Handle? {
    if 0 <= i < |s| then s[i] else null
  }

  ghost function Elems(s: seq<Handle>): set<Handle> { set h | h in s }

  /** prev and next spell s. */
  ghost predicate AppLinked(s: seq<Handle>)
    reads Elems(s)`prev, Elems(s)`next
  {
    && (forall i {:trigger s[i].prev} :: 0 <= i < |s| ==> s[i].prev == At(s, i - 1))
    && (forall i {:trigger s[i].next} :: 0 <= i < |s| ==> s[i].next == At(s, i + 1))
  }

  /** hhPrev and hhNext spell s. */
  ghost predicate ChainLinked(s: seq<Handle>)
    reads Elems(s)`hhPrev, Elems(s)`hhNext
  {
    && (forall i {:trigger s[i].hhPrev} :: 0 <= i < |s| ==> s[i].hhPrev == At(s, i - 1))
    && (forall i {:trigger s[i].hhNext} :: 0 <= i < |s| ==> s[i].hhNext == At(s, i + 1))
  }

  lemma AtRemoved(s: seq<Handle>, k: nat, i: int)
    requires k < |s|
    ensures At(RemoveAt(s, k), i) == At(s, if i < k then i else i + 1)
  {
  }

  /** The links skip s[k]. */
  ghost predicate AppSkips(s: seq<Handle>, k: nat)
    reads Elems(s)`prev, Elems(s)`next
  {
    && (forall i {:trigger s[i].prev} :: 0 <= i < |s| && i != k ==>
          s[i].prev == At(s, if i == k + 1 then k - 1 else i - 1))
    && (forall i {:trigger s[i].next} :: 0 <= i < |s| && i != k ==>
          s[i].next == At(s, if i == k - 1 then k + 1 else i + 1))
  }

  ghost predicate ChainSkips(s: seq<Handle>, k: nat)
    reads Elems(s)`hhPrev, Elems(s)`hhNext
  {
    && (forall i {:trigger s[i].hhPrev} :: 0 <= i < |s| && i != k ==>
          s[i].hhPrev == At(s, if i == k + 1 then k - 1 else i - 1))
    && (forall i {:trigger s[i].hhNext} :: 0 <= i < |s| && i != k ==>
          s[i].hhNext == At(s, if i == k - 1 then k + 1 else i + 1))
  }

  lemma OrderNext(s: seq<Handle>, k: nat)
    requires AppLinked(s)
    ensures k < |s| ==> s[k].next == At(s, k + 1)
  {
  }

  lemma ChainWithout(s: seq<Handle>, k: nat)
    requires k < |s| && ChainSkips(s, k)
    ensures ChainLinked(RemoveAt(s, k))
  {
    var t := RemoveAt(s, k);
    forall i | 0 <= i < |t| ensures t[i].hhPrev == At(t, i - 1) && t[i].hhNext == At(t, i + 1) {
      AtRemoved(s, k, i - 1);
      AtRemoved(s, k, i + 1);
    }
  }

  /** The pointer surgery of HASH_DELETE_HH on the application-order list. */
  method UnlinkApp(head0: Handle, tail0: Handle, del: Handle, ghost s: seq<Handle>, ghost k: nat)
    returns (head: Handle?, tail: Handle?)
    requires k < |s| && s[k] == del && NoDup(s) && AppLinked(s)
    requires head0 == At(s, 0) && tail0 == At(s, |s| - 1)
    modifies Elems(s)`prev, Elems(s)`next
    ensures AppLinked(RemoveAt(s, k))
    ensures head == At(RemoveAt(s, k), 0) && tail == At(RemoveAt(s, k), |s| - 2)
  {
    head, tail := head0, tail0;
    assert s[k] in Elems(s);
    assert del.prev == At(s, k - 1) && del.next == At(s, k + 1);
    if del == tail { tail := del.prev; }
    if del.prev != null {
      assert s[k - 1] in Elems(s);
      del.prev.next := del.next;
    } else {
      head := del.next;
    }
    if del.next != null {
      assert s[k + 1] in Elems(s);
      del.next.prev := del.prev;
    }
    assert AppSkips(s, k);
  }

  /** HASH_DEL_IN_BKT. */
  method UnlinkChain(b0: Bucket, del: Handle, ghost s: seq<Handle>, ghost k: nat) returns (b: Bucket)
    requires k < |s| && s[k] == del && NoDup(s) && ChainLinked(s)
    requires b0.hhHead == At(s, 0) && b0.count == |s|
    modifies Elems(s)`hhPrev, Elems(s)`hhNext
    ensures ChainLinked(RemoveAt(s, k))
    ensures b == Bucket(At(RemoveAt(s, k), 0), |s| - 1, b0.expandMult)
  {
    assert s[k] in Elems(s);
    assert del.hhPrev == At(s, k - 1) && del.hhNext == At(s, k + 1);
    b := b0.(count := b0.count - 1);
    if b.hhHead == del { b := b.(hhHead := del.hhNext); }
    if del.hhPrev != null {
      assert s[k - 1] in Elems(s);
      del.hhPrev.hhNext := del.hhNext;
    }
    if del.hhNext != null {
      assert s[k + 1] in Elems(s);
      del.hhNext.hhPrev := del.hhPrev;
    }
    assert ChainSkips(s, k);
    ChainWithout(s, k);
  }

  /** HASH_APPEND_LIST. */
  method AppendApp(tail: Handle, add: Handle, ghost s: seq<Handle>)
    requires AppLinked(s) && NoDup(s) && |s| > 0 && tail == s[|s| - 1] && add !in s
    modifies Elems(s)`next, add`prev, add`next
    ensures AppLinked(s + [add])
  {
    assert s[|s| - 1] in Elems(s);
    add.next := null;
    add.prev := tail;
    tail.next := add;
  }

  /** The links of HASH_ADD_TO_BKT: push at the front of a chain. */
  method PushChain(b0: Bucket, add: Handle, ghost s: seq<Handle>) returns (b: Bucket)
    requires ChainLinked(s) && NoDup(s) && add !in s && b0.hhHead == At(s, 0) && b0.count == |s|
    modifies Elems(s)`hhPrev, add`hhPrev, add`hhNext
    ensures ChainLinked([add] + s)
    ensures b == Bucket(add, |s| + 1, b0.expandMult)
  {
    b := b0.(count := b0.count + 1);
    add.hhNext := b.hhHead;
    add.hhPrev := null;
    if b.hhHead != null {
      assert s[0] in Elems(s);
      b.hhHead.hhPrev := add;
    }
    b := b.(hhHead := add);
  }

  // ---------- how the chains partition the items ----------

  /** Every item is in the chain its hash value selects, and nowhere else. */
  ghost predicate Partition(order: seq<Handle>, chains: seq<seq<Handle>>) {
    && |chains| > 0
    && (forall b {:trigger chains[b]} :: 0 <= b < |chains| ==> NoDup(chains[b]))
    && (forall b, h :: 0 <= b < |chains| && h in chains[b] ==> h.hashv % |chains| == b && h in order)
    && (forall h :: h in order ==> h in chains[h.hashv % |chains|])
  }

  lemma PartitionAdd(order: seq<Handle>, chains: seq<seq<Handle>>, add: Handle)
    requires Partition(order, chains) && add !in order
    ensures var b := add.hashv % |chains|; Partition(order + [add], chains[b := [add] + chains[b]])
  {
    var b := add.hashv % |chains|;
    assert add !in chains[b];
  }

  lemma PartitionDelete(order: seq<Handle>, chains: seq<seq<Handle>>, k: nat, j: nat)
    requires Partition(order, chains) && NoDup(order) && k < |order|
    requires j < |chains[order[k].hashv % |chains|]| && chains[order[k].hashv % |chains|][j] == order[k]
    ensures var b := order[k].hashv % |chains|; Partition(RemoveAt(order, k), chains[b := RemoveAt(chains[b], j)])
  {
    var b := order[k].hashv % |chains|;
    WithoutIn(order, k);
    WithoutIn(chains[b], j);
  }

  lemma WithoutIn(s: seq<Handle>, k: nat)
    requires NoDup(s) && k < |s|
    ensures NoDup(RemoveAt(s, k))
    ensures forall h :: h in RemoveAt(s, k) <==> h in s && h != s[k]
  {
    var t := RemoveAt(s, k);
    forall h | h in s && h != s[k] ensures h in t {
      var i :| 0 <= i < |s| && s[i] == h;
      assert t[if i < k then i else i - 1] == h;
    }
  }

  ghost function Flatten(cs: seq<seq<Handle>>): seq<Handle> {
    if cs == [] then [] else Flatten(cs[..|cs| - 1]) + cs[|cs| - 1]
  }

  /** The chain bucket b of m ends up with when the items of s are pushed one by one. */
  ghost function Redist(s: seq<Handle>, b: nat, m: nat): seq<Handle>
    requires m > 0
  {
    if s == [] then []
    else
      var h, r := s[|s| - 1], Redist(s[..|s| - 1], b, m);
      if h.hashv % m == b then [h] + r else r
  }

  lemma {:induction false} RedistElements(s: seq<Handle>, b: nat, m: nat)
    requires m > 0
    ensures forall h :: h in Redist(s, b, m) <==> h in s && h.hashv % m == b
    ensures NoDup(s) ==> NoDup(Redist(s, b, m))
  {
    if s != [] {
      RedistElements(s[..|s| - 1], b, m);
      assert s == s[..|s| - 1] + [s[|s| - 1]];
    }
  }

  ghost predicate InSome(cs: seq<seq<Handle>>, h: Handle) {
    exists b :: 0 <= b < |cs| && h in cs[b]
  }

  lemma {:induction false} FlattenElements(cs: seq<seq<Handle>>)
    ensures forall h :: h in Flatten(cs) <==> InSome(cs, h)
  {
    if cs != [] {
      var c, rest := cs[|cs| - 1], cs[..|cs| - 1];
      FlattenElements(rest);
      assert Flatten(cs) == Flatten(rest) + c;
      forall h: Handle ensures h in Flatten(cs) <==> InSome(cs, h) {
        assert h in Flatten(rest) <==> InSome(rest, h);
        if InSome(rest, h) {
          var b :| 0 <= b < |rest| && h in rest[b];
          assert h in cs[b];
        }
        if h in c { assert h in cs[|cs| - 1]; }
      }
    }
  }

  lemma NoDupConcat(s: seq<Handle>, t: seq<Handle>)
    requires NoDup(s) && NoDup(t) && forall h :: h in s ==> h !in t
    ensures NoDup(s + t)
  {
    forall i, j | 0 <= i < j < |s + t| ensures (s + t)[i] != (s + t)[j] {
      if i < |s| <= j { assert s[i] in s && t[j - |s|] in t; }
    }
  }

  lemma {:induction false} FlattenNoDup(cs: seq<seq<Handle>>, m: nat)
    requires m > 0
    requires forall b {:trigger cs[b]} :: 0 <= b < |cs| ==> NoDup(cs[b])
    requires forall b, h :: 0 <= b < |cs| && h in cs[b] ==> h.hashv % m == b
    ensures NoDup(Flatten(cs))
  {
    if cs != [] {
      var c, rest := cs[|cs| - 1], cs[..|cs| - 1];
      FlattenNoDup(rest, m);
      FlattenElements(rest);
      forall h | h in c ensures h.hashv % m == |cs| - 1 { assert h in cs[|cs| - 1]; }
      forall h | h in Flatten(rest) ensures h !in c {
        assert InSome(rest, h);
        var b :| 0 <= b < |rest| && h in rest[b];
        assert h in cs[b];
        assert h.hashv % m == b;
      }
      NoDupConcat(Flatten(rest), c);
    }
  }

  /** Pushing every item of a partition into m new buckets partitions the same items. */
  lemma PartitionRedist(order: seq<Handle>, chains: seq<seq<Handle>>, m: nat, grown: seq<seq<Handle>>)
    requires Partition(order, chains) && m > 0 && |grown| == m
    requires forall b {:trigger grown[b]} :: 0 <= b < m ==> grown[b] == Redist(Flatten(chains), b, m)
    ensures Partition(order, grown)
  {
    var flat := Flatten(chains);
    FlattenElements(chains);
    FlattenNoDup(chains, |chains|);
    forall b | 0 <= b < m
      ensures NoDup(grown[b]) && forall h :: h in grown[b] <==> h in flat && h.hashv % m == b
    {
      RedistElements(flat, b, m);
    }
    forall h | h in order ensures h in grown[h.hashv % m] {
      assert h in chains[h.hashv % |chains|];
      assert InSome(chains, h);
    }
    forall h | h in flat ensures h in order {
      assert InSome(chains, h);
    }
  }

  // ---------- counting nonideal items ----------

  function Excess(count: nat, ideal: nat): nat { if count > ideal then count - ideal else 0 }

  /** Items whose chain position exceeds the ideal length, over all chains. */
  ghost function SumExcess(cs: seq<seq<Handle>>, ideal: nat): nat {
    if cs == [] then 0 else SumExcess(cs[..|cs| - 1], ideal) + Excess(|cs[|cs| - 1]|, ideal)
  }

  lemma {:induction false} SumExcessPush(cs: seq<seq<Handle>>, b: nat, h: Handle, ideal: nat)
    requires b < |cs|
    ensures SumExcess(cs[b := [h] + cs[b]], ideal) == SumExcess(cs, ideal) + if |cs[b]| + 1 > ideal then 1 else 0
  {
    var ds := cs[b := [h] + cs[b]];
    if b == |cs| - 1 {
      assert ds[..|ds| - 1] == cs[..|cs| - 1];
    } else {
      assert ds[..|ds| - 1] == cs[..|cs| - 1][b := [h] + cs[b]];
      SumExcessPush(cs[..|cs| - 1], b, h, ideal);
    }
  }

  lemma {:induction false} SumExcessEmpty(cs: seq<seq<Handle>>, ideal: nat)
    requires forall b {:trigger cs[b]} :: 0 <= b < |cs| ==> cs[b] == []
    ensures SumExcess(cs, ideal) == 0
  {
    if cs != [] { SumExcessEmpty(cs[..|cs| - 1], ideal); }
  }

  // ---------- the table ----------

  /** A bucket array spells the chains. */
  ghost predicate BucketsSpell(buckets: array<Bucket>, chains: seq<seq<Handle>>)
    reads buckets, (set b, h | 0 <= b < |chains| && h in chains[b] :: h)`hhPrev,
          (set b, h | 0 <= b < |chains| && h in chains[b] :: h)`hhNext
  {
    && buckets.Length == |chains|
    && (forall b {:trigger chains[b]} :: 0 <= b < |chains| ==> ChainLinked(chains[b]))
    && (forall b {:trigger buckets[b]} :: 0 <= b < |chains| ==>
          buckets[b].hhHead == At(chains[b], 0) && buckets[b].count == |chains[b]|)
  }

  /** Chain links of a bucket still to be emptied: only hhNext is relied on. */
  ghost predicate NextFrom(c: seq<Handle>, k: nat)
    reads Elems(c)`hhNext
  {
    forall i {:trigger c[i].hhNext} :: k <= i < |c| ==> c[i].hhNext == At(c, i + 1)
  }

  /** The body of the redistribution loop: count, note excess, push h. */
  method Rehash(b0: Bucket, h: Handle, ideal: nat, nonideal0: nat, ghost c: seq<Handle>)
    returns (b: Bucket, nonideal: nat)
    requires ChainLinked(c) && NoDup(c) && h !in c && b0.hhHead == At(c, 0) && b0.count == |c|
    requires ideal > 0 && b0.count <= (b0.expandMult + 1) * ideal
    modifies Elems(c)`hhPrev, h`hhPrev, h`hhNext
    ensures ChainLinked([h] + c) && b.hhHead == h && b.count == |c| + 1
    ensures b.count <= (b.expandMult + 1) * ideal
    ensures nonideal == nonideal0 + if |c| + 1 > ideal then 1 else 0
  {
    b, nonideal := b0.(count := b0.count + 1), nonideal0;
    if b.count > ideal {
      nonideal := nonideal + 1;
      if b.count > b.expandMult * ideal {
        MultStep(b.expandMult, ideal);
        b := b.(expandMult := b.expandMult + 1);
      }
    }
    MultStep(b.expandMult, ideal);
    h.hhPrev := null;
    h.hhNext := b.hhHead;
    if b.hhHead != null {
      assert c[0] in Elems(c);
      b.hhHead.hhPrev := h;
    }
    b := b.(hhHead := h);
  }

  lemma MultStep(m: nat, ideal: nat)
    ensures (m + 1) * ideal == m * ideal + ideal
  {
  }

  /** Every bucket respects the bound that delays the next expansion. */
  ghost predicate Bounded(buckets: array<Bucket>, ideal: nat)
    reads buckets
  {
    forall b :: 0 <= b < buckets.Length ==> buckets[b].count <= (buckets[b].expandMult + 1) * ideal
  }

  ghost predicate Apart(cs: seq<seq<Handle>>, bkt: nat, h: Handle)
    requires bkt < |cs|
  {
    && NoDup(cs[bkt])
    && (forall b {:trigger cs[b]} :: 0 <= b < |cs| ==> h !in cs[b])
    && (forall b {:trigger cs[b]} :: 0 <= b < |cs| && b != bkt ==> Elems(cs[b]) !! Elems(cs[bkt]))
  }

  /** Rehash into slot bkt of the new bucket array. */
  method RehashInto(grown: array<Bucket>, bkt: nat, h: Handle, ideal: nat, nonideal0: nat, ghost gc: seq<seq<Handle>>)
    returns (nonideal: nat)
    requires BucketsSpell(grown, gc) && Bounded(grown, ideal) && ideal > 0
    requires bkt < |gc| && Apart(gc, bkt, h)
    modifies grown, Elems(gc[bkt])`hhPrev, h`hhPrev, h`hhNext
    ensures BucketsSpell(grown, gc[bkt := [h] + gc[bkt]]) && Bounded(grown, ideal)
    ensures nonideal == nonideal0 + if |gc[bkt]| + 1 > ideal then 1 else 0
  {
    var nb;
    nb, nonideal := Rehash(grown[bkt], h, ideal, nonideal0, gc[bkt]);
    assert forall b {:trigger gc[b]} :: 0 <= b < |gc| && b != bkt ==> ChainLinked(gc[b]);
    grown[bkt] := nb;
  }

  /** HASH_ADD_TO_BKT without the expansion: push add on bucket bkt. */
  method PushInto(buckets: array<Bucket>, bkt: nat, add: Handle, ghost cs: seq<seq<Handle>>)
    requires BucketsSpell(buckets, cs) && bkt < |cs| && Apart(cs, bkt, add)
    modifies buckets, Elems(cs[bkt])`hhPrev, add`hhPrev, add`hhNext
    ensures BucketsSpell(buckets, cs[bkt := [add] + cs[bkt]])
    ensures buckets[bkt].expandMult == old(buckets[bkt].expandMult)
  {
    var b := PushChain(buckets[bkt], add, cs[bkt]);
    assert forall b {:trigger cs[b]} :: 0 <= b < |cs| && b != bkt ==> ChainLinked(cs[b]);
    buckets[bkt] := b;
  }

  /** HASH_DEL_IN_BKT on bucket bkt. */
  method UnlinkFrom(buckets: array<Bucket>, bkt: nat, del: Handle, ghost cs: seq<seq<Handle>>, ghost j: nat)
    requires BucketsSpell(buckets, cs) && bkt < |cs| && NoDup(cs[bkt])
    requires j < |cs[bkt]| && cs[bkt][j] == del
    requires forall b {:trigger cs[b]} :: 0 <= b < |cs| && b != bkt ==> Elems(cs[b]) !! Elems(cs[bkt])
    modifies buckets, Elems(cs[bkt])`hhPrev, Elems(cs[bkt])`hhNext
    ensures BucketsSpell(buckets, cs[bkt := RemoveAt(cs[bkt], j)])
  {
    var b := UnlinkChain(buckets[bkt], del, cs[bkt], j);
    assert forall b {:trigger cs[b]} :: 0 <= b < |cs| && b != bkt ==> ChainLinked(cs[b]);
    buckets[bkt] := b;
  }

  lemma PartitionApart(order: seq<Handle>, cs: seq<seq<Handle>>, bkt: nat)
    requires Partition(order, cs) && bkt < |cs|
    ensures NoDup(cs[bkt]) && Elems(cs[bkt]) <= Elems(order)
    ensures forall b {:trigger cs[b]} :: 0 <= b < |cs| && b != bkt ==> Elems(cs[b]) !! Elems(cs[bkt])
    ensures forall b {:trigger cs[b]} :: 0 <= b < |cs| ==> Elems(cs[b]) <= Elems(order)
  {
  }

  /** gc is what pushing the items of s in order into m buckets gives. */
  ghost predicate IsRedist(gc: seq<seq<Handle>>, s: seq<Handle>, m: nat)
    requires m > 0
  {
    |gc| == m && forall b {:trigger gc[b]} :: 0 <= b < m ==> gc[b] == Redist(s, b, m)
  }

  lemma RedistApart(gc: seq<seq<Handle>>, s: seq<Handle>, h: Handle, m: nat)
    requires m > 0 && IsRedist(gc, s, m) && NoDup(s) && h !in s
    ensures Apart(gc, h.hashv % m, h) && Elems(gc[h.hashv % m]) <= Elems(s)
  {
    forall b | 0 <= b < m
      ensures NoDup(gc[b]) && forall x :: x in gc[b] <==> x in s && x.hashv % m == b
    {
      RedistElements(s, b, m);
    }
  }

  /** One round of the inner loop of HASH_EXPAND_BUCKETS. */
  method PushOne(grown: array<Bucket>, h: Handle, m: nat, ghost lg: nat, ideal: nat, nonideal0: nat,
                 ghost s: seq<Handle>, ghost gc0: seq<seq<Handle>>)
    returns (nonideal: nat, ghost gc: seq<seq<Handle>>)
    requires m == Pow2(lg) && ideal > 0 && NoDup(s) && h !in s
    requires BucketsSpell(grown, gc0) && Bounded(grown, ideal) && IsRedist(gc0, s, m)
    modifies grown, Elems(s)`hhPrev, h`hhPrev, h`hhNext
    ensures BucketsSpell(grown, gc) && Bounded(grown, ideal) && IsRedist(gc, s + [h], m)
    ensures nonideal + SumExcess(gc0, ideal) == nonideal0 + SumExcess(gc, ideal)
  {
    var bkt := And(h.hashv, m - 1);
    AndMask(h.hashv, lg);
    RedistApart(gc0, s, h, m);
    nonideal := RehashInto(grown, bkt, h, ideal, nonideal0, gc0);
    gc := gc0[bkt := [h] + gc0[bkt]];
    SumExcessPush(gc0, bkt, h, ideal);
  }

  /** The inner loop of HASH_EXPAND_BUCKETS: empties one old chain. */
  method PushChainItems(first: Handle?, grown: array<Bucket>, m: nat, ghost lg: nat, ideal: nat, nonideal0: nat,
                        ghost c: seq<Handle>, ghost s: seq<Handle>, ghost gc0: seq<seq<Handle>>)
    returns (nonideal: nat, ghost gc: seq<seq<Handle>>)
    requires m == Pow2(lg) && ideal > 0 && NoDup(s + c)
    requires first == At(c, 0) && NextFrom(c, 0)
    requires BucketsSpell(grown, gc0) && Bounded(grown, ideal) && IsRedist(gc0, s, m)
    modifies grown, Elems(s)`hhPrev, Elems(c)`hhPrev, Elems(c)`hhNext
    ensures BucketsSpell(grown, gc) && Bounded(grown, ideal) && IsRedist(gc, s + c, m)
    ensures nonideal + SumExcess(gc0, ideal) == nonideal0 + SumExcess(gc, ideal)
  {
    nonideal, gc := nonideal0, gc0;
    var thh := first;
    ghost var k := 0;
    assert s + c[..k] == s;
    while thh != null
      invariant 0 <= k <= |c| && thh == At(c, k) && NextFrom(c, k)
      invariant BucketsSpell(grown, gc) && Bounded(grown, ideal) && IsRedist(gc, s + c[..k], m)
      invariant nonideal + SumExcess(gc0, ideal) == nonideal0 + SumExcess(gc, ideal)
      decreases |c| - k
    {
      var nxt := thh.hhNext;
      ghost var t := s + c[..k];
      PrefixApart(s, c, k);
      assert c[k] in Elems(c);
      nonideal, gc := PushOne(grown, thh, m, lg, ideal, nonideal, t, gc);
      assert t + [thh] == s + c[..k + 1];
      thh, k := nxt, k + 1;
    }
    assert c[..k] == c;
  }

  lemma PrefixApart(s: seq<Handle>, c: seq<Handle>, k: nat)
    requires NoDup(s + c) && k < |c|
    ensures NoDup(s + c[..k]) && c[k] !in s + c[..k]
    ensures Elems(s + c[..k]) <= Elems(s) + Elems(c)
    ensures forall i :: k < i < |c| ==> c[i] != c[k]
  {
    assert s + c[..k] == (s + c)[..|s| + k] && c[k] == (s + c)[|s| + k];
    assert forall i :: k < i < |c| ==> c[i] == (s + c)[|s| + i];
  }

  lemma FlattenUpTo(chains: seq<seq<Handle>>, i: nat)
    requires i < |chains|
    ensures Flatten(chains[..i + 1]) == Flatten(chains[..i]) + chains[i]
  {
    assert chains[..i + 1][..i] == chains[..i];
  }

  /** In a partition the first i + 1 chains do not repeat an item, and share none
      with the later chains. */
  lemma ChainsApart(order: seq<Handle>, chains: seq<seq<Handle>>, i: nat)
    requires Partition(order, chains) && i < |chains|
    ensures NoDup(Flatten(chains[..i]) + chains[i])
    ensures Elems(Flatten(chains[..i])) <= Elems(order) && Elems(chains[i]) <= Elems(order)
    ensures forall b {:trigger chains[b]} :: i < b < |chains| ==> Elems(chains[b]) !! Elems(chains[i])
  {
    FlattenUpTo(chains, i);
    FlattenNoDup(chains[..i + 1], |chains|);
    FlattenElements(chains[..i]);
    forall h | h in Flatten(chains[..i]) ensures h in order {
      assert InSome(chains[..i], h);
    }
  }

  /** The outer loop of HASH_EXPAND_BUCKETS. */
  method Redistribute(prior: array<Bucket>, grown: array<Bucket>, ghost lg: nat, ideal: nat,
                      ghost order: seq<Handle>, ghost chains: seq<seq<Handle>>)
    returns (nonideal: nat, ghost gc: seq<seq<Handle>>)
    requires Partition(order, chains) && BucketsSpell(prior, chains)
    requires grown != prior && grown.Length == 2 * prior.Length == Pow2(lg) && ideal > 0
    requires forall b :: 0 <= b < grown.Length ==> grown[b] == Bucket(null, 0, 0)
    modifies grown, Elems(order)`hhPrev, Elems(order)`hhNext
    ensures IsRedist(gc, Flatten(chains), grown.Length) && BucketsSpell(grown, gc) && Bounded(grown, ideal)
    ensures nonideal == SumExcess(gc, ideal)
  {
    nonideal := 0;
    gc := seq(grown.Length, _ => []);
    SumExcessEmpty(gc, ideal);
    assert chains[..0] == [];
    var i := 0;
    while i < prior.Length
      invariant 0 <= i <= prior.Length
      invariant IsRedist(gc, Flatten(chains[..i]), grown.Length) && BucketsSpell(grown, gc) && Bounded(grown, ideal)
      invariant nonideal == SumExcess(gc, ideal)
      invariant forall b {:trigger chains[b]} :: i <= b < |chains| ==> NextFrom(chains[b], 0)
      invariant forall b {:trigger prior[b]} :: 0 <= b < |chains| ==> prior[b].hhHead == At(chains[b], 0)
    {
      ChainsApart(order, chains, i);
      FlattenUpTo(chains, i);
      nonideal, gc := PushChainItems(prior[i].hhHead, grown, grown.Length, lg, ideal, nonideal,
                                     chains[i], Flatten(chains[..i]), gc);
      i := i + 1;
    }
    assert chains[..i] == chains;
  }

  /** The shift-and-mask computation of the ceiling of n / m, m a power of two. */
  method IdealLength(n: nat, m: nat, lg: nat) returns (r: nat)
    requires n > 0 && m == Pow2(lg)
    ensures r == CeilDiv(n, m) && r > 0
  {
    AndMask(n, lg);
    ShrDiv(n, lg);
    CeilDivQuotient(n, m);
    r := Shr(n, lg) + if And(n, m - 1) != 0 then 1 else 0;
  }

  /** A doubled bucket array holding the same items. */
  method Doubled(buckets: array<Bucket>, numItems: nat, lg: nat, ghost s: seq<Handle>, ghost chains: seq<seq<Handle>>)
    returns (grown: array<Bucket>, ideal: nat, nonideal: nat, ghost gc: seq<seq<Handle>>)
    requires Partition(s, chains) && |chains| == Pow2(lg) && BucketsSpell(buckets, chains) && numItems == |s| > 0
    modifies Elems(s)`hhPrev, Elems(s)`hhNext
    ensures fresh(grown) && |gc| == 2 * |chains| && Partition(s, gc) && BucketsSpell(grown, gc)
    ensures ideal == CeilDiv(|s|, |gc|) && ideal > 0
    ensures nonideal == SumExcess(gc, ideal) && Bounded(grown, ideal)
  {
    grown := new Bucket[buckets.Length * 2](_ => Bucket(null, 0, 0));
    ideal := IdealLength(numItems, grown.Length, lg + 1);
    nonideal, gc := Redistribute(buckets, grown, lg + 1, ideal, s, chains);
    PartitionRedist(s, chains, grown.Length, gc);
  }

  /** Distinct keys, each with the hash value the table's function gives it. */
  ghost predicate Items(order: seq<Handle>, hash: string -> nat) {
    && (forall i, j :: 0 <= i < j < |order| ==> order[i].key != order[j].key)
    && (forall h :: h in order ==> h.hashv == hash(h.key))
  }

  /** The abstract value of a table: its items in insertion order. */
  ghost predicate HasKey(order: seq<Handle>, key: string) {
    exists h :: h in order && h.key == key
  }

  /** UT_hash_table together with the user's head pointer. The hash function is
      arbitrary but fixed. */
  class Table {
    const hash: string -> nat
    var head: Handle?
    var tail: Handle?
    var buckets: array<Bucket>
    var numBuckets: nat
    var log2NumBuckets: nat
    var numItems: nat
    var idealChainMaxlen: nat
    var nonidealItems: nat
    var ineffExpands: nat
    var noexpand: bool
    ghost var order: seq<Handle>
    ghost var chains: seq<seq<Handle>>

    /** The bucket side of a table holding the items of s. */
    ghost predicate BucketSide(s: seq<Handle>)
      reads this`chains, this`numBuckets, this`log2NumBuckets, this`buckets, buckets,
            Elems(s)`hhPrev, Elems(s)`hhNext
    {
      && Partition(s, chains)
      && numBuckets == |chains| == Pow2(log2NumBuckets)
      && BucketsSpell(buckets, chains)
    }

    /** The application-order side of a table holding the items of s. */
    ghost predicate AppSide(s: seq<Handle>)
      reads this`head, this`tail, Elems(s)`prev, Elems(s)`next
    {
      head == At(s, 0) && (s != [] ==> tail == At(s, |s| - 1)) && AppLinked(s)
    }

    ghost predicate Valid()
      reads this, buckets, Elems(order)
    {
      && Items(order, hash)
      && AppSide(order)
      && (order != [] ==> numItems == |order| && BucketSide(order))
    }

    constructor (hash: string -> nat)
      ensures Valid() && order == [] && this.hash == hash
    {
      this.hash := hash;
      head, tail, order, chains := null, null, [], [];
      buckets := new Bucket[0];
      numBuckets, log2NumBuckets, numItems := 0, 0, 0;
      idealChainMaxlen, nonidealItems, ineffExpands, noexpand := 0, 0, 0, false;
    }

    /** HASH_FIND: the item with that key, or NULL. */
    method Find(key: string) returns (out: Handle?)
      requires Valid()
      ensures out != null ==> out in order && out.key == key
      ensures out == null ==> !HasKey(order, key)
    {
      out := null;
      if head != null {
        var hashv := hash(key);
        var bkt := And(hashv, numBuckets - 1);
        AndMask(hashv, log2NumBuckets);
        out := buckets[bkt].hhHead;
        ghost var c, k := chains[bkt], 0;
        while out != null
          invariant 0 <= k <= |c| && out == At(c, k)
          invariant forall i :: 0 <= i < k ==> c[i].key != key
          decreases |c| - k
        {
          if out.hashv == hashv && |out.key| == |key| && out.key == key {
            return;
          }
          out, k := out.hhNext, k + 1;
        }
      }
    }

    /** HASH_MAKE_TABLE: 32 empty buckets, all counters zero. */
    method MakeTable(add: Handle)
      modifies this
      ensures tail == add && head == old(head) && order == old(order)
      ensures numBuckets == 32 && numItems == 0 && !noexpand && ineffExpands == 0
      ensures fresh(buckets) && BucketSide([])
      ensures forall b :: 0 <= b < buckets.Length ==> buckets[b] == Bucket(null, 0, 0)
    {
      tail := add;
      numBuckets, log2NumBuckets := INITIAL_NUM_BUCKETS, INITIAL_NUM_BUCKETS_LOG2;
      numItems, idealChainMaxlen, nonidealItems, ineffExpands, noexpand := 0, 0, 0, 0, false;
      buckets := new Bucket[INITIAL_NUM_BUCKETS](_ => Bucket(null, 0, 0));
      chains := seq(INITIAL_NUM_BUCKETS, _ => []);
      assert Pow2(5) == 2 * Pow2(4) && Pow2(4) == 2 * Pow2(3) && Pow2(3) == 8;
    }

    /** The bucket array of HASH_EXPAND_BUCKETS: doubled, and every item moved. */
    method GrowBuckets(ghost s: seq<Handle>)
      requires BucketSide(s) && numItems == |s| > 0
      modifies this`buckets, this`numBuckets, this`log2NumBuckets, this`idealChainMaxlen, this`nonidealItems,
               this`chains, Elems(s)`hhPrev, Elems(s)`hhNext
      ensures fresh(buckets) && BucketSide(s)
      ensures numBuckets == 2 * old(numBuckets) && log2NumBuckets == old(log2NumBuckets) + 1
      ensures idealChainMaxlen == CeilDiv(|s|, numBuckets) && idealChainMaxlen > 0
      ensures nonidealItems == SumExcess(chains, idealChainMaxlen)
      ensures Bounded(buckets, idealChainMaxlen)
    {
      hide Partition, BucketsSpell, SumExcess, Bounded;
      var grown, ideal, nonideal;
      ghost var gc;
      grown, ideal, nonideal, gc := Doubled(buckets, numItems, log2NumBuckets, s, chains);
      buckets, chains, idealChainMaxlen, nonidealItems := grown, gc, ideal, nonideal;
      numBuckets, log2NumBuckets := numBuckets * 2, log2NumBuckets + 1;
    }

    /** HASH_EXPAND_BUCKETS on a table holding the items of s. */
    method ExpandBuckets(ghost s: seq<Handle>)
      requires BucketSide(s) && numItems == |s| > 0
      modifies this`buckets, this`numBuckets, this`log2NumBuckets, this`idealChainMaxlen, this`nonidealItems,
               this`ineffExpands, this`noexpand, this`chains, Elems(s)`hhPrev, Elems(s)`hhNext
      ensures fresh(buckets) && BucketSide(s)
      ensures numBuckets == 2 * old(numBuckets) && log2NumBuckets == old(log2NumBuckets) + 1
      ensures idealChainMaxlen == CeilDiv(|s|, numBuckets) && idealChainMaxlen > 0
      ensures nonidealItems == SumExcess(chains, idealChainMaxlen)
      ensures Bounded(buckets, idealChainMaxlen)
      ensures ineffExpands == (if nonidealItems > Half(|s|) then old(ineffExpands) + 1 else 0)
      ensures noexpand == (old(noexpand) || ineffExpands > 1)
    {
      hide Partition, BucketsSpell, SumExcess, Bounded;
      GrowBuckets(s);
      HalfShift(numItems);
      ineffExpands := if nonidealItems > Shr(numItems, 1) then ineffExpands + 1 else 0;
      noexpand := noexpand || ineffExpands > 1;
    }

    /** HASH_ADD_TO_TABLE: count the item, push it on its bucket, maybe expand. */
    method AddToTable(add: Handle, ghost s: seq<Handle>)
      requires BucketSide(s) && numItems == |s| && add !in s
      modifies this`numItems, this`buckets, buckets, this`numBuckets, this`log2NumBuckets, this`idealChainMaxlen,
               this`nonidealItems, this`ineffExpands, this`noexpand, this`chains,
               Elems(s)`hhPrev, Elems(s)`hhNext, add`hhPrev, add`hhNext
      ensures BucketSide(s + [add]) && numItems == |s| + 1
      ensures numBuckets > 0 && old(numBuckets > 0 && add.hashv % numBuckets < buckets.Length)
      ensures var bkt := old(buckets[add.hashv % numBuckets]);
              if !old(noexpand) && bkt.count + 1 >= (bkt.expandMult + 1) * 10 then
                fresh(buckets) && numBuckets == 2 * old(numBuckets)
              else
                buckets == old(buckets) && numBuckets == old(numBuckets) && noexpand == old(noexpand)
    {
      numItems := numItems + 1;
      var bkt := And(add.hashv, numBuckets - 1);
      AndMask(add.hashv, log2NumBuckets);
      PartitionAdd(s, chains, add);
      PartitionApart(s, chains, bkt);
      PushInto(buckets, bkt, add, chains);
      chains := chains[bkt := [add] + chains[bkt]];
      assert BucketSide(s + [add]);
      if buckets[bkt].count >= (buckets[bkt].expandMult + 1) * BKT_CAPACITY_THRESH && !noexpand {
        ExpandBuckets(s + [add]);
      }
    }

    /** Put add at the end of the application order, making the table if need be. */
    method LinkItem(add: Handle, ghost s: seq<Handle>)
      requires AppSide(s) && NoDup(s) && add !in s
      requires s != [] ==> numItems == |s| && BucketSide(s)
      modifies this, Elems(s)`next, add`prev, add`next
      ensures AppSide(s + [add]) && order == old(order)
      ensures BucketSide(s) && numItems == |s|
      ensures buckets == old(buckets) || fresh(buckets)
    {
      if head == null {
        add.next := null;
        add.prev := null;
        MakeTable(add);
        head := add;
      } else {
        AppendApp(tail, add, s);
        tail := add;
      }
    }

    /** HASH_ADD of an item whose key is absent: it becomes the last in order. */
    method Add(add: Handle)
      requires Valid() && add !in order && add.hashv == hash(add.key) && !HasKey(order, add.key)
      modifies this, buckets, Elems(order), add
      ensures Valid() && order == old(order) + [add]
      ensures buckets == old(buckets) || fresh(buckets)
    {
      hide Partition, BucketsSpell;
      ghost var s := order;
      LinkItem(add, s);
      AddToTable(add, s);
      assert AppSide(s + [add]);
      order := s + [add];
    }

    /** The bucket half of HASH_DELETE_HH. */
    method DeleteFromTable(del: Handle, ghost s: seq<Handle>, ghost k: nat)
      requires BucketSide(s) && numItems == |s| && NoDup(s) && k < |s| && s[k] == del
      modifies this`numItems, this`chains, buckets, Elems(s)`hhPrev, Elems(s)`hhNext
      ensures BucketSide(RemoveAt(s, k)) && numItems == |s| - 1
    {
      var bkt := And(del.hashv, numBuckets - 1);
      AndMask(del.hashv, log2NumBuckets);
      PartitionApart(s, chains, bkt);
      ghost var j :| 0 <= j < |chains[bkt]| && chains[bkt][j] == del;
      PartitionDelete(s, chains, k, j);
      numItems := numItems - 1;
      UnlinkFrom(buckets, bkt, del, chains, j);
      chains := chains[bkt := RemoveAt(chains[bkt], j)];
    }

    /** The application-order half of HASH_DELETE_HH. */
    method UnlinkItem(del: Handle, ghost s: seq<Handle>, ghost k: nat)
      requires AppSide(s) && NoDup(s) && k < |s| && s[k] == del
      modifies this`head, this`tail, Elems(s)`prev, Elems(s)`next
      ensures AppSide(RemoveAt(s, k))
    {
      head, tail := UnlinkApp(head, tail, del, s, k);
    }

    /** HASH_DELETE: patch both lists; the last item to go takes the table with it. */
    method Delete(del: Handle, ghost k: nat)
      requires Valid() && k < |order| && order[k] == del
      modifies this, buckets, Elems(order)
      ensures Valid() && buckets == old(buckets) && order == RemoveAt(old(order), k)
    {
      hide Partition, BucketsSpell, Items, RemoveAt;
      ghost var s := order;
      ItemsWithout(s, k, hash);
      if del.prev == null && del.next == null {
        head := null;
      } else {
        UnlinkBoth(del, s, k);
      }
      order := RemoveAt(s, k);
    }

    /** Both halves. */
    method UnlinkBoth(del: Handle, ghost s: seq<Handle>, ghost k: nat)
      requires AppSide(s) && BucketSide(s) && numItems == |s| && NoDup(s) && k < |s| && s[k] == del && |s| > 1
      modifies this`head, this`tail, this`numItems, this`chains, buckets, Elems(s)
      ensures AppSide(RemoveAt(s, k)) && BucketSide(RemoveAt(s, k)) && numItems == |s| - 1
    {
      hide Partition, BucketsSpell;
      UnlinkItem(del, s, k);
      DeleteFromTable(del, s, k);
    }

    /** HASH_ITER: el runs from head along next, tmp one ahead. */
    method Iterate() returns (visited: seq<Handle>)
      requires Valid()
      ensures visited == order
    {
      visited := [];
      var el := head;
      var tmp := if head != null then head.next else null;
      while el != null
        invariant |visited| <= |order| && visited == order[..|visited|]
        invariant el == At(order, |visited|) && tmp == At(order, |visited| + 1)
        decreases |order| - |visited|
      {
        visited := visited + [el];
        el := tmp;
        tmp := if tmp != null then tmp.next else null;
      }
    }

    /** The body of such a loop: el is deleted or kept. */
    method VisitAndDelete(el: Handle, pick: Handle -> bool, ghost kept0: seq<Handle>, ghost rest: seq<Handle>)
      returns (ghost kept: seq<Handle>)
      requires Valid() && order == kept0 + rest && rest != [] && el == rest[0]
      modifies this, buckets, Elems(order)
      ensures Valid() && order == kept + rest[1..] && buckets == old(buckets)
      ensures kept == if pick(el) then kept0 else kept0 + [el]
      ensures forall h :: h in order ==> h in old(order)
    {
      ghost var k := |kept0|;
      assert order[k] == rest[0];
      kept := kept0;
      if pick(el) {
        WithoutMiddle(kept0, rest);
        Delete(el, k);
      } else {
        kept := kept0 + [el];
        assert order == kept + rest[1..];
      }
    }

    /** HASH_ITER whose body deletes the current item when pick says so. */
    method DeleteWhere(pick: Handle -> bool)
      requires Valid()
      modifies this, buckets, Elems(order)
      ensures Valid() && order == Keep(old(order), pick) && buckets == old(buckets)
    {
      hide Partition, BucketsSpell, Items, AppLinked, Keep;
      ghost var kept, rest := [], order;
      var el := head;
      OrderNext(order, 0);
      var tmp := if head != null then head.next else null;
      assert [] + order == order;
      KeepNone(pick);
      while el != null
        invariant Valid() && order == kept + rest && buckets == old(buckets)
        invariant forall h :: h in order ==> h in old(order)
        invariant el == At(rest, 0) && tmp == At(rest, 1)
        invariant kept + Keep(rest, pick) == Keep(old(order), pick)
        decreases |rest|
      {
        KeepStep(kept, rest, pick);
        kept := VisitAndDelete(el, pick, kept, rest);
        rest := rest[1..];
        el := tmp;
        assert tmp != null ==> order[|kept|] == rest[0];
        OrderNext(order, |kept|);
        tmp := if tmp != null then tmp.next else null;
      }
    }

    /** HASH_FSCK: every check the debug macro makes succeeds. */
    method Fsck() returns (ok: bool)
      requires Valid()
      ensures ok
    {
      if head == null { return true; }
      var count := 0;
      for i := 0 to numBuckets
        invariant count == |Flatten(chains[..i])|
      {
        FlattenUpTo(chains, i);
        var n, linked := ChainLength(buckets[i].hhHead, chains[i]);
        if !linked || buckets[i].count != n { return false; }
        count := count + n;
      }
      assert chains[..numBuckets] == chains;
      PartitionSize(order, chains);
      if count != numItems { return false; }
      count := 0;
      var prev: Handle?, thh: Handle? := null, head;
      while thh != null
        invariant 0 <= count <= |order| && thh == At(order, count) && prev == At(order, count - 1)
        decreases |order| - count
      {
        count := count + 1;
        if prev != thh.prev { return false; }
        prev := thh;
        thh := thh.next;
      }
      return count == numItems;
    }
  }

  /** The bucket walk of HASH_FSCK: length of a chain, and whether hhPrev agrees. */
  method ChainLength(first: Handle?, ghost c: seq<Handle>) returns (n: nat, linked: bool)
    requires ChainLinked(c) && first == At(c, 0)
    ensures n == |c| && linked
  {
    n, linked := 0, true;
    var prev: Handle?, thh := null, first;
    while thh != null
      invariant 0 <= n <= |c| && thh == At(c, n) && prev == At(c, n - 1) && linked
      decreases |c| - n
    {
      if prev != thh.hhPrev { linked := false; }
      n := n + 1;
      prev := thh;
      thh := thh.hhNext;
    }
  }

  ghost function Keep(s: seq<Handle>, pick: Handle -> bool): seq<Handle> {
    if s == [] then []
    else if pick(s[0]) then Keep(s[1..], pick)
    else [s[0]] + Keep(s[1..], pick)
  }

  lemma KeepNone(pick: Handle -> bool)
    ensures Keep([], pick) == []
  {
  }

  lemma KeepStep(kept: seq<Handle>, rest: seq<Handle>, pick: Handle -> bool)
    requires rest != []
    ensures pick(rest[0]) ==> kept + Keep(rest[1..], pick) == kept + Keep(rest, pick)
    ensures !pick(rest[0]) ==> (kept + [rest[0]]) + Keep(rest[1..], pick) == kept + Keep(rest, pick)
  {
    var tail := Keep(rest[1..], pick);
    assert (kept + [rest[0]]) + tail == kept + ([rest[0]] + tail);
  }

  lemma WithoutMiddle(kept: seq<Handle>, rest: seq<Handle>)
    requires rest != []
    ensures RemoveAt(kept + rest, |kept|) == kept + rest[1..]
  {
    var w, t := RemoveAt(kept + rest, |kept|), kept + rest[1..];
    forall i | 0 <= i < |w| ensures w[i] == t[i] {
      assert w[i] == (kept + rest)[if i < |kept| then i else i + 1];
    }
  }

  lemma {:induction false} NoDupSize(s: seq<Handle>)
    requires NoDup(s)
    ensures |Elems(s)| == |s|
  {
    if s != [] {
      var t := s[..|s| - 1];
      NoDupSize(t);
      assert Elems(s) == Elems(t) + {s[|s| - 1]};
    }
  }

  /** The chains hold as many items as the application order. */
  lemma PartitionSize(order: seq<Handle>, chains: seq<seq<Handle>>)
    requires Partition(order, chains) && NoDup(order)
    ensures |Flatten(chains)| == |order|
  {
    var flat := Flatten(chains);
    FlattenNoDup(chains, |chains|);
    FlattenElements(chains);
    NoDupSize(flat);
    NoDupSize(order);
    forall h ensures h in Elems(flat) <==> h in Elems(order) {
      if h in order { assert h in chains[h.hashv % |chains|]; assert InSome(chains, h); }
      if h in flat { assert InSome(chains, h); }
    }
    assert Elems(flat) == Elems(order);
  }

  lemma ItemsWithout(order: seq<Handle>, k: nat, hash: string -> nat)
    requires Items(order, hash) && k < |order|
    ensures NoDup(order) && Items(RemoveAt(order, k), hash)
    ensures forall h :: h in RemoveAt(order, k) <==> h in order && h != order[k]
  {
    WithoutIn(order, k);
  }

  // ---------- whole runs: an insertion-ordered map ----------

  datatype Op = FindOp(key: string) | AddOp(item: Handle) | DeleteOp(key: string)

  /** The item with that key in an insertion-ordered map. */
  function Lookup(order: seq<Handle>, key: string): Handle? {
    if order == [] then null else if order[0].key == key then order[0] else Lookup(order[1..], key)
  }

  function Remove(order: seq<Handle>, key: string): seq<Handle> {
    if order == [] then [] else if order[0].key == key then order[1..] else [order[0]] + Remove(order[1..], key)
  }

  function OpKey(op: Op): string { if op.AddOp? then op.item.key else op.key }

  /** One operation on the abstract map; adding keeps an item already there. */
  function StepMap(order: seq<Handle>, op: Op): seq<Handle> {
    match op
    case FindOp(_) => order
    case AddOp(item) => if Lookup(order, item.key) == null then order + [item] else order
    case DeleteOp(key) => Remove(order, key)
  }

  function RunMap(order: seq<Handle>, ops: seq<Op>): seq<Handle> {
    if ops == [] then order else StepMap(RunMap(order, ops[..|ops| - 1]), ops[|ops| - 1])
  }

  /** What each operation finds under its key. */
  function RunAnswers(order: seq<Handle>, ops: seq<Op>): seq<Handle?> {
    if ops == [] then []
    else
      var front := ops[..|ops| - 1];
      RunAnswers(order, front) + [Lookup(RunMap(order, front), OpKey(ops[|ops| - 1]))]
  }

  lemma {:induction false} LookupHas(order: seq<Handle>, key: string)
    ensures Lookup(order, key) != null <==> HasKey(order, key)
    ensures Lookup(order, key) != null ==> Lookup(order, key) in order && Lookup(order, key).key == key
  {
    if order != [] {
      LookupHas(order[1..], key);
      assert order[0] in order;
      if HasKey(order, key) {
        var h :| h in order && h.key == key;
        assert h == order[0] || h in order[1..];
      }
      if HasKey(order[1..], key) {
        var h :| h in order[1..] && h.key == key;
        assert h in order;
      }
    }
  }

  /** With distinct keys an item is found under its own key, and removing the key
      leaves out just that item. */
  lemma {:induction false} LookupItem(order: seq<Handle>, k: nat, hash: string -> nat)
    requires Items(order, hash) && k < |order|
    ensures Lookup(order, order[k].key) == order[k] && Remove(order, order[k].key) == RemoveAt(order, k)
  {
    if k == 0 {
      assert RemoveAt(order, 0) == order[1..];
    } else {
      assert forall h :: h in order[1..] ==> h in order;
      LookupItem(order[1..], k - 1, hash);
      assert order[0].key != order[k].key;
    }
  }

  lemma {:induction false} RemoveAbsent(order: seq<Handle>, key: string)
    requires !HasKey(order, key)
    ensures Remove(order, key) == order
  {
    if order != [] {
      assert order[0] in order;
      assert forall h :: h in order[1..] ==> h in order;
      RemoveAbsent(order[1..], key);
    }
  }

  ghost function Offered(ops: seq<Op>): set<Handle> { set op | op in ops && op.AddOp? :: op.item }

  /** Any sequence of finds, adds (of what a find did not return) and deletes
      behaves as on an insertion-ordered map. */
  method Run(t: Table, ops: seq<Op>) returns (answers: seq<Handle?>)
    requires t.Valid()
    requires forall op :: op in ops && op.AddOp? ==> op.item.hashv == t.hash(op.item.key)
    modifies t, t.buckets, Elems(t.order), Offered(ops)
    ensures t.Valid() && t.order == RunMap(old(t.order), ops)
    ensures answers == RunAnswers(old(t.order), ops)
  {
    answers := [];
    for i := 0 to |ops|
      invariant t.Valid() && t.order == RunMap(old(t.order), ops[..i])
      invariant answers == RunAnswers(old(t.order), ops[..i])
      invariant forall h :: h in t.order ==> h in old(t.order) || h in Offered(ops)
      invariant t.buckets == old(t.buckets) || fresh(t.buckets)
    {
      assert ops[..i + 1][..i] == ops[..i];
      assert ops[i] in ops;
      var found := RunOne(t, ops[i]);
      answers := answers + [found];
    }
    assert ops[..|ops|] == ops;
  }

  method RunOne(t: Table, op: Op) returns (found: Handle?)
    requires t.Valid() && (op.AddOp? ==> op.item.hashv == t.hash(op.item.key))
    modifies t, t.buckets, Elems(t.order), if op.AddOp? then {op.item} else {}
    ensures t.Valid() && t.order == StepMap(old(t.order), op)
    ensures found == Lookup(old(t.order), OpKey(op))
    ensures t.buckets == old(t.buckets) || fresh(t.buckets)
    ensures forall h :: h in t.order ==> h in old(t.order) || h in Offered([op])
  {
    found := FindItem(t, OpKey(op));
    match op {
      case FindOp(_) =>
      case AddOp(item) =>
        assert item in Offered([op]);
        if found == null { t.Add(item); }
      case DeleteOp(key) => DeleteFound(t, found, key);
    }
  }

  method FindItem(t: Table, key: string) returns (found: Handle?)
    requires t.Valid()
    ensures found == Lookup(t.order, key) && (found != null ==> found in t.order && found.key == key)
    ensures found == null ==> !HasKey(t.order, key)
  {
    found := t.Find(key);
    LookupHas(t.order, key);
    if found != null {
      ghost var k :| 0 <= k < |t.order| && t.order[k] == found;
      LookupItem(t.order, k, t.hash);
    }
  }

  method DeleteFound(t: Table, found: Handle?, key: string)
    requires t.Valid() && found == Lookup(t.order, key)
    modifies t, t.buckets, Elems(t.order)
    ensures t.Valid() && t.order == Remove(old(t.order), key) && t.buckets == old(t.buckets)
    ensures forall h :: h in t.order ==> h in old(t.order)
  {
    LookupHas(t.order, key);
    if found != null {
      ghost var k :| 0 <= k < |t.order| && t.order[k] == found;
      LookupItem(t.order, k, t.hash);
      t.Delete(found, k);
    } else {
      RemoveAbsent(t.order, key);
    }
  }
}
