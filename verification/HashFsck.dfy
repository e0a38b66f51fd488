/**
 The table's own integrity check. It runs on any heap whose pointers stay inside
 a finite set of elements, including corrupt and cyclic ones.
 */
module HashFsck {
  import opened Sequences
  import opened ChainPolicy
  import opened BucketTable
  import opened UtHash

  ghost function SumLengths(chains: seq<seq<Elem>>): nat {
    if chains == [] then 0 else SumLengths(chains[..|chains| - 1]) + |chains[|chains| - 1]|
  }

  /** The clauses of the check on the buckets of `t`. */
  ghost predicate BucketClauses(t: Table, chains: seq<seq<Elem>>, es: set<Elem>)
    reads t, t.buckets, es`hhPrev, es`hhNext
  {
    && |chains| == t.buckets.Length
    && (forall j, e :: 0 <= j < |chains| && e in chains[j] ==> e in es)
    && (forall j :: 0 <= j < |chains| ==> ChainLinks(t.buckets[j].head, chains[j]) && t.buckets[j].count == |chains[j]|)
    && SumLengths(chains) == t.numItems
  }

  /** Every pointer followed from `es` stays in `es`. */
  ghost predicate Closed(es: set<Elem>)
    reads es`next, es`hhNext
  {
    forall e :: e in es ==> (e.next != null ==> e.next in es) && (e.hhNext != null ==> e.hhNext in es)
  }

  lemma {:induction false} DistinctFits(s: seq<Elem>, es: set<Elem>)
    requires Distinct(s) && forall e :: e in s ==> e in es
    ensures |s| <= |es|
  {
    if s != [] {
      var last := s[|s| - 1];
      var front := s[..|s| - 1];
      assert s == front + [last];
      DistinctFits(front, es - {last});
    }
  }

  /** The walk so far: a path from `head`, with right back-links. */
  ghost predicate ChainPrefix(head: Elem?, p: seq<Elem>)
    reads p`hhPrev, p`hhNext
  {
    && (p != [] ==> head == p[0])
    && (forall i {:trigger p[i].hhPrev} :: 0 <= i < |p| ==> p[i].hhPrev == At(p, i - 1))
    && (forall i {:trigger p[i].hhNext} :: 0 <= i < |p| - 1 ==> p[i].hhNext == p[i + 1])
  }

  /** A walk is a prefix of any whole chain from the same head. */
  lemma {:induction false} ChainDetermined(head: Elem?, p: seq<Elem>, c: seq<Elem>)
    requires ChainPrefix(head, p) && ChainLinks(head, c)
    ensures p <= c && At(c, |p|) == if p == [] then head else p[|p| - 1].hhNext
  {
    if p != [] {
      var n := |p| - 1;
      var q := p[..n];
      assert ChainPrefix(head, q) by {
        forall i | 0 <= i < n - 1 ensures q[i].hhNext == q[i + 1] { assert p[i].hhNext == p[i + 1]; }
        forall i | 0 <= i < n ensures q[i].hhPrev == At(q, i - 1) { assert p[i].hhPrev == At(p, i - 1); }
      }
      ChainDetermined(head, q, c);
      assert n > 0 ==> p[n - 1].hhNext == p[n];
      assert c[n] == p[n] && c[n].hhNext == At(c, n + 1);
    }
  }

  /** A wrong back-link after a walk rules out every whole chain. */
  lemma ChainBroken(head: Elem?, p: seq<Elem>, e: Elem, c: seq<Elem>)
    requires ChainPrefix(head, p) && e == (if p == [] then head else p[|p| - 1].hhNext)
    requires e.hhPrev != At(p, |p| - 1)
    ensures !ChainLinks(head, c)
  {
    if ChainLinks(head, c) {
      ChainDetermined(head, p, c);
    }
  }

  /** The inner loop of the bucket half. */
  method WalkChain(head: Elem?, ghost es: set<Elem>) returns (ok: bool, count: nat, ghost c: seq<Elem>)
    requires Closed(es) && (head != null ==> head in es)
    ensures ok ==> ChainLinks(head, c) && count == |c| && forall e :: e in c ==> e in es
    ensures !ok ==> forall d: seq<Elem> :: !ChainLinks(head, d)
  {
    var thh, prev: Elem? := head, null;
    count, c := 0, [];
    while thh != null
      invariant ChainPrefix(head, c) && Distinct(c) && |c| == count && (forall e :: e in c ==> e in es)
      invariant prev == At(c, count - 1) && thh == (if count == 0 then head else c[count - 1].hhNext)
      invariant thh != null ==> thh in es
      invariant |c| <= |es|
      decreases |es| - count
    {
      if prev != thh.hhPrev {
        forall d: seq<Elem>
          ensures !ChainLinks(head, d)
        {
          ChainBroken(head, c, thh, d);
        }
        return false, count, c;
      }
      count := count + 1;
      prev := thh;
      c := c + [thh];
      DistinctFits(c, es);
      thh := thh.hhNext;
    }
    ok := true;
  }

  /** The walk so far: a path from `head`, with right back-links. */
  ghost predicate AppPrefix(head: Elem?, p: seq<Elem>)
    reads p`prev, p`next
  {
    && (p != [] ==> head == p[0])
    && (forall i {:trigger p[i].prev} :: 0 <= i < |p| ==> p[i].prev == At(p, i - 1))
    && (forall i {:trigger p[i].next} :: 0 <= i < |p| - 1 ==> p[i].next == p[i + 1])
  }

  /** A walk is a prefix of any whole list from the same head. */
  lemma {:induction false} AppDetermined(head: Elem?, p: seq<Elem>, c: seq<Elem>)
    requires AppPrefix(head, p) && AppLinks(head, c)
    ensures p <= c && At(c, |p|) == if p == [] then head else p[|p| - 1].next
  {
    if p != [] {
      var n := |p| - 1;
      var q := p[..n];
      assert AppPrefix(head, q) by {
        forall i | 0 <= i < n - 1 ensures q[i].next == q[i + 1] { assert p[i].next == p[i + 1]; }
        forall i | 0 <= i < n ensures q[i].prev == At(q, i - 1) { assert p[i].prev == At(p, i - 1); }
      }
      AppDetermined(head, q, c);
      assert n > 0 ==> p[n - 1].next == p[n];
      assert c[n] == p[n] && c[n].next == At(c, n + 1);
    }
  }

  /** A wrong back-link after a walk rules out every whole list. */
  lemma AppBroken(head: Elem?, p: seq<Elem>, e: Elem, c: seq<Elem>)
    requires AppPrefix(head, p) && e == (if p == [] then head else p[|p| - 1].next)
    requires e.prev != At(p, |p| - 1)
    ensures !AppLinks(head, c)
  {
    if AppLinks(head, c) {
      AppDetermined(head, p, c);
    }
  }

  /** The inner loop of the application-order half. */
  method WalkApp(head: Elem?, ghost es: set<Elem>) returns (ok: bool, count: nat, ghost c: seq<Elem>)
    requires Closed(es) && (head != null ==> head in es)
    ensures ok ==> AppLinks(head, c) && count == |c| && forall e :: e in c ==> e in es
    ensures !ok ==> forall d: seq<Elem> :: !AppLinks(head, d)
  {
    var thh, last: Elem? := head, null;
    count, c := 0, [];
    while thh != null
      invariant AppPrefix(head, c) && Distinct(c) && |c| == count && (forall e :: e in c ==> e in es)
      invariant last == At(c, count - 1) && thh == (if count == 0 then head else c[count - 1].next)
      invariant thh != null ==> thh in es
      invariant |c| <= |es|
      decreases |es| - count
    {
      if last != thh.prev {
        forall d: seq<Elem>
          ensures !AppLinks(head, d)
        {
          AppBroken(head, c, thh, d);
        }
        return false, count, c;
      }
      count := count + 1;
      last := thh;
      c := c + [thh];
      DistinctFits(c, es);
      thh := thh.next;
    }
    ok := true;
  }

  /** What the check demands of a non-empty hash. */
  ghost predicate Clauses(head: Elem, t: Table, chains: seq<seq<Elem>>, order: seq<Elem>, es: set<Elem>)
    reads t, t.buckets, es`hhPrev, es`hhNext, order`prev, order`next
  {
    && BucketClauses(t, chains, es)
    && AppLinks(head, order) && |order| == t.numItems
  }

  /** The bucket half of HASH_FSCK. */
  method CheckBuckets(t: Table, ghost es: set<Elem>) returns (ok: bool, ghost chains: seq<seq<Elem>>)
    requires Closed(es) && t.buckets.Length == t.numBuckets
    requires forall j :: 0 <= j < t.buckets.Length && t.buckets[j].head != null ==> t.buckets[j].head in es
    ensures ok ==> BucketClauses(t, chains, es)
    ensures !ok ==> forall cs: seq<seq<Elem>> :: !BucketClauses(t, cs, es)
  {
    var count := 0;
    chains := [];
    var i := 0;
    while i < t.numBuckets
      invariant i <= t.numBuckets && |chains| == i && SumLengths(chains) == count
      invariant forall j, e :: 0 <= j < i && e in chains[j] ==> e in es
      invariant forall j :: 0 <= j < i ==> ChainLinks(t.buckets[j].head, chains[j]) && t.buckets[j].count == |chains[j]|
    {
      var good, n;
      ghost var c;
      good, n, c := WalkChain(t.buckets[i].head, es);
      if !good || t.buckets[i].count != n {
        forall cs: seq<seq<Elem>>
          ensures !BucketClauses(t, cs, es)
        {
          BadBucket(t, i, good, c, cs, es);
        }
        return false, chains;
      }
      count := count + n;
      assert (chains + [c])[..i] == chains;
      chains := chains + [c];
      i := i + 1;
    }
    ok := count == t.numItems;
    if !ok {
      forall cs: seq<seq<Elem>>
        ensures !BucketClauses(t, cs, es)
      {
        if BucketClauses(t, cs, es) {
          SameChains(t, chains, cs);
        }
      }
    }
  }

  lemma BadBucket(t: Table, i: nat, good: bool, c: seq<Elem>, cs: seq<seq<Elem>>, es: set<Elem>)
    requires i < t.buckets.Length
    requires if good then ChainLinks(t.buckets[i].head, c) && t.buckets[i].count != |c|
             else forall d: seq<Elem> :: !ChainLinks(t.buckets[i].head, d)
    ensures !BucketClauses(t, cs, es)
  {
    if BucketClauses(t, cs, es) {
      assert ChainLinks(t.buckets[i].head, cs[i]);
      if good {
        SameChain(t.buckets[i].head, c, cs[i]);
      }
    }
  }

  /** There is at most one whole chain from a head. */
  lemma SameChain(head: Elem?, c: seq<Elem>, d: seq<Elem>)
    requires ChainLinks(head, c) && ChainLinks(head, d)
    ensures c == d
  {
    assert ChainPrefix(head, c) && ChainPrefix(head, d);
    ChainDetermined(head, c, d);
    ChainDetermined(head, d, c);
  }

  lemma SameChains(t: Table, chains: seq<seq<Elem>>, cs: seq<seq<Elem>>)
    requires |chains| == |cs| == t.buckets.Length
    requires forall j :: 0 <= j < |cs| ==>
               ChainLinks(t.buckets[j].head, chains[j]) && ChainLinks(t.buckets[j].head, cs[j])
    ensures chains == cs
  {
    forall j | 0 <= j < |cs|
      ensures chains[j] == cs[j]
    {
      SameChain(t.buckets[j].head, chains[j], cs[j]);
    }
  }

  lemma SameApp(head: Elem?, c: seq<Elem>, d: seq<Elem>)
    requires AppLinks(head, c) && AppLinks(head, d)
    ensures c == d
  {
    assert AppPrefix(head, c) && AppPrefix(head, d);
    AppDetermined(head, c, d);
    AppDetermined(head, d, c);
  }

  /** HASH_FSCK: it terminates on every heap, and accepts exactly the heaps that meet its clauses. */
  method Fsck(head: Elem?, ghost es: set<Elem>)
    returns (ok: bool, ghost chains: seq<seq<Elem>>, ghost order: seq<Elem>)
    requires Closed(es)
    requires head != null ==> head in es && head.tbl != null && head.tbl.buckets.Length == head.tbl.numBuckets
    requires head != null ==> forall j {:trigger head.tbl.buckets[j]} ::
                                0 <= j < head.tbl.buckets.Length && head.tbl.buckets[j].head != null ==>
                                  head.tbl.buckets[j].head in es
    ensures head == null ==> ok
    ensures head != null && ok ==> Clauses(head, head.tbl, chains, order, es)
    ensures head != null && !ok ==> forall cs: seq<seq<Elem>>, s: seq<Elem> :: !Clauses(head, head.tbl, cs, s, es)
  {
    ok, chains, order := true, [], [];
    if head != null {
      ok, chains := CheckBuckets(head.tbl, es);
      if ok {
        var good, count;
        good, count, order := WalkApp(head, es);
        ok := good && count == head.tbl.numItems;
        if !ok {
          forall cs: seq<seq<Elem>>, s: seq<Elem>
            ensures !Clauses(head, head.tbl, cs, s, es)
          {
            if good && AppLinks(head, s) {
              SameApp(head, order, s);
            }
          }
        }
      }
    }
  }

  lemma {:induction false} CountsAddUp(bkts: seq<Slot>, chains: seq<seq<Elem>>)
    requires |bkts| == |chains| && forall j :: 0 <= j < |bkts| ==> bkts[j].count == |chains[j]|
    ensures SumLengths(chains) == TotalCount(bkts)
  {
    if bkts != [] {
      CountsAddUp(bkts[..|bkts| - 1], chains[..|bkts| - 1]);
    }
  }

  /** Every hash reached through the operations passes the check. */
  lemma ValidPasses(h: Hash)
    requires h.Valid() && h.head != null
    ensures Clauses(h.head, h.head.tbl, h.head.tbl.chains, h.order, Elems(h.order))
  {
    var t := h.head.tbl;
    ValidBuckets(t, Elems(h.order));
  }

  lemma ValidBuckets(t: Table, es: set<Elem>)
    requires t.Valid(es)
    ensures BucketClauses(t, t.chains, es)
  {
    hide TotalCount, SumLengths;
    var bkts, chains := t.buckets[..], t.chains;
    forall j | 0 <= j < |chains|
      ensures ChainLinks(bkts[j].head, chains[j]) && bkts[j].count == |chains[j]|
      ensures forall e :: e in chains[j] ==> e in es
    {
      assert Chain(bkts[j], chains[j]) && Housed(chains[j], es, t.fcn, j, |chains|);
    }
    CountsAddUp(bkts, chains);
  }

  /** The pointers of a valid hash stay among its elements. */
  lemma ValidClosed(h: Hash)
    requires h.Valid() && h.head != null
    ensures Closed(Elems(h.order)) && h.head in Elems(h.order)
    ensures h.head.tbl.buckets.Length == h.head.tbl.numBuckets
    ensures forall j {:trigger h.head.tbl.buckets[j]} ::
              0 <= j < h.head.tbl.buckets.Length && h.head.tbl.buckets[j].head != null ==>
                h.head.tbl.buckets[j].head in Elems(h.order)
  {
    var t, es := h.head.tbl, Elems(h.order);
    forall e | e in es
      ensures e.next != null ==> e.next in es
      ensures e.hhNext != null ==> e.hhNext in es
    {
      var i :| 0 <= i < |h.order| && h.order[i] == e;
      assert h.order[i].next == At(h.order, i + 1);
      ChainStaysIn(t, es, e);
    }
    forall j | 0 <= j < t.buckets.Length && t.buckets[j].head != null
      ensures t.buckets[j].head in es
    {
      assert Chain(t.buckets[..][j], t.chains[j]) && Housed(t.chains[j], es, t.fcn, j, |t.chains|);
    }
  }

  lemma ChainStaysIn(t: Table, es: set<Elem>, e: Elem)
    requires t.Valid(es) && e in es
    ensures e.hhNext != null ==> e.hhNext in es
  {
    hide TotalCount, History, Excess, Potential;
    var j := Home(e, t.fcn, |t.chains|);
    var c := t.chains[j];
    assert e in c;
    var i :| 0 <= i < |c| && c[i] == e;
    assert Chain(t.buckets[..][j], c) && Housed(c, es, t.fcn, j, |t.chains|);
    assert c[i].hhNext == At(c, i + 1);
  }

  /** HASH_FSCK on a hash that the operations built: it never complains. */
  method CheckHash(h: Hash) returns (ok: bool)
    requires h.Valid()
    ensures ok
  {
    hide Hash.Valid;
    HeadOrEmpty(h);
    if h.head != null {
      ValidClosed(h);
    }
    ghost var chains, order;
    ok, chains, order := Fsck(h.head, Elems(h.order));
    if h.head != null {
      ValidPasses(h);
    }
  }

  lemma HeadOrEmpty(h: Hash)
    requires h.Valid()
    ensures h.head == null ==> Closed(Elems(h.order))
    ensures h.head != null ==> h.head.tbl != null
  {
  }
}
