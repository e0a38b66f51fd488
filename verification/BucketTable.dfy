/**
 The bucket side of the intrusive hash table: each bucket heads a doubly linked
 chain through its elements, the number of buckets doubles when a chain grows too
 long, and the hash function is any function of the key. The ghost field `chains`
 holds the elements of every chain in order; `expansions` records which doublings
 were ineffective.
 */
module BucketTable {
  import opened Sequences
  import opened Words
  import opened ChainPolicy
  import opened Options
  import Bloom

  type Key = seq<nat>
  type HashFcn = Key -> nat
  type Slot = Bucket<Elem?>

  class Elem {
    const key: Key
    var hashv: nat
    var tbl: Table?
    var prev: Elem?
    var next: Elem?
    var hhPrev: Elem?
    var hhNext: Elem?

    constructor (key: Key)
      ensures this.key == key
    {
      this.key := key;
    }
  }

  /** The bucket that an element hashes to among `n` buckets. */
  ghost function Home(e: Elem, fcn: HashFcn, n: nat): nat
    requires n > 0
  {
    fcn(e.key) % n
  }

  ghost function At(c: seq<Elem>, i: int): Elem? {
    if 0 <= i < |c| then c[i] else null
  }

  /** `c` is a whole chain from `head`, with right links in both directions. */
  ghost predicate ChainLinks(head: Elem?, c: seq<Elem>)
    reads c`hhPrev, c`hhNext
  {
    && head == At(c, 0)
    && (forall i {:trigger c[i].hhPrev} :: 0 <= i < |c| ==> c[i].hhPrev == At(c, i - 1))
    && (forall i {:trigger c[i].hhNext} :: 0 <= i < |c| ==> c[i].hhNext == At(c, i + 1))
  }

  /** `c` is the chain of bucket `b`, which counts it. */
  ghost predicate Chain(b: Slot, c: seq<Elem>)
    reads c`hhPrev, c`hhNext
  {
    b.count == |c| && Distinct(c) && ChainLinks(b.head, c)
  }

  /** Every bucket has a well-formed chain, of elements of `es` that hash to it. */
  ghost predicate Chains(bkts: seq<Slot>, chains: seq<seq<Elem>>, es: set<Elem>, fcn: HashFcn)
    reads es`hhPrev, es`hhNext
  {
    && |bkts| == |chains| > 0
    && (forall j :: 0 <= j < |chains| ==> Housed(chains[j], es, fcn, j, |chains|))
    && (forall j :: 0 <= j < |chains| ==> Chain(bkts[j], chains[j]))
  }

  ghost predicate Housed(c: seq<Elem>, es: set<Elem>, fcn: HashFcn, j: nat, n: nat)
    requires n > 0
  {
    forall e :: e in c ==> e in es && Home(e, fcn, n) == j
  }

  /** No element is missing from its chain. */
  ghost predicate Located(chains: seq<seq<Elem>>, es: set<Elem>, fcn: HashFcn)
    requires |chains| > 0
  {
    forall e :: e in es ==> e in chains[Home(e, fcn, |chains|)]
  }

  /** What bucket `j` of `n` receives from chain `s`, in the order it is met. */
  ghost function Select(s: seq<Elem>, fcn: HashFcn, j: nat, n: nat): seq<Elem>
    requires n > 0
  {
    if s == [] then []
    else
      var l := |s| - 1;
      Select(s[..l], fcn, j, n) + (if Home(s[l], fcn, n) == j then [s[l]] else [])
  }

  /** Pushing onto the front reverses it. */
  ghost function Split(s: seq<Elem>, fcn: HashFcn, j: nat, n: nat): seq<Elem>
    requires n > 0
  {
    Reverse(Select(s, fcn, j, n))
  }

  lemma SplitStep(s: seq<Elem>, k: nat, fcn: HashFcn, j: nat, n: nat)
    requires n > 0 && k < |s|
    ensures Split(s[..k + 1], fcn, j, n) ==
            if Home(s[k], fcn, n) == j then [s[k]] + Split(s[..k], fcn, j, n) else Split(s[..k], fcn, j, n)
  {
    assert s[..k + 1][..k] == s[..k];
    if Home(s[k], fcn, n) == j {
      ReverseSnoc(Select(s[..k], fcn, j, n), s[k]);
    } else {
      assert Select(s[..k], fcn, j, n) + [] == Select(s[..k], fcn, j, n);
    }
  }

  lemma {:induction false} SplitMembers(s: seq<Elem>, fcn: HashFcn, j: nat, n: nat)
    requires n > 0
    ensures forall e :: e in Split(s, fcn, j, n) <==> e in s && Home(e, fcn, n) == j
  {
    if s != [] {
      var k := |s| - 1;
      SplitStep(s, k, fcn, j, n);
      assert s[..k + 1] == s;
      SplitMembers(s[..k], fcn, j, n);
      assert s == s[..k] + [s[k]];
    }
  }

  method PushLinks(b: Slot, e: Elem, ghost c: seq<Elem>) returns (r: Slot)
    requires Chain(b, c) && e !in c
    modifies e`hhPrev, e`hhNext, c`hhPrev
    ensures Chain(r, [e] + c) && r.mult == b.mult
  {
    e.hhPrev := null;
    e.hhNext := b.head;
    if b.head != null {
      b.head.hhPrev := e;
    }
    r := b.(head := e, count := b.count + 1);
  }

  /** Put `e` in front of chain `j`. */
  method PushFront(bkts: array<Slot>, j: nat, e: Elem,
                   ghost chains: seq<seq<Elem>>, ghost es: set<Elem>, ghost fcn: HashFcn)
    requires Chains(bkts[..], chains, es, fcn) && j < |chains| && Home(e, fcn, |chains|) == j
    requires e in es && e !in chains[j]
    modifies bkts, e`hhPrev, e`hhNext, chains[j]`hhPrev
    ensures Chains(bkts[..], chains[j := [e] + chains[j]], es, fcn)
    ensures bkts[j].count == old(bkts[j].count) + 1 && bkts[j].mult == old(bkts[j].mult)
    ensures bkts[..] == old(bkts[..])[j := bkts[j]]
  {
    var b := PushLinks(bkts[j], e, chains[j]);
    forall i | 0 <= i < |chains| && i != j
      ensures Chain(bkts[i], chains[i])
    {
      assert old(Chain(bkts[i], chains[i]));
      assert Housed(chains[i], es, fcn, i, |chains|) && Housed(chains[j], es, fcn, j, |chains|);
      assert forall k {:trigger chains[i][k]} :: 0 <= k < |chains[i]| ==>
        chains[i][k] in chains[i] && chains[i][k] !in chains[j];
    }
    bkts[j] := b;
    assert Housed([e] + chains[j], es, fcn, j, |chains|);
  }

  method DeleteLinks(b: Slot, e: Elem, ghost c: seq<Elem>, ghost k: nat) returns (r: Slot)
    requires Chain(b, c) && k < |c| && c[k] == e
    modifies c`hhPrev, c`hhNext
    ensures Chain(r, RemoveAt(c, k)) && r.mult == b.mult
  {
    r := b.(count := b.count - 1);
    if r.head == e {
      r := r.(head := e.hhNext);
    }
    if e.hhPrev != null {
      e.hhPrev.hhNext := e.hhNext;
    }
    if e.hhNext != null {
      e.hhNext.hhPrev := e.hhPrev;
    }
    RemoveAtMembers(c, k);
  }

  /** HASH_DEL_IN_BKT */
  method DeleteInBucket(bkts: array<Slot>, j: nat, e: Elem,
                        ghost chains: seq<seq<Elem>>, ghost es: set<Elem>, ghost fcn: HashFcn, ghost k: nat)
    requires Chains(bkts[..], chains, es, fcn) && j < |chains| && k < |chains[j]| && chains[j][k] == e
    modifies bkts, chains[j]`hhPrev, chains[j]`hhNext
    ensures Chains(bkts[..], chains[j := RemoveAt(chains[j], k)], es - {e}, fcn)
    ensures bkts[j].count == old(bkts[j].count) - 1 && bkts[j].mult == old(bkts[j].mult)
    ensures bkts[..] == old(bkts[..])[j := bkts[j]]
  {
    var b := DeleteLinks(bkts[j], e, chains[j], k);
    assert Housed(chains[j], es, fcn, j, |chains|);
    RemoveAtMembers(chains[j], k);
    forall i | 0 <= i < |chains| && i != j
      ensures Chain(bkts[i], chains[i]) && Housed(chains[i], es - {e}, fcn, i, |chains|)
    {
      assert old(Chain(bkts[i], chains[i]));
      assert Housed(chains[i], es, fcn, i, |chains|);
      assert e in chains[j];
      assert forall k {:trigger chains[i][k]} :: 0 <= k < |chains[i]| ==>
        chains[i][k] in chains[i] && chains[i][k] !in chains[j];
    }
    bkts[j] := b;
    assert Housed(RemoveAt(chains[j], k), es - {e}, fcn, j, |chains|);
  }

  /** The links of the part of the old chains that an expansion has yet to move. */
  ghost predicate Pending(chains: seq<seq<Elem>>, i: nat, k: nat, es: set<Elem>)
    requires forall j, x :: 0 <= j < |chains| && x in chains[j] ==> x in es
    reads es`hhNext
  {
    forall j, m {:trigger chains[j][m].hhNext} ::
      i <= j < |chains| && 0 <= m < |chains[j]| && (j == i ==> k <= m) ==>
        chains[j][m].hhNext == At(chains[j], m + 1)
  }

  /** The part of old chain `b` moved once all chains before `i`, and `k` items of chain `i`, are moved. */
  ghost function Moved(chains: seq<seq<Elem>>, i: nat, k: nat, b: nat): seq<Elem>
    requires b < |chains| && (i < |chains| ==> k <= |chains[i]|)
  {
    if b < i then chains[b] else if b == i then chains[i][..k] else []
  }

  /** The new chains once all old chains before `i`, and `k` items of chain `i`, are moved. */
  ghost predicate Redistributed(doubled: seq<seq<Elem>>, chains: seq<seq<Elem>>, i: nat, k: nat, fcn: HashFcn)
    requires |chains| > 0 && (i < |chains| ==> k <= |chains[i]|)
  {
    && |doubled| == 2 * |chains|
    && forall j :: 0 <= j < |doubled| ==> doubled[j] == Split(Moved(chains, i, k, j % |chains|), fcn, j, |doubled|)
  }

  lemma RedistributedStep(doubled: seq<seq<Elem>>, chains: seq<seq<Elem>>, i: nat, k: nat, fcn: HashFcn)
    requires i < |chains| && k < |chains[i]| && Redistributed(doubled, chains, i, k, fcn)
    requires Distinct(chains[i]) && Home(chains[i][k], fcn, |chains|) == i
    ensures var e := chains[i][k]; var j := Home(e, fcn, |doubled|);
            e !in doubled[j] && Redistributed(doubled[j := [e] + doubled[j]], chains, i, k + 1, fcn)
  {
    var e := chains[i][k];
    var n := |chains|;
    var h := Home(e, fcn, |doubled|);
    ModDouble(fcn(e.key), n);
    assert h % n == i;
    assert doubled[h] == Split(chains[i][..k], fcn, h, 2 * n);
    SplitMembers(chains[i][..k], fcn, h, 2 * n);
    var after := doubled[h := [e] + doubled[h]];
    forall j | 0 <= j < |after|
      ensures after[j] == Split(Moved(chains, i, k + 1, j % n), fcn, j, |after|)
    {
      if j % n == i {
        SplitStep(chains[i], k, fcn, j, 2 * n);
      }
    }
  }

  lemma LocatedAfter(doubled: seq<seq<Elem>>, chains: seq<seq<Elem>>, es: set<Elem>, fcn: HashFcn)
    requires |chains| > 0 && Redistributed(doubled, chains, |chains|, 0, fcn) && Located(chains, es, fcn)
    ensures Located(doubled, es, fcn)
  {
    var n := |chains|;
    forall e | e in es
      ensures e in doubled[Home(e, fcn, 2 * n)]
    {
      var j := Home(e, fcn, 2 * n);
      ModDouble(fcn(e.key), n);
      assert j % n == Home(e, fcn, n);
      SplitMembers(chains[j % n], fcn, j, 2 * n);
    }
  }

  /** One bucket of the new array takes `e`: count, back-off multiplier and links. */
  method MoveOne(bkts: array<Slot>, j: nat, e: Elem, ideal: nat,
                 ghost chains: seq<seq<Elem>>, ghost es: set<Elem>, ghost fcn: HashFcn) returns (over: bool)
    requires Chains(bkts[..], chains, es, fcn) && j < |chains| && Home(e, fcn, |chains|) == j
    requires e in es && e !in chains[j] && ideal > 0 && MultFor(bkts[j], ideal)
    modifies bkts, e`hhPrev, e`hhNext, chains[j]`hhPrev
    ensures Chains(bkts[..], chains[j := [e] + chains[j]], es, fcn)
    ensures bkts[..] == old(bkts[..])[j := bkts[j]]
    ensures bkts[j].count == old(bkts[j].count) + 1 && MultFor(bkts[j], ideal)
    ensures over == (bkts[j].count > ideal)
  {
    over := bkts[j].count + 1 > ideal;
    if over {
      bkts[j] := bkts[j].(mult := (bkts[j].count + 1) / ideal);
    }
    assert forall i :: 0 <= i < |chains| ==>
      Chain(old(bkts[..])[i], chains[i]) && Housed(chains[i], es, fcn, i, |chains|);
    PushFront(bkts, j, e, chains, es, fcn);
  }

  /** The statistics of a bucket array under the ideal chain length of the expansion filling it. */
  ghost predicate Tallied(bkts: seq<Slot>, ideal: nat, moved: nat, nonideal: nat) {
    && TotalCount(bkts) == moved
    && Excess(bkts, ideal) == nonideal
    && forall i :: 0 <= i < |bkts| ==> MultFor(bkts[i], ideal)
  }

  ghost predicate Moving(bkts: seq<Slot>, doubled: seq<seq<Elem>>, chains: seq<seq<Elem>>, i: nat, k: nat,
                         es: set<Elem>, fcn: HashFcn)
    reads es`hhPrev, es`hhNext, es`hashv
  {
    && Partitioned(chains, es, fcn)
    && (i < |chains| ==> k <= |chains[i]|)
    && Chains(bkts, doubled, es, fcn)
    && Redistributed(doubled, chains, i, k, fcn)
    && Pending(chains, i, k, es)
    && (forall e :: e in es ==> e.hashv == fcn(e.key))
  }

  /** The chains hold elements of `es`, each hashing to its chain, without repetition. */
  ghost predicate Partitioned(chains: seq<seq<Elem>>, es: set<Elem>, fcn: HashFcn) {
    && |chains| > 0
    && forall j :: 0 <= j < |chains| ==> Distinct(chains[j]) && Housed(chains[j], es, fcn, j, |chains|)
  }

  /** Only `e` is new, and it is in no chain yet. */
  lemma ChainsGrow(slots: seq<Slot>, chains: seq<seq<Elem>>, es: set<Elem>, e: Elem, fcn: HashFcn)
    requires Chains(slots, chains, es, fcn) && Located(chains, es, fcn) && e !in es
    ensures Chains(slots, chains, es + {e}, fcn)
    ensures forall j :: 0 <= j < |chains| ==> e !in chains[j]
    ensures var j := Home(e, fcn, |chains|); Located(chains[j := [e] + chains[j]], es + {e}, fcn)
  {
    forall j | 0 <= j < |chains|
      ensures Chain(slots[j], chains[j]) && Housed(chains[j], es + {e}, fcn, j, |chains|) && e !in chains[j]
    {
      assert Housed(chains[j], es, fcn, j, |chains|);
    }
  }

  lemma LocatedDrop(slots: seq<Slot>, chains: seq<seq<Elem>>, es: set<Elem>, e: Elem, fcn: HashFcn) returns (k: nat)
    requires Chains(slots, chains, es, fcn) && Located(chains, es, fcn) && e in es
    ensures var j := Home(e, fcn, |chains|);
            k < |chains[j]| && chains[j][k] == e && Located(chains[j := RemoveAt(chains[j], k)], es - {e}, fcn)
  {
    var j := Home(e, fcn, |chains|);
    k :| 0 <= k < |chains[j]| && chains[j][k] == e;
    assert Chain(slots[j], chains[j]);
    RemoveAtMembers(chains[j], k);
  }

  lemma ChainsShape(slots: seq<Slot>, chains: seq<seq<Elem>>, es: set<Elem>, fcn: HashFcn)
    requires Chains(slots, chains, es, fcn)
    ensures |slots| == |chains|
    ensures forall j :: 0 <= j < |chains| ==> slots[j].count == |chains[j]| && slots[j].head == At(chains[j], 0)
  {
    assert forall j :: 0 <= j < |chains| ==> Chain(slots[j], chains[j]);
  }

  lemma MovingStarts(bkts: seq<Slot>, doubled: seq<seq<Elem>>, slots: seq<Slot>, chains: seq<seq<Elem>>,
                     es: set<Elem>, fcn: HashFcn)
    requires Chains(slots, chains, es, fcn) && Chains(bkts, doubled, es, fcn) && |doubled| == 2 * |chains|
    requires forall j :: 0 <= j < |doubled| ==> doubled[j] == []
    requires forall e :: e in es ==> e.hashv == fcn(e.key)
    ensures Moving(bkts, doubled, chains, 0, 0, es, fcn)
  {
    assert forall j :: 0 <= j < |chains| ==> Chain(slots[j], chains[j]);
  }

  lemma MovingNext(bkts: seq<Slot>, doubled: seq<seq<Elem>>, chains: seq<seq<Elem>>, i: nat,
                   es: set<Elem>, fcn: HashFcn)
    requires i < |chains| && Moving(bkts, doubled, chains, i, |chains[i]|, es, fcn)
    ensures Moving(bkts, doubled, chains, i + 1, 0, es, fcn)
  {
    forall j | 0 <= j < |doubled|
      ensures Moved(chains, i + 1, 0, j % |chains|) == Moved(chains, i, |chains[i]|, j % |chains|)
    {
    }
  }

  lemma MovingEnds(bkts: seq<Slot>, doubled: seq<seq<Elem>>, chains: seq<seq<Elem>>, es: set<Elem>, fcn: HashFcn)
    requires Moving(bkts, doubled, chains, |chains|, 0, es, fcn) && Located(chains, es, fcn)
    ensures Chains(bkts, doubled, es, fcn) && Located(doubled, es, fcn)
    ensures Redistributed(doubled, chains, |chains|, 0, fcn)
  {
    LocatedAfter(doubled, chains, es, fcn);
  }

  lemma TallyStep(bs: seq<Slot>, j: nat, b: Slot, ideal: nat, moved: nat, nonideal: nat)
    requires Tallied(bs, ideal, moved, nonideal) && j < |bs| && b.count == bs[j].count + 1 && MultFor(b, ideal)
    ensures Tallied(bs[j := b], ideal, moved + 1, nonideal + if b.count > ideal then 1 else 0)
  {
    UpdateSums(bs, j, b, ideal);
  }

  /** One turn of the inner loop: item `k` of old chain `i` goes to the front of its new chain. */
  method MoveStep(bkts: array<Slot>, e: Elem, lb: nat, ideal: nat, ghost moved: nat, ghost nonideal: nat,
                  ghost doubled: seq<seq<Elem>>, ghost chains: seq<seq<Elem>>, ghost i: nat, ghost k: nat,
                  ghost es: set<Elem>, ghost fcn: HashFcn)
    returns (over: bool, ghost result: seq<seq<Elem>>)
    requires |chains| == Pow2(lb) && i < |chains| && k < |chains[i]| && chains[i][k] == e && ideal > 0
    requires Moving(bkts[..], doubled, chains, i, k, es, fcn)
    requires Tallied(bkts[..], ideal, moved, nonideal)
    modifies bkts, es`hhPrev, es`hhNext
    ensures Moving(bkts[..], result, chains, i, k + 1, es, fcn)
    ensures Tallied(bkts[..], ideal, moved + 1, nonideal + if over then 1 else 0)
  {
    hide Split, Select, Reverse, TotalCount, Excess;
    assert e in chains[i] && Housed(chains[i], es, fcn, i, |chains|);
    var j := And(e.hashv, 2 * Pow2(lb) - 1);
    assert j == Home(e, fcn, |doubled|) by {
      MaskIsMod(e.hashv, lb + 1);
    }
    RedistributedStep(doubled, chains, i, k, fcn);
    assert Housed(doubled[j], es, fcn, j, |doubled|);
    over := MoveOne(bkts, j, e, ideal, doubled, es, fcn);
    forall c, m | i <= c < |chains| && 0 <= m < |chains[c]| && (c == i ==> k + 1 <= m)
      ensures chains[c][m].hhNext == At(chains[c], m + 1)
    {
      assert old(chains[c][m].hhNext) == At(chains[c], m + 1);
      assert chains[c][m] in chains[c] && Housed(chains[c], es, fcn, c, |chains|);
      assert chains[c][m] != e;
    }
    TallyStep(old(bkts[..]), j, bkts[j], ideal, moved, nonideal);
    result := doubled[j := [e] + doubled[j]];
  }

  /** The inner loop of an expansion: walk one old chain, moving each item to its new bucket. */
  method MoveChain(bkts: array<Slot>, head: Elem?, lb: nat, ideal: nat, count: nat, ghost moved: nat,
                   ghost doubled: seq<seq<Elem>>, ghost chains: seq<seq<Elem>>, ghost i: nat, ghost es: set<Elem>,
                   ghost fcn: HashFcn)
    returns (nonideal: nat, ghost result: seq<seq<Elem>>)
    requires |chains| == Pow2(lb) && i < |chains| && head == At(chains[i], 0) && ideal > 0
    requires Moving(bkts[..], doubled, chains, i, 0, es, fcn)
    requires Tallied(bkts[..], ideal, moved, count)
    modifies bkts, es`hhPrev, es`hhNext
    ensures Moving(bkts[..], result, chains, i, |chains[i]|, es, fcn)
    ensures Tallied(bkts[..], ideal, moved + |chains[i]|, nonideal)
  {
    hide Redistributed, Tallied, Pow2;
    nonideal, result := count, doubled;
    ghost var k := 0;
    var e := head;
    while e != null
      invariant k <= |chains[i]| && e == At(chains[i], k)
      invariant Moving(bkts[..], result, chains, i, k, es, fcn)
      invariant Tallied(bkts[..], ideal, moved + k, nonideal)
      decreases |chains[i]| - k
    {
      var nxt := e.hhNext;
      var over;
      over, result := MoveStep(bkts, e, lb, ideal, moved + k, nonideal, result, chains, i, k, es, fcn);
      nonideal := nonideal + if over then 1 else 0;
      e, k := nxt, k + 1;
    }
  }

  /** A zeroed bucket array. */
  method EmptyBuckets(n: nat, ideal: nat, ghost es: set<Elem>, ghost fcn: HashFcn)
    returns (bkts: array<Slot>, nonideal: nat, ghost chains: seq<seq<Elem>>)
    requires n > 0
    ensures fresh(bkts) && bkts.Length == n
    ensures Chains(bkts[..], chains, es, fcn) && |chains| == n && forall j :: 0 <= j < n ==> chains[j] == []
    ensures Tallied(bkts[..], ideal, 0, nonideal) && Potential(bkts[..]) == 9 * n
  {
    bkts := new Slot[n](_ => Bucket(null, 0, 0));
    nonideal := 0;
    chains := EmptyChains(n);
    FreshSums(bkts[..], ideal);
  }

  /** The loops of an expansion: fill an array of twice as many buckets from the old chains. */
  method Redistribute(bkts: array<Slot>, lb: nat, ideal: nat,
                      ghost chains: seq<seq<Elem>>, ghost es: set<Elem>, ghost fcn: HashFcn)
    returns (doubled: array<Slot>, nonideal: nat, ghost result: seq<seq<Elem>>)
    requires bkts.Length == Pow2(lb) && ideal > 0
    requires Chains(bkts[..], chains, es, fcn) && Located(chains, es, fcn)
    requires forall e :: e in es ==> e.hashv == fcn(e.key)
    modifies es`hhPrev, es`hhNext
    ensures fresh(doubled) && doubled.Length == 2 * bkts.Length
    ensures Chains(doubled[..], result, es, fcn) && Located(result, es, fcn)
    ensures Redistributed(result, chains, |chains|, 0, fcn)
    ensures Tallied(doubled[..], ideal, TotalCount(bkts[..]), nonideal)
  {
    hide Redistributed, Tallied, Moving, Pow2, Located, Chains, TotalCount;
    ghost var before := bkts[..];
    ChainsShape(before, chains, es, fcn);
    doubled, nonideal, result := EmptyBuckets(2 * bkts.Length, ideal, es, fcn);
    MovingStarts(doubled[..], result, before, chains, es, fcn);
    var i := 0;
    TotalCountStart(before);
    while i < bkts.Length
      invariant i <= bkts.Length && bkts[..] == before
      invariant Moving(doubled[..], result, chains, i, 0, es, fcn)
      invariant Tallied(doubled[..], ideal, TotalCount(before[..i]), nonideal)
      modifies doubled, es`hhPrev, es`hhNext
    {
      nonideal, result := MoveChain(doubled, bkts[i].head, lb, ideal, nonideal, TotalCount(before[..i]), result,
                                    chains, i, es, fcn);
      MovingNext(doubled[..], result, chains, i, es, fcn);
      TotalCountStep(before, i);
      i := i + 1;
    }
    MovingEnds(doubled[..], result, chains, es, fcn);
    assert before[..i] == before;
  }

  ghost function EmptyChains(n: nat): (r: seq<seq<Elem>>)
    ensures |r| == n && forall j :: 0 <= j < n ==> r[j] == []
  {
    seq(n, _ => [])
  }

  /** Expansion is switched off exactly when the two most recent expansions were both ineffective. */
  ghost predicate History(log2NumBuckets: nat, ineffExpands: nat, noexpand: bool, expansions: seq<bool>) {
    var m := |expansions|;
    && log2NumBuckets == 5 + m
    && (noexpand <==> m >= 2 && expansions[m - 1] && expansions[m - 2])
    && ineffExpands == (if m > 0 && expansions[m - 1] then if noexpand then 2 else 1 else 0)
  }

  /** The ideal chain length for twice as many buckets, by shift and mask. */
  method IdealLength(items: nat, n: nat, lb: nat) returns (ideal: nat)
    requires n == Pow2(lb) && items > 0
    ensures IsCeiling(ideal, items, 2 * n) && ideal > 0
  {
    ideal := Shr(items, lb + 1) + (if And(items, 2 * n - 1) != 0 then 1 else 0);
    ShiftCeilIsCeiling(items, lb + 1);
  }

  lemma HistoryStep(lb: nat, ineff: nat, expansions: seq<bool>, ineffective: bool)
    requires History(lb, ineff, false, expansions)
    ensures var ineff' := if ineffective then ineff + 1 else 0;
            History(lb + 1, ineff', ineff' > 1, expansions + [ineffective])
  {
  }

  lemma FreshTable(bkts: seq<Slot>, fcn: HashFcn)
    requires |bkts| > 0 && forall j :: 0 <= j < |bkts| ==> bkts[j] == Bucket(null, 0, 0)
    ensures Chains(bkts, EmptyChains(|bkts|), {}, fcn) && Located(EmptyChains(|bkts|), {}, fcn)
    ensures TotalCount(bkts) == 0 && Bounded(bkts)
  {
    hide TotalCount, Potential;
    FreshSums(bkts, 0);
  }

  class Table {
    const fcn: HashFcn
    const bloom: Bloom.Filter?
    var buckets: array<Slot>
    var numBuckets: nat
    var log2NumBuckets: nat
    var numItems: nat
    var tail: Elem?
    var idealChainMaxlen: nat
    var nonidealItems: nat
    var ineffExpands: nat
    var noexpand: bool
    ghost var chains: seq<seq<Elem>>
    /** One entry an expansion: was it ineffective? */
    ghost var expansions: seq<bool>

    /** HASH_MAKE_TABLE: 32 empty buckets, and an empty Bloom filter when one is configured. */
    constructor (fcn: HashFcn, bloomBits: Option<nat>, head: Elem)
      ensures this.fcn == fcn && fresh(Parts()) && tail == head
      ensures Valid({}) && numItems == 0 && numBuckets == 32 && expansions == [] && chains == EmptyChains(32)
      ensures bloom == null <==> bloomBits == None
    {
      hide Chains, Located, Bounded, TotalCount, Bloom.Filter.Has;
      this.fcn := fcn;
      buckets := new Slot[32](_ => Bucket(null, 0, 0));
      numBuckets, log2NumBuckets, numItems, tail := 32, 5, 0, head;
      idealChainMaxlen, nonidealItems, ineffExpands, noexpand := 0, 0, 0, false;
      chains, expansions := EmptyChains(32), [];
      if bloomBits.Some? {
        var f := new Bloom.Filter(bloomBits.value);
        bloom := f;
      } else {
        bloom := null;
      }
      new;
      assert Pow2(5) == 32;
      FreshTable(buckets[..], fcn);
    }

    /** The objects a table consists of. */
    ghost function Parts(): set<object>
      reads this`buckets
    {
      var core: set<object> := {this, buckets};
      if bloom == null then core else core + {bloom, bloom.bv}
    }

    /** All of the table's invariant but the place of the tail. */
    ghost predicate Valid(es: set<Elem>)
      reads this`buckets, this`numBuckets, this`log2NumBuckets, this`numItems, this`chains
      reads this`idealChainMaxlen, this`ineffExpands, this`noexpand, this`expansions
      reads buckets, if bloom != null then {bloom.bv} else {}, es`hhPrev, es`hhNext, es`hashv, es`tbl
    {
      && BucketsOk(es)
      && TotalCount(buckets[..]) == numItems
      && HistoryOk()
      && PolicyOk()
      && BloomOk(es)
      && (bloom != null ==> (bloom.bv as object) != buckets)
      && forall e :: e in es ==> e.tbl == this
    }

    ghost function BloomBits(): set<object> {
      if bloom != null then {bloom.bv} else {}
    }

    /** The filter has no false negative. */
    ghost predicate BloomOk(es: set<Elem>)
      reads if bloom != null then {bloom.bv} else {}
    {
      bloom != null ==> bloom.Valid() && forall e :: e in es ==> bloom.Has(fcn(e.key))
    }

    /** The chain-length bound, kept while expansion is allowed. */
    ghost predicate PolicyOk()
      reads this`buckets, this`idealChainMaxlen, this`noexpand, buckets
    {
      && idealChainMaxlen <= THRESHOLD
      && (!noexpand ==> Bounded(buckets[..]))
    }

    /** The bucket side of the table's invariant, for the elements `es`. */
    ghost predicate BucketsOk(es: set<Elem>)
      reads this`buckets, this`numBuckets, this`log2NumBuckets, this`chains, buckets, es`hhPrev, es`hhNext, es`hashv
    {
      && buckets.Length == numBuckets == Pow2(log2NumBuckets)
      && Chains(buckets[..], chains, es, fcn)
      && Located(chains, es, fcn)
      && forall e :: e in es ==> e.hashv == fcn(e.key)
    }

    ghost predicate HistoryOk()
      reads this`log2NumBuckets, this`ineffExpands, this`noexpand, this`expansions
    {
      History(log2NumBuckets, ineffExpands, noexpand, expansions)
    }

    /** HASH_EXPAND_BUCKETS */
    method Expand(ghost es: set<Elem>)
      requires BucketsOk(es) && HistoryOk() && !noexpand
      requires TotalCount(buckets[..]) == numItems > 0
      modifies this`buckets, this`numBuckets, this`log2NumBuckets, this`chains
      modifies this`idealChainMaxlen, this`nonidealItems, this`ineffExpands, this`noexpand, this`expansions
      modifies es`hhPrev, es`hhNext
      ensures fresh(buckets) && BucketsOk(es) && HistoryOk()
      ensures numBuckets == 2 * old(numBuckets) && Redistributed(chains, old(chains), old(numBuckets), 0, fcn)
      ensures IsCeiling(idealChainMaxlen, numItems, numBuckets)
      ensures Tallied(buckets[..], idealChainMaxlen, numItems, nonidealItems)
      ensures expansions == old(expansions) + [nonidealItems > numItems / 2]
    {
      hide Redistributed, Tallied, IsCeiling, Chains, Located, TotalCount, Pow2;
      Pow2Double(log2NumBuckets);
      ChainsShape(buckets[..], chains, es, fcn);
      var ideal := IdealLength(numItems, numBuckets, log2NumBuckets);
      var newBuckets, nonideal;
      ghost var newChains;
      newBuckets, nonideal, newChains := Redistribute(buckets, log2NumBuckets, ideal, chains, es, fcn);
      Install(newBuckets, ideal, nonideal, newChains);
    }

    /** The assignments that end an expansion. */
    method Install(newBuckets: array<Slot>, ideal: nat, nonideal: nat, ghost newChains: seq<seq<Elem>>)
      requires HistoryOk() && !noexpand
      modifies this`buckets, this`numBuckets, this`log2NumBuckets, this`chains
      modifies this`idealChainMaxlen, this`nonidealItems, this`ineffExpands, this`noexpand, this`expansions
      ensures buckets == newBuckets && chains == newChains && HistoryOk()
      ensures numBuckets == 2 * old(numBuckets) && log2NumBuckets == old(log2NumBuckets) + 1
      ensures idealChainMaxlen == ideal && nonidealItems == nonideal
      ensures expansions == old(expansions) + [nonidealItems > numItems / 2]
    {
      HistoryStep(log2NumBuckets, ineffExpands, expansions, nonideal > numItems / 2);
      idealChainMaxlen, nonidealItems := ideal, nonideal;
      numBuckets, log2NumBuckets := numBuckets * 2, log2NumBuckets + 1;
      buckets, chains := newBuckets, newChains;
      expansions := expansions + [nonidealItems > numItems / 2];
      assert Shr(numItems, 1) == numItems / 2;
      ineffExpands := if nonidealItems > Shr(numItems, 1) then ineffExpands + 1 else 0;
      if ineffExpands > 1 {
        noexpand := true;
      }
    }

    /** The part of HASH_ADD_TO_BKT before its test for an expansion. */
    method PushToBucket(j: nat, e: Elem, ghost es: set<Elem>)
      requires BucketsOk(es) && e !in es && e.hashv == fcn(e.key) && j == Home(e, fcn, numBuckets)
      modifies this`chains, buckets, e`hhPrev, e`hhNext, es`hhPrev
      ensures BucketsOk(es + {e}) && chains == old(chains)[j := [e] + old(chains)[j]]
      ensures j < buckets.Length
      ensures buckets[..] == old(buckets[..])[j := buckets[j]]
      ensures buckets[j].count == old(buckets[j].count) + 1 && buckets[j].mult == old(buckets[j].mult)
    {
      hide Chain, Pow2;
      ghost var all := es + {e};
      ChainsGrow(buckets[..], chains, es, e, fcn);
      PushFront(buckets, j, e, chains, all, fcn);
      chains := chains[j := [e] + chains[j]];
    }

    /** HASH_ADD_TO_BKT */
    method AddToBucket(j: nat, e: Elem, ghost es: set<Elem>)
      requires BucketsOk(es) && HistoryOk() && PolicyOk() && TotalCount(buckets[..]) + 1 == numItems
      requires e !in es && e.hashv == fcn(e.key) && j == Home(e, fcn, numBuckets)
      modifies this`buckets, this`numBuckets, this`log2NumBuckets, this`chains
      modifies this`idealChainMaxlen, this`nonidealItems, this`ineffExpands, this`noexpand, this`expansions
      modifies buckets, e`hhPrev, e`hhNext, es`hhPrev, es`hhNext
      ensures BucketsOk(es + {e}) && HistoryOk() && PolicyOk() && TotalCount(buckets[..]) == numItems
      ensures buckets == old(buckets) || fresh(buckets)
      ensures AddedTo(old(chains), old(buckets[..]), old(noexpand), old(expansions), j, e)
    {
      hide Chain, Chains, Located, Pow2, Redistributed, IsCeiling, History, Excess, Potential, TotalCount;
      ghost var before := buckets[..];
      ChainsShape(before, chains, es, fcn);
      PushToBucket(j, e, es);
      UpdateSums(before, j, buckets[j], 0);
      if buckets[j].count >= (buckets[j].mult + 1) * THRESHOLD && !noexpand {
        Expand(es + {e});
        IdealBounded(before, idealChainMaxlen, numItems);
        ExpandRestoresBound(buckets[..], idealChainMaxlen);
      } else if !noexpand {
        PushKeepsBound(before, j, buckets[j]);
      }
    }

    /**
     How an addition changed the chains: the item went to the front of its chain, and if that
     chain was due and expansion allowed, all chains were redistributed over twice as many buckets.
     */
    ghost predicate AddedTo(oldChains: seq<seq<Elem>>, oldBuckets: seq<Slot>, oldNoexpand: bool,
                            oldExpansions: seq<bool>, j: nat, e: Elem)
      requires |oldChains| == |oldBuckets| && j < |oldChains|
      reads this, buckets
    {
      var pushed := oldChains[j := [e] + oldChains[j]];
      var due := oldBuckets[j].count + 1 >= (oldBuckets[j].mult + 1) * THRESHOLD;
      if due && !oldNoexpand then
        && Redistributed(chains, pushed, |pushed|, 0, fcn)
        && IsCeiling(idealChainMaxlen, numItems, numBuckets)
        && Tallied(buckets[..], idealChainMaxlen, numItems, nonidealItems)
        && expansions == oldExpansions + [nonidealItems > numItems / 2]
      else
        chains == pushed && expansions == oldExpansions
    }

    /** The bucket number of a hash value: HASH_TO_BKT */
    method ToBucket(hashv: nat) returns (j: nat)
      requires numBuckets == Pow2(log2NumBuckets)
      ensures j == hashv % numBuckets < numBuckets
    {
      j := And(hashv, numBuckets - 1);
      MaskIsMod(hashv, log2NumBuckets);
    }

    /** The part of HASH_ADD_KEYPTR after the application-order links are set. */
    method Insert(e: Elem, ghost es: set<Elem>)
      requires Valid(es) && e !in es
      modifies this, buckets, BloomBits(), e`tbl, e`hashv, e`hhPrev, e`hhNext, es`hhPrev, es`hhNext
      ensures Valid(es + {e}) && e.tbl == this && tail == old(tail) && numItems == old(numItems) + 1
      ensures buckets == old(buckets) || fresh(buckets)
      ensures |old(chains)| == old(numBuckets) == old(buckets.Length) > 0
      ensures AddedTo(old(chains), old(buckets[..]), old(noexpand), old(expansions), Home(e, fcn, old(numBuckets)), e)
    {
      hide BucketsOk, HistoryOk, PolicyOk, BloomOk, AddedTo, Pow2, TotalCount;
      BucketsShape(es);
      numItems := numItems + 1;
      e.tbl := this;
      e.hashv := fcn(e.key);
      var j := ToBucket(e.hashv);
      AddToBucket(j, e, es);
      AddToBloom(e, es);
    }

    lemma Owns(e: Elem, es: set<Elem>)
      requires Valid(es) && e in es
      ensures e.tbl == this
    {
    }

    lemma BucketsShape(es: set<Elem>)
      requires BucketsOk(es)
      ensures |chains| == buckets.Length == numBuckets == Pow2(log2NumBuckets)
    {
    }

    /** HASH_BLOOM_ADD, when a filter is configured. */
    method AddToBloom(e: Elem, ghost es: set<Elem>)
      requires BloomOk(es) && e.hashv == fcn(e.key)
      modifies BloomBits()
      ensures BloomOk(es + {e})
    {
      if bloom != null {
        bloom.Add(e.hashv);
      }
    }

    /** HASH_DEL_IN_BKT on the bucket of `e`. */
    method DropFromBucket(j: nat, e: Elem, ghost es: set<Elem>)
      requires BucketsOk(es) && e in es && j == Home(e, fcn, numBuckets)
      modifies this`chains, buckets, es`hhPrev, es`hhNext
      ensures BucketsOk(es - {e}) && j < buckets.Length == |old(chains)|
      ensures exists k ::
                && 0 <= k < |old(chains)[j]| && old(chains)[j][k] == e
                && chains == old(chains)[j := RemoveAt(old(chains)[j], k)]
      ensures buckets[..] == old(buckets[..])[j := buckets[j]]
      ensures buckets[j].count == old(buckets[j].count) - 1 && buckets[j].mult == old(buckets[j].mult)
    {
      hide Chain, Pow2;
      ghost var k := LocatedDrop(buckets[..], chains, es, e, fcn);
      DeleteInBucket(buckets, j, e, chains, es, fcn, k);
      chains := chains[j := RemoveAt(chains[j], k)];
    }

    /** The part of HASH_DELETE after the application-order links are patched. */
    method Remove(e: Elem, ghost es: set<Elem>)
      requires Valid(es) && e in es
      modifies this`numItems, this`chains, buckets, es`hhPrev, es`hhNext
      ensures Valid(es - {e}) && numItems == old(numItems) - 1
    {
      hide Chain, Chains, Located, Pow2, TotalCount, History, Potential;
      ghost var before := buckets[..];
      BucketsShape(es);
      var j := ToBucket(e.hashv);
      DropFromBucket(j, e, es);
      UpdateSums(before, j, buckets[j], 0);
      if !noexpand {
        DropKeepsBound(before, j, buckets[j]);
      }
      numItems := numItems - 1;
    }

    /** HASH_FIND_IN_BKT, for the bucket that `key` hashes to. */
    method Lookup(key: Key, j: nat, ghost es: set<Elem>) returns (out: Elem?)
      requires Valid(es) && j == fcn(key) % numBuckets
      ensures out != null ==> out in es && out.key == key
      ensures out == null ==> forall e :: e in es ==> e.key != key
    {
      ghost var c := chains[j];
      ghost var k := 0;
      out := buckets[j].head;
      while out != null
        invariant k <= |c| && out == At(c, k)
        invariant forall i :: 0 <= i < k ==> c[i].key != key
        decreases |c| - k
      {
        if |out.key| == |key| {
          if out.key == key {
            break;
          }
        }
        out, k := out.hhNext, k + 1;
      }
    }
  }
}
