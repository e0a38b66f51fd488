/**
 The bookkeeping that decides when the hash table doubles its buckets, and the
 bound on chain length that follows from it. Only the counts of the buckets
 matter here, so the head pointer is a type parameter.
 */
module ChainPolicy {
  import opened Words

  const THRESHOLD: nat := 10

  datatype Bucket<+H> = Bucket(head: H, count: nat, mult: nat)

  function Max(a: int, b: int): int {
    if a < b then b else a
  }

  function TotalCount<H>(bs: seq<Bucket<H>>): nat {
    if bs == [] then 0 else TotalCount(bs[..|bs| - 1]) + bs[|bs| - 1].count
  }

  /** Items past the ideal position in their chain. */
  function Excess<H>(bs: seq<Bucket<H>>, ideal: nat): nat {
    if bs == [] then 0 else Excess(bs[..|bs| - 1], ideal) + Max(0, bs[|bs| - 1].count - ideal)
  }

  /** What one bucket may hold before an addition to it triggers an expansion. */
  function Room<H>(b: Bucket<H>): nat {
    Max(b.count, THRESHOLD * (b.mult + 1) - 1)
  }

  function Potential<H>(bs: seq<Bucket<H>>): nat {
    if bs == [] then 0 else Potential(bs[..|bs| - 1]) + Room(bs[|bs| - 1])
  }

  /** The back-off multiplier an expansion leaves in a bucket. */
  ghost predicate MultFor<H>(b: Bucket<H>, ideal: nat) {
    if b.count > ideal then ideal > 0 && b.mult == b.count / ideal else b.mult == 0
  }

  /** The bound kept while expansion is allowed. */
  ghost predicate Bounded<H>(bs: seq<Bucket<H>>) {
    && Potential(bs) <= 19 * |bs|
    && forall i :: 0 <= i < |bs| ==> bs[i].count <= THRESHOLD * (bs[i].mult + 1)
  }

  lemma TotalCountStart<H>(bs: seq<Bucket<H>>)
    ensures TotalCount(bs[..0]) == 0
  {
  }

  lemma TotalCountStep<H>(bs: seq<Bucket<H>>, i: nat)
    requires i < |bs|
    ensures TotalCount(bs[..i + 1]) == TotalCount(bs[..i]) + bs[i].count
  {
    assert bs[..i + 1][..i] == bs[..i];
  }

  lemma {:induction false} UpdateSums<H>(bs: seq<Bucket<H>>, j: nat, b: Bucket<H>, ideal: nat)
    requires j < |bs|
    ensures TotalCount(bs[j := b]) == TotalCount(bs) - bs[j].count + b.count
    ensures Excess(bs[j := b], ideal) == Excess(bs, ideal) - Max(0, bs[j].count - ideal) + Max(0, b.count - ideal)
    ensures Potential(bs[j := b]) == Potential(bs) - Room(bs[j]) + Room(b)
  {
    var n := |bs| - 1;
    if j == n {
      assert bs[j := b][..n] == bs[..n];
    } else {
      assert bs[j := b][..n] == bs[..n][j := b];
      UpdateSums(bs[..n], j, b, ideal);
    }
  }

  lemma {:induction false} CountAtMostPotential<H>(bs: seq<Bucket<H>>)
    ensures TotalCount(bs) <= Potential(bs)
  {
    if bs != [] {
      CountAtMostPotential(bs[..|bs| - 1]);
    }
  }

  /** While expansion is allowed there are at most 19 items per bucket. */
  lemma ItemsBounded<H>(bs: seq<Bucket<H>>)
    requires Bounded(bs)
    ensures TotalCount(bs) <= 19 * |bs|
  {
    CountAtMostPotential(bs);
  }

  lemma {:induction false} FreshSums<H>(bs: seq<Bucket<H>>, ideal: nat)
    requires forall i :: 0 <= i < |bs| ==> bs[i].count == 0 && bs[i].mult == 0
    ensures TotalCount(bs) == 0 && Excess(bs, ideal) == 0 && Potential(bs) == 9 * |bs|
  {
    if bs != [] {
      FreshSums(bs[..|bs| - 1], ideal);
    }
  }

  lemma Distribute(a: int, x: int, y: int)
    ensures a * (x + y) == a * x + a * y
  {
  }

  lemma TenTimes(a: nat, x: nat)
    ensures a * (10 * x) == 10 * (a * x)
  {
  }

  /** A bucket just redistributed under an ideal length of at most 10 obeys the per-bucket bound. */
  lemma RoomAfterExpand<H>(b: Bucket<H>, ideal: nat)
    requires 0 < ideal <= THRESHOLD && MultFor(b, ideal)
    ensures b.count <= THRESHOLD * (b.mult + 1)
    ensures Room(b) >= 9 && ideal * (Room(b) - 9) <= THRESHOLD * b.count
  {
    if b.count > ideal {
      var q, r := b.count / ideal, b.count % ideal;
      assert b.count == ideal * q + r;
      assert ideal * q <= 10 * q;
      assert Room(b) - 9 == 10 * q;
    } else if b.count < 10 {
      assert Room(b) - 9 == 0;
    }
  }

  lemma {:induction false} PotentialAfterExpand<H>(bs: seq<Bucket<H>>, ideal: nat)
    requires 0 < ideal <= THRESHOLD
    requires forall i :: 0 <= i < |bs| ==> MultFor(bs[i], ideal)
    ensures Potential(bs) >= 9 * |bs| && ideal * (Potential(bs) - 9 * |bs|) <= THRESHOLD * TotalCount(bs)
  {
    if bs != [] {
      var n := |bs| - 1;
      PotentialAfterExpand(bs[..n], ideal);
      RoomAfterExpand(bs[n], ideal);
      Distribute(ideal, Potential(bs[..n]) - 9 * n, Room(bs[n]) - 9);
    }
  }

  /** The back-off an expansion grants, counting the buckets that are full without one. */
  function Granted<H>(bs: seq<Bucket<H>>): nat {
    if bs == [] then 0
    else
      var b := bs[|bs| - 1];
      Granted(bs[..|bs| - 1]) + b.mult + if b.count == THRESHOLD && b.mult == 0 then 1 else 0
  }

  lemma {:induction false} GrantedWithin<H>(bs: seq<Bucket<H>>, ideal: nat)
    requires 0 < ideal <= THRESHOLD
    requires forall i :: 0 <= i < |bs| ==> MultFor(bs[i], ideal)
    ensures ideal * Granted(bs) <= TotalCount(bs)
  {
    if bs != [] {
      var n := |bs| - 1;
      GrantedWithin(bs[..n], ideal);
      var b := bs[n];
      GrantedOne(b, ideal);
      Distribute(ideal, Granted(bs[..n]), b.mult + if b.count == THRESHOLD && b.mult == 0 then 1 else 0);
    }
  }

  lemma GrantedOne<H>(b: Bucket<H>, ideal: nat)
    requires 0 < ideal <= THRESHOLD && MultFor(b, ideal)
    ensures ideal * (b.mult + if b.count == THRESHOLD && b.mult == 0 then 1 else 0) <= b.count
  {
    if b.count > ideal {
      assert b.count == ideal * (b.count / ideal) + b.count % ideal;
      assert b.count / ideal >= 1;
    }
  }

  /** An expansion grants at most one step of back-off a bucket, on average. */
  lemma BackOffBudget<H>(bs: seq<Bucket<H>>, ideal: nat)
    requires 0 < ideal <= THRESHOLD && IsCeiling(ideal, TotalCount(bs), |bs|)
    requires forall i :: 0 <= i < |bs| ==> MultFor(bs[i], ideal)
    ensures Granted(bs) <= |bs|
  {
    GrantedWithin(bs, ideal);
    if Granted(bs) > |bs| {
      MulStep(ideal, |bs|, Granted(bs));
    }
  }

  /** Every expansion re-establishes the bound over the doubled buckets. */
  lemma ExpandRestoresBound<H>(bs: seq<Bucket<H>>, ideal: nat)
    requires 0 < ideal <= THRESHOLD && IsCeiling(ideal, TotalCount(bs), |bs|)
    requires forall i :: 0 <= i < |bs| ==> MultFor(bs[i], ideal)
    ensures Bounded(bs)
  {
    PotentialAfterExpand(bs, ideal);
    forall i | 0 <= i < |bs|
      ensures bs[i].count <= THRESHOLD * (bs[i].mult + 1)
    {
      RoomAfterExpand(bs[i], ideal);
    }
    var extra := Potential(bs) - 9 * |bs|;
    if extra > 10 * |bs| {
      MulStep(ideal, 10 * |bs|, extra);
      TenTimes(ideal, |bs|);
    }
  }

  /** An addition that does not trigger an expansion uses room the bucket already had. */
  lemma PushKeepsBound<H>(bs: seq<Bucket<H>>, j: nat, b: Bucket<H>)
    requires Bounded(bs) && j < |bs| && b.mult == bs[j].mult
    requires b.count == bs[j].count + 1 < THRESHOLD * (b.mult + 1)
    ensures Bounded(bs[j := b])
  {
    UpdateSums(bs, j, b, 0);
  }

  /** A deletion frees room. */
  lemma DropKeepsBound<H>(bs: seq<Bucket<H>>, j: nat, b: Bucket<H>)
    requires Bounded(bs) && j < |bs| && b.mult == bs[j].mult && b.count == bs[j].count - 1
    ensures Bounded(bs[j := b])
  {
    UpdateSums(bs, j, b, 0);
  }

  /** The ideal chain length of an expansion never exceeds the threshold. */
  lemma IdealBounded<H>(bs: seq<Bucket<H>>, ideal: nat, items: nat)
    requires Bounded(bs) && items == TotalCount(bs) + 1 && |bs| > 0 && IsCeiling(ideal, items, 2 * |bs|)
    ensures 0 < ideal <= THRESHOLD
  {
    ItemsBounded(bs);
    assert items <= 10 * (2 * |bs|);
  }
}
