/** The sequence-level meaning of a bottom-up mergesort, and why it is a stable sort. */
module StableMerge {
  import opened Sequences

  type Order<!T> = (T, T) -> int

  /** `cmp` is a total preorder on `u`. */
  ghost predicate Preorder<T>(cmp: Order<T>, u: set<T>) {
    && (forall a, b :: a in u && b in u ==> cmp(a, b) <= 0 || cmp(b, a) <= 0)
    && (forall a, b, c :: a in u && b in u && c in u && cmp(a, b) <= 0 && cmp(b, c) <= 0 ==> cmp(a, c) <= 0)
  }

  ghost predicate Within<T>(s: seq<T>, u: set<T>) {
    forall x :: x in s ==> x in u
  }

  ghost predicate Sorted<T>(cmp: Order<T>, s: seq<T>) {
    forall i, j :: 0 <= i < j < |s| ==> cmp(s[i], s[j]) <= 0
  }

  ghost predicate Equivalent<T>(cmp: Order<T>, a: T, b: T) {
    cmp(a, b) <= 0 && cmp(b, a) <= 0
  }

  /** The elements of `s` equivalent to `x`, in order. */
  ghost function Class<T>(cmp: Order<T>, s: seq<T>, x: T): seq<T> {
    if s == [] then []
    else (if Equivalent(cmp, s[0], x) then [s[0]] else []) + Class(cmp, s[1..], x)
  }

  /** Same elements, and equivalent elements in the same relative order. */
  ghost predicate StablePermutation<T>(cmp: Order<T>, s: seq<T>, t: seq<T>) {
    && multiset(s) == multiset(t)
    && forall x :: x in s ==> Class(cmp, s, x) == Class(cmp, t, x)
  }

  ghost function Merge<T>(cmp: Order<T>, p: seq<T>, q: seq<T>): seq<T> {
    if p == [] then q
    else if q == [] then p
    else if cmp(p[0], q[0]) <= 0 then [p[0]] + Merge(cmp, p[1..], q)
    else [q[0]] + Merge(cmp, p, q[1..])
  }

  /** One pass: merge neighbouring runs of length `k`. */
  ghost function Pass<T>(cmp: Order<T>, s: seq<T>, k: nat): seq<T>
    requires k > 0
    decreases |s|
  {
    if s == [] then []
    else
      var r := Drop(s, k);
      Merge(cmp, Take(s, k), Take(r, k)) + Pass(cmp, Drop(r, k), k)
  }

  lemma {:induction false} MergeMultiset<T>(cmp: Order<T>, p: seq<T>, q: seq<T>)
    ensures multiset(Merge(cmp, p, q)) == multiset(p) + multiset(q)
  {
    if p == [] || q == [] {
    } else if cmp(p[0], q[0]) <= 0 {
      MergeMultiset(cmp, p[1..], q);
      MultisetUncons(p);
    } else {
      MergeMultiset(cmp, p, q[1..]);
      MultisetUncons(q);
    }
  }

  lemma MultisetUncons<T>(s: seq<T>)
    requires s != []
    ensures multiset(s) == multiset{s[0]} + multiset(s[1..])
  {
    assert s == [s[0]] + s[1..];
  }

  lemma MergeMember<T>(cmp: Order<T>, p: seq<T>, q: seq<T>, x: T)
    ensures x in Merge(cmp, p, q) <==> x in p || x in q
  {
    MergeMultiset(cmp, p, q);
    assert x in multiset(Merge(cmp, p, q)) <==> x in multiset(p) + multiset(q);
  }

  lemma SortedCons<T>(cmp: Order<T>, x: T, s: seq<T>)
    requires Sorted(cmp, s) && forall y :: y in s ==> cmp(x, y) <= 0
    ensures Sorted(cmp, [x] + s)
  {
  }

  lemma SortedTail<T>(cmp: Order<T>, s: seq<T>)
    requires Sorted(cmp, s) && s != []
    ensures Sorted(cmp, s[1..])
  {
  }

  /** When `x` is at most the head of a sorted sequence, it is at most all of it. */
  lemma AtMostAll<T>(cmp: Order<T>, x: T, s: seq<T>, u: set<T>)
    requires Preorder(cmp, u) && Within(s, u) && x in u
    requires Sorted(cmp, s) && (s != [] ==> cmp(x, s[0]) <= 0)
    ensures forall y :: y in s ==> cmp(x, y) <= 0
  {
    forall y | y in s
      ensures cmp(x, y) <= 0
    {
      var k :| 0 <= k < |s| && s[k] == y;
      if k > 0 {
        assert cmp(s[0], s[k]) <= 0;
      }
    }
  }

  lemma {:induction false} MergeSorted<T>(cmp: Order<T>, p: seq<T>, q: seq<T>, u: set<T>)
    requires Sorted(cmp, p) && Sorted(cmp, q) && Preorder(cmp, u) && Within(p, u) && Within(q, u)
    ensures Sorted(cmp, Merge(cmp, p, q))
  {
    hide Sorted, Preorder;
    if p == [] || q == [] {
    } else if cmp(p[0], q[0]) <= 0 {
      MergeSortedStep(cmp, p, q, u);
      MergeSorted(cmp, p[1..], q, u);
      SortedConsMerge(cmp, p[0], p[1..], q);
    } else {
      Totality(cmp, p[0], q[0], u);
      MergeSortedStep(cmp, q, p, u);
      MergeSorted(cmp, p, q[1..], u);
      SortedConsMerge(cmp, q[0], p, q[1..]);
    }
  }

  lemma Totality<T>(cmp: Order<T>, a: T, b: T, u: set<T>)
    requires Preorder(cmp, u) && a in u && b in u
    ensures cmp(a, b) <= 0 || cmp(b, a) <= 0
  {
  }

  lemma HeadBelowTail<T>(cmp: Order<T>, p: seq<T>)
    requires p != [] && Sorted(cmp, p)
    ensures forall y :: y in p[1..] ==> cmp(p[0], y) <= 0
  {
    forall y | y in p[1..]
      ensures cmp(p[0], y) <= 0
    {
      var k :| 1 <= k < |p| && p[k] == y;
    }
  }

  lemma MergeSortedStep<T>(cmp: Order<T>, p: seq<T>, q: seq<T>, u: set<T>)
    requires p != [] && q != [] && Sorted(cmp, p) && Sorted(cmp, q)
    requires Preorder(cmp, u) && Within(p, u) && Within(q, u) && cmp(p[0], q[0]) <= 0
    ensures Sorted(cmp, p[1..])
    ensures forall y :: y in p[1..] ==> cmp(p[0], y) <= 0
    ensures forall y :: y in q ==> cmp(p[0], y) <= 0
  {
    hide Preorder, Sorted;
    SortedTail(cmp, p);
    HeadBelowTail(cmp, p);
    AtMostAll(cmp, p[0], q, u);
  }

  lemma SortedConsMerge<T>(cmp: Order<T>, x: T, p: seq<T>, q: seq<T>)
    requires Sorted(cmp, Merge(cmp, p, q))
    requires (forall y :: y in p ==> cmp(x, y) <= 0) && forall y :: y in q ==> cmp(x, y) <= 0
    ensures Sorted(cmp, [x] + Merge(cmp, p, q))
  {
    hide Sorted, Merge;
    forall y | y in Merge(cmp, p, q)
      ensures cmp(x, y) <= 0
    {
      MergeMember(cmp, p, q, y);
    }
    SortedCons(cmp, x, Merge(cmp, p, q));
  }

  lemma {:induction false} ClassAppend<T>(cmp: Order<T>, p: seq<T>, q: seq<T>, x: T)
    ensures Class(cmp, p + q, x) == Class(cmp, p, x) + Class(cmp, q, x)
  {
    hide Equivalent, Class;
    if p == [] {
      ClassNil(cmp, x);
      assert p + q == q && [] + Class(cmp, q, x) == Class(cmp, q, x);
    } else {
      ClassAppend(cmp, p[1..], q, x);
      Assoc([p[0]], p[1..], q);
      assert p == [p[0]] + p[1..];
      ClassUncons(cmp, p, x);
      ClassCons(cmp, p[0], p[1..] + q, x);
      Assoc([p[0]], Class(cmp, p[1..], x), Class(cmp, q, x));
    }
  }

  lemma {:induction false} ClassEmpty<T>(cmp: Order<T>, s: seq<T>, x: T)
    requires forall y :: y in s ==> !Equivalent(cmp, y, x)
    ensures Class(cmp, s, x) == []
  {
    if s != [] {
      ClassEmpty(cmp, s[1..], x);
    }
  }

  /** Merging keeps, in every class, the left run's elements before the right run's. */
  lemma {:induction false} MergeStable<T>(cmp: Order<T>, p: seq<T>, q: seq<T>, x: T, u: set<T>)
    requires Sorted(cmp, p) && Sorted(cmp, q) && Preorder(cmp, u) && Within(p, u) && Within(q, u) && x in u
    ensures Class(cmp, Merge(cmp, p, q), x) == Class(cmp, p, x) + Class(cmp, q, x)
  {
    hide Sorted, Preorder, Equivalent, Class;
    if p == [] || q == [] {
      ClassNil(cmp, x);
      assert Class(cmp, p, x) + [] == Class(cmp, p, x) && [] + Class(cmp, q, x) == Class(cmp, q, x);
    } else if cmp(p[0], q[0]) <= 0 {
      SortedTail(cmp, p);
      MergeStable(cmp, p[1..], q, x, u);
      ClassUncons(cmp, p, x);
      ClassCons(cmp, p[0], Merge(cmp, p[1..], q), x);
      Assoc([p[0]], Class(cmp, p[1..], x), Class(cmp, q, x));
    } else {
      SortedTail(cmp, q);
      MergeStable(cmp, p, q[1..], x, u);
      ClassUncons(cmp, q, x);
      ClassCons(cmp, q[0], Merge(cmp, p, q[1..]), x);
      if Equivalent(cmp, q[0], x) {
        RightHeadAlone(cmp, p, q[0], x, u);
        var c := Class(cmp, q[1..], x);
        assert [] + c == c && [] + ([q[0]] + c) == [q[0]] + c;
      }
    }
  }

  lemma ClassNil<T>(cmp: Order<T>, x: T)
    ensures Class(cmp, [], x) == []
  {
  }

  lemma ClassCons<T>(cmp: Order<T>, a: T, s: seq<T>, x: T)
    ensures Class(cmp, [a] + s, x) == (if Equivalent(cmp, a, x) then [a] + Class(cmp, s, x) else Class(cmp, s, x))
  {
    assert ([a] + s)[1..] == s;
  }

  lemma ClassUncons<T>(cmp: Order<T>, s: seq<T>, x: T)
    requires s != []
    ensures Class(cmp, s, x) == (if Equivalent(cmp, s[0], x) then [s[0]] + Class(cmp, s[1..], x)
                                 else Class(cmp, s[1..], x))
  {
  }

  lemma RightHeadAlone<T>(cmp: Order<T>, p: seq<T>, y: T, x: T, u: set<T>)
    requires p != [] && Sorted(cmp, p) && Preorder(cmp, u) && Within(p, u) && x in u && y in u
    requires cmp(p[0], y) > 0 && Equivalent(cmp, y, x)
    ensures Class(cmp, p, x) == []
  {
    forall k | 0 <= k < |p|
      ensures !Equivalent(cmp, p[k], x)
    {
      if Equivalent(cmp, p[k], x) {
        StrictlyAbove(cmp, p[0], p[k], x, y, u);
      }
    }
    ClassEmpty(cmp, p, x);
  }

  lemma StrictlyAbove<T>(cmp: Order<T>, a: T, b: T, x: T, y: T, u: set<T>)
    requires Preorder(cmp, u) && a in u && b in u && x in u && y in u
    requires (a == b || cmp(a, b) <= 0) && cmp(b, x) <= 0 && cmp(x, y) <= 0
    ensures cmp(a, y) <= 0
  {
  }

  /** The runs of length `k` of `s` are sorted. */
  ghost predicate Runs<T>(cmp: Order<T>, s: seq<T>, k: nat)
    requires k > 0
    decreases |s|
  {
    s != [] ==> Sorted(cmp, Take(s, k)) && Runs(cmp, Drop(s, k), k)
  }

  lemma TakeDrop<T>(s: seq<T>, k: nat)
    ensures s == Take(s, k) + Drop(s, k)
  {
  }

  /** A pass doubles the length of the sorted runs. */
  lemma {:induction false} PassRuns<T>(cmp: Order<T>, s: seq<T>, k: nat, u: set<T>)
    requires k > 0 && Runs(cmp, s, k) && Preorder(cmp, u) && Within(s, u)
    ensures Runs(cmp, Pass(cmp, s, k), 2 * k) && |Pass(cmp, s, k)| == |s|
    decreases |s|
  {
    hide Sorted, Preorder, Merge;
    if s != [] {
      var p, r := Take(s, k), Drop(s, k);
      var q, rest := Take(r, k), Drop(r, k);
      SortedEmpty(cmp, q);
      MergeSorted(cmp, p, q, u);
      MergeLength(cmp, p, q);
      PassRuns(cmp, rest, k, u);
      var m, t := Merge(cmp, p, q), Pass(cmp, rest, k);
      if |s| <= 2 * k {
        assert rest == [] && t == [] && m + t == m;
        assert Take(m, 2 * k) == m && Drop(m, 2 * k) == [];
      } else {
        assert |m| == 2 * k && Take(m + t, 2 * k) == m && Drop(m + t, 2 * k) == t;
      }
    }
  }

  lemma SortedEmpty<T>(cmp: Order<T>, s: seq<T>)
    ensures s == [] ==> Sorted(cmp, s)
  {
  }

  lemma MergeLength<T>(cmp: Order<T>, p: seq<T>, q: seq<T>)
    ensures |Merge(cmp, p, q)| == |p| + |q|
  {
    MergeMultiset(cmp, p, q);
    assert |multiset(Merge(cmp, p, q))| == |Merge(cmp, p, q)|;
  }

  lemma {:induction false} PassMultiset<T>(cmp: Order<T>, s: seq<T>, k: nat)
    requires k > 0
    ensures multiset(Pass(cmp, s, k)) == multiset(s)
    decreases |s|
  {
    if s != [] {
      var p, r := Take(s, k), Drop(s, k);
      var q, rest := Take(r, k), Drop(r, k);
      TakeDrop(s, k);
      TakeDrop(r, k);
      MergeMultiset(cmp, p, q);
      PassMultiset(cmp, rest, k);
    }
  }

  lemma {:induction false} PassStable<T>(cmp: Order<T>, s: seq<T>, k: nat, x: T, u: set<T>)
    requires k > 0 && Runs(cmp, s, k) && Preorder(cmp, u) && Within(s, u) && x in u
    ensures Class(cmp, Pass(cmp, s, k), x) == Class(cmp, s, x)
    decreases |s|
  {
    hide Sorted, Preorder, Merge, Class;
    if s != [] {
      var p, r := Take(s, k), Drop(s, k);
      var q, rest := Take(r, k), Drop(r, k);
      SortedEmpty(cmp, q);
      MergeStable(cmp, p, q, x, u);
      PassStable(cmp, rest, k, x, u);
      ClassAppend(cmp, Merge(cmp, p, q), Pass(cmp, rest, k), x);
      TakeDrop(s, k);
      TakeDrop(r, k);
      ClassAppend(cmp, p, r, x);
      ClassAppend(cmp, q, rest, x);
    }
  }

  /** The whole sort: passes over runs of doubling length until one run is left. */
  ghost function Passes<T>(cmp: Order<T>, s: seq<T>, k: nat): seq<T>
    requires k > 0
    decreases |s| - k
  {
    var t := Pass(cmp, s, k);
    if |s| <= 2 * k then t
    else
      PassLength(cmp, s, k);
      Passes(cmp, t, 2 * k)
  }

  lemma PassLength<T>(cmp: Order<T>, s: seq<T>, k: nat)
    requires k > 0
    ensures |Pass(cmp, s, k)| == |s|
  {
    PassMultiset(cmp, s, k);
    assert |multiset(Pass(cmp, s, k))| == |Pass(cmp, s, k)|;
  }

  lemma RunsOfOne<T>(cmp: Order<T>, s: seq<T>)
    ensures Runs(cmp, s, 1)
    decreases |s|
  {
    if s != [] {
      RunsOfOne(cmp, s[1..]);
    }
  }

  lemma OneRun<T>(cmp: Order<T>, s: seq<T>, k: nat)
    requires 0 < |s| <= k && Runs(cmp, s, k)
    ensures Sorted(cmp, s)
  {
    assert Take(s, k) == s;
  }

  lemma MultisetWithin<T>(s: seq<T>, t: seq<T>, u: set<T>)
    requires multiset(s) == multiset(t) && Within(s, u)
    ensures Within(t, u)
  {
    forall x | x in t
      ensures x in s
    {
      assert x in multiset(t);
    }
  }

  lemma {:induction false} PassesSort<T>(cmp: Order<T>, s: seq<T>, k: nat, u: set<T>)
    requires k > 0 && Runs(cmp, s, k) && Preorder(cmp, u) && Within(s, u)
    ensures Sorted(cmp, Passes(cmp, s, k))
    ensures multiset(Passes(cmp, s, k)) == multiset(s)
    ensures forall x :: x in u ==> Class(cmp, Passes(cmp, s, k), x) == Class(cmp, s, x)
    decreases |s| - k
  {
    hide Sorted, Preorder, Class, Pass, Runs;
    var t := Pass(cmp, s, k);
    PassRuns(cmp, s, k, u);
    PassMultiset(cmp, s, k);
    forall x | x in u
      ensures Class(cmp, t, x) == Class(cmp, s, x)
    {
      PassStable(cmp, s, k, x, u);
    }
    if |s| > 2 * k {
      MultisetWithin(s, t, u);
      PassesSort(cmp, t, 2 * k, u);
    } else if s == [] {
      SortedEmpty(cmp, t);
    } else {
      OneRun(cmp, t, 2 * k);
    }
  }

  /** The bottom-up mergesort is a stable sort for every total preorder. */
  lemma SortIsStable<T>(cmp: Order<T>, s: seq<T>, u: set<T>)
    requires Preorder(cmp, u) && Within(s, u)
    ensures Sorted(cmp, Passes(cmp, s, 1)) && StablePermutation(cmp, s, Passes(cmp, s, 1))
  {
    RunsOfOne(cmp, s);
    PassesSort(cmp, s, 1, u);
  }

  lemma {:induction false} ClassHead<T>(cmp: Order<T>, s: seq<T>, x: T, y: T)
    requires x in s && Equivalent(cmp, x, y)
    ensures Class(cmp, s, y) != []
  {
    if s[0] != x {
      ClassHead(cmp, s[1..], x, y);
    }
  }

  lemma ClassTail<T>(cmp: Order<T>, s: seq<T>, t: seq<T>, x: T)
    requires s != [] && t != [] && s[0] == t[0] && Class(cmp, s, x) == Class(cmp, t, x)
    ensures Class(cmp, s[1..], x) == Class(cmp, t[1..], x)
  {
    hide Equivalent;
    var a, b := Class(cmp, s[1..], x), Class(cmp, t[1..], x);
    if Equivalent(cmp, s[0], x) {
      assert [s[0]] + a == [s[0]] + b;
      assert a == ([s[0]] + a)[1..] == ([s[0]] + b)[1..] == b;
    } else {
      assert [] + a == a && [] + b == b;
    }
  }

  lemma MultisetTail<T>(s: seq<T>, t: seq<T>)
    requires s != [] && t != [] && s[0] == t[0] && multiset(s) == multiset(t)
    ensures multiset(s[1..]) == multiset(t[1..])
  {
    assert s == [s[0]] + s[1..] && t == [t[0]] + t[1..];
    assert multiset(s[1..]) == multiset(s) - multiset{s[0]};
    assert multiset(t[1..]) == multiset(t) - multiset{t[0]};
  }

  /** There is only one sorted stable permutation, so these two properties say all. */
  lemma {:induction false} StableSortUnique<T>(cmp: Order<T>, s: seq<T>, t: seq<T>, u: set<T>)
    requires Preorder(cmp, u) && Within(s, u) && Within(t, u) && Sorted(cmp, s) && Sorted(cmp, t)
    requires multiset(s) == multiset(t)
    requires forall x :: x in u ==> Class(cmp, s, x) == Class(cmp, t, x)
    ensures s == t
  {
    hide Preorder, Sorted, Class;
    assert |multiset(s)| == |s| && |multiset(t)| == |t|;
    if s != [] && t != [] {
      SameHead(cmp, s, t, u);
      MultisetTail(s, t);
      SortedTail(cmp, s);
      SortedTail(cmp, t);
      forall x | x in u
        ensures Class(cmp, s[1..], x) == Class(cmp, t[1..], x)
      {
        ClassTail(cmp, s, t, x);
      }
      StableSortUnique(cmp, s[1..], t[1..], u);
    }
  }

  lemma SameHead<T>(cmp: Order<T>, s: seq<T>, t: seq<T>, u: set<T>)
    requires s != [] && t != [] && Preorder(cmp, u) && Within(s, u) && Within(t, u)
    requires Sorted(cmp, s) && Sorted(cmp, t) && multiset(s) == multiset(t)
    requires forall x :: x in u ==> Class(cmp, s, x) == Class(cmp, t, x)
    ensures s[0] == t[0]
  {
    var a, b := s[0], t[0];
    assert a in multiset(t) && b in multiset(s);
    assert cmp(a, a) <= 0 && cmp(b, b) <= 0;
    var i :| 0 <= i < |t| && t[i] == a;
    var j :| 0 <= j < |s| && s[j] == b;
    assert cmp(b, a) <= 0 && cmp(a, b) <= 0;
    assert Class(cmp, s, a)[0] == a && Class(cmp, t, a)[0] == b;
  }
}
