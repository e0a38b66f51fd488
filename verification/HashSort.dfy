/** HASH_SRT: the mergesort of the application-order list, in place. */
module HashSort {
  import opened Sequences
  import opened StableMerge
  import opened BucketTable
  import opened UtHash
  import opened Options

  /** `s` is linked forward to its end. */
  ghost predicate Forward(s: seq<Elem>)
    reads s`next
  {
    && Distinct(s)
    && forall i {:trigger s[i].next} :: 0 <= i < |s| ==> s[i].next == At(s, i + 1)
  }

  /** `s` is linked forward up to its last element, whose link may lead anywhere. */
  ghost predicate Run(s: seq<Elem>)
    reads s`next
  {
    && Distinct(s)
    && forall i {:trigger s[i].next} :: 0 <= i < |s| - 1 ==> s[i].next == s[i + 1]
  }

  /** The output list so far: both links, but for the forward link of its tail. */
  ghost predicate Output(list: Elem?, tail: Elem?, s: seq<Elem>)
    reads s`prev, s`next
  {
    && Run(s)
    && list == At(s, 0) && tail == At(s, |s| - 1)
    && forall i {:trigger s[i].prev} :: 0 <= i < |s| ==> s[i].prev == At(s, i - 1)
  }

  ghost predicate NothingShared(a: seq<Elem>, b: seq<Elem>) {
    forall e :: e in a ==> e !in b
  }

  /** A merge under way: `out` is emitted, `l` is left of the left run, `r` is all after the left run. */
  ghost predicate Merging(list: Elem?, tail: Elem?, p: Elem?, q: Elem?, out: seq<Elem>, l: seq<Elem>, r: seq<Elem>,
                          es: set<Elem>)
    reads es`next, es`prev
  {
    && Within(out, es) && Within(l, es) && Within(r, es)
    && Output(list, tail, out) && Run(l) && Forward(r)
    && NothingShared(out, l) && NothingShared(out, r) && NothingShared(l, r)
    && (l != [] ==> p == l[0]) && q == At(r, 0)
  }

  /** `e` is taken from one of the runs and not yet emitted. */
  ghost predicate Taken(e: Elem, list: Elem?, tail: Elem?, p: Elem?, q: Elem?,
                        out: seq<Elem>, l: seq<Elem>, r: seq<Elem>, es: set<Elem>)
    reads es`next, es`prev
  {
    e in es && e !in out && e !in l && e !in r && Merging(list, tail, p, q, out, l, r, es)
  }

  lemma TakeLeft(list: Elem?, tail: Elem?, p: Elem, q: Elem?, out: seq<Elem>, l: seq<Elem>, r: seq<Elem>, es: set<Elem>)
    requires Merging(list, tail, p, q, out, l, r, es) && l != []
    ensures Taken(p, list, tail, p.next, q, out, l[1..], r, es)
  {
    assert forall i {:trigger l[1..][i]} :: 0 <= i < |l| - 1 ==> l[1..][i] == l[i + 1];
  }

  lemma TakeRight(list: Elem?, tail: Elem?, p: Elem?, q: Elem, out: seq<Elem>, l: seq<Elem>, r: seq<Elem>,
                  es: set<Elem>)
    requires Merging(list, tail, p, q, out, l, r, es)
    ensures r != [] && Taken(q, list, tail, p, q.next, out, l, r[1..], es)
  {
    assert forall i {:trigger r[1..][i]} :: 0 <= i < |r| - 1 ==> r[1..][i] == r[i + 1];
  }

  /** Append `e` to the output list. */
  method Emit(e: Elem, list: Elem?, tail: Elem?, ghost p: Elem?, ghost q: Elem?,
              ghost out: seq<Elem>, ghost l: seq<Elem>, ghost r: seq<Elem>, ghost es: set<Elem>)
    returns (newList: Elem?, newTail: Elem?)
    requires Taken(e, list, tail, p, q, out, l, r, es)
    modifies es`next, es`prev
    ensures Merging(newList, newTail, p, q, out + [e], l, r, es)
  {
    newList := list;
    if tail != null {
      tail.next := e;
    } else {
      newList := e;
    }
    e.prev := tail;
    newTail := e;
    assert forall k {:trigger l[k]} :: 0 <= k < |l| ==> l[k] in l && l[k] !in out;
    assert forall k {:trigger r[k]} :: 0 <= k < |r| ==> r[k] in r && r[k] !in out;
  }

  lemma MergeTakesLeft(cmp: Order<Elem>, out: seq<Elem>, l: seq<Elem>, r: seq<Elem>, n: nat)
    requires l != [] && (n == 0 || r == [] || cmp(l[0], r[0]) <= 0)
    ensures out + Merge(cmp, l, Take(r, n)) == (out + [l[0]]) + Merge(cmp, l[1..], Take(r, n))
  {
    if n == 0 || r == [] {
      assert Take(r, n) == [] && [l[0]] + l[1..] == l;
    }
    Assoc(out, [l[0]], Merge(cmp, l[1..], Take(r, n)));
  }

  lemma MergeTakesRight(cmp: Order<Elem>, out: seq<Elem>, l: seq<Elem>, r: seq<Elem>, n: nat)
    requires r != [] && n > 0 && (l == [] || cmp(l[0], r[0]) > 0)
    ensures out + Merge(cmp, l, Take(r, n)) == (out + [r[0]]) + Merge(cmp, l, Take(r[1..], n - 1))
    ensures Drop(r[1..], n - 1) == Drop(r, n)
  {
    var t := Take(r[1..], n - 1);
    assert Take(r, n) == [r[0]] + t && Take(r, n)[1..] == t;
    Assoc(out, [r[0]], Merge(cmp, l, t));
  }

  /** The merge of one run of `psize0` elements at `p0` with a run of up to `insize` elements at `q0`. */
  method MergeRuns(list0: Elem?, tail0: Elem?, p0: Elem?, q0: Elem?, psize0: nat, insize: nat, cmp: Order<Elem>,
                   ghost done: seq<Elem>, ghost left: seq<Elem>, ghost rest: seq<Elem>, ghost es: set<Elem>)
    returns (list: Elem?, tail: Elem?, q: Elem?)
    requires Merging(list0, tail0, p0, q0, done, left, rest, es) && psize0 == |left|
    modifies es`next, es`prev
    ensures Merging(list, tail, null, q, done + Merge(cmp, left, Take(rest, insize)), [], Drop(rest, insize), es)
  {
    hide Output, Run, Forward, Merge, NothingShared, Take, Drop;
    list, tail, q := list0, tail0, q0;
    var p, psize, qsize := p0, psize0, insize;
    ghost var out, l, r := done, left, rest;
    while psize > 0 || (qsize > 0 && q != null)
      invariant Merging(list, tail, p, q, out, l, r, es)
      invariant psize == |l| && qsize >= 0 && Drop(r, qsize) == Drop(rest, insize)
      invariant out + Merge(cmp, l, Take(r, qsize)) == done + Merge(cmp, left, Take(rest, insize))
      decreases |l| + |r|
    {
      var e: Elem;
      if psize == 0 {
        TakeRight(list, tail, p, q, out, l, r, es);
        MergeTakesRight(cmp, out, l, r, qsize);
        e, q, qsize := q, q.next, qsize - 1;
        r := r[1..];
      } else if qsize == 0 || q == null {
        TakeLeft(list, tail, p, q, out, l, r, es);
        MergeTakesLeft(cmp, out, l, r, qsize);
        e, p, psize := p, p.next, psize - 1;
        l := l[1..];
      } else if cmp(p, q) <= 0 {
        TakeLeft(list, tail, p, q, out, l, r, es);
        MergeTakesLeft(cmp, out, l, r, qsize);
        e, p, psize := p, p.next, psize - 1;
        l := l[1..];
      } else {
        TakeRight(list, tail, p, q, out, l, r, es);
        MergeTakesRight(cmp, out, l, r, qsize);
        e, q, qsize := q, q.next, qsize - 1;
        r := r[1..];
      }
      list, tail := Emit(e, list, tail, p, q, out, l, r, es);
      out := out + [e];
    }
    MergeEnds(cmp, r, qsize);
    assert l == [] && out + [] == out;
  }

  lemma MergeEnds(cmp: Order<Elem>, r: seq<Elem>, n: nat)
    requires n == 0 || r == []
    ensures Merge(cmp, [], Take(r, n)) == [] && Drop(r, n) == r
  {
  }

  /** The loop that measures the left run: at most `insize` steps from `p`. */
  method Advance(p: Elem, insize: nat, ghost s: seq<Elem>) returns (q: Elem?, psize: nat)
    requires Forward(s) && s != [] && p == s[0] && insize > 0
    ensures psize == |Take(s, insize)| && q == At(Drop(s, insize), 0)
  {
    q, psize := p, 0;
    var i := 0;
    while i < insize
      invariant psize == i <= insize && i <= |s| && q == At(s, i) && (i < insize ==> i < |s|)
    {
      psize := psize + 1;
      q := q.next;
      if q == null {
        break;
      }
      i := i + 1;
    }
  }

  lemma SplitRest(list: Elem?, tail: Elem?, q: Elem?, done: seq<Elem>, s: seq<Elem>, k: nat, es: set<Elem>)
    requires Merging(list, tail, null, q, done, [], s, es)
    ensures Merging(list, tail, q, At(Drop(s, k), 0), done, Take(s, k), Drop(s, k), es)
  {
    assert forall i {:trigger Drop(s, k)[i]} :: 0 <= i < |Drop(s, k)| ==> Drop(s, k)[i] == s[i + k];
  }

  lemma StartPass(s: seq<Elem>, es: set<Elem>)
    requires Forward(s) && Within(s, es)
    ensures Merging(null, null, null, At(s, 0), [], [], s, es)
  {
  }

  lemma PassUnfold(cmp: Order<Elem>, s: seq<Elem>, k: nat)
    requires k > 0 && s != []
    ensures var r := Drop(s, k);
            Pass(cmp, s, k) == Merge(cmp, Take(s, k), Take(r, k)) + Pass(cmp, Drop(r, k), k)
    ensures |Drop(Drop(s, k), k)| < |s| && (Drop(Drop(s, k), k) == [] <==> |s| <= 2 * k)
  {
  }

  /** One turn of a pass: measure the next left run and merge it with the run after it. */
  method MergeNext(list0: Elem?, tail0: Elem?, p: Elem, insize: nat, cmp: Order<Elem>,
                   ghost done: seq<Elem>, ghost rest: seq<Elem>, ghost es: set<Elem>)
    returns (list: Elem?, tail: Elem?, next: Elem?)
    requires Merging(list0, tail0, null, p, done, [], rest, es) && insize > 0
    modifies es`next, es`prev
    ensures Merging(list, tail, null, next, done + Merge(cmp, Take(rest, insize), Take(Drop(rest, insize), insize)),
                    [], Drop(Drop(rest, insize), insize), es)
    ensures next == At(Drop(Drop(rest, insize), insize), 0)
  {
    hide Output, Run, Merge, NothingShared, Take, Drop;
    var q, psize := Advance(p, insize, rest);
    SplitRest(list0, tail0, p, done, rest, insize, es);
    list, tail, next := MergeRuns(list0, tail0, p, q, psize, insize, cmp, done, Take(rest, insize),
                                  Drop(rest, insize), es);
  }

  /** One pass of the sort over the list of `s`. */
  method SortPass(list0: Elem, insize: nat, cmp: Order<Elem>, ghost s: seq<Elem>, ghost es: set<Elem>)
    returns (list: Elem?, tail: Elem?, nmerges: nat)
    requires Forward(s) && s != [] && list0 == s[0] && Within(s, es) && insize > 0
    modifies es`next, es`prev
    ensures Linked(Pass(cmp, s, insize)) && |Pass(cmp, s, insize)| == |s|
    ensures list == Pass(cmp, s, insize)[0] && tail == Pass(cmp, s, insize)[|s| - 1]
    ensures nmerges <= 1 <==> |s| <= 2 * insize
  {
    hide Output, Run, Forward, Merge, NothingShared, Take, Drop, Pass, Linked, Merging;
    var p: Elem? := list0;
    list, tail, nmerges := null, null, 0;
    ghost var done, rest := [], s;
    StartPass(s, es);
    PassUnfold(cmp, s, insize);
    while p != null
      invariant Merging(list, tail, null, p, done, [], rest, es) && (p != null <==> rest != [])
      invariant done + Pass(cmp, rest, insize) == Pass(cmp, s, insize)
      invariant nmerges == 0 ==> rest == s
      invariant nmerges == 1 ==> rest == Drop(Drop(s, insize), insize)
      invariant nmerges > 1 ==> |s| > 2 * insize
      decreases |rest|
    {
      nmerges := nmerges + 1;
      PassUnfold(cmp, rest, insize);
      ghost var merged := Merge(cmp, Take(rest, insize), Take(Drop(rest, insize), insize));
      list, tail, p := MergeNext(list, tail, p, insize, cmp, done, rest, es);
      assert (done + merged) + Pass(cmp, Drop(Drop(rest, insize), insize), insize) == done + Pass(cmp, rest, insize);
      done, rest := done + merged, Drop(Drop(rest, insize), insize);
    }
    PassDone(list, tail, done, rest, cmp, s, insize, es);
    Terminate(tail, list, done, es);
  }

  lemma PassDone(list: Elem?, tail: Elem?, done: seq<Elem>, rest: seq<Elem>, cmp: Order<Elem>, s: seq<Elem>, k: nat,
                 es: set<Elem>)
    requires k > 0 && Merging(list, tail, null, null, done, [], rest, es)
    requires done + Pass(cmp, rest, k) == Pass(cmp, s, k)
    ensures rest == [] && done == Pass(cmp, s, k) && |done| == |s| && Output(list, tail, done) && Within(done, es)
    ensures done != [] ==> tail != null && tail == done[|done| - 1] && list == done[0]
  {
    PassLength(cmp, s, k);
  }

  /** The last assignment of a pass. */
  method Terminate(tail: Elem, ghost list: Elem?, ghost s: seq<Elem>, ghost es: set<Elem>)
    requires Output(list, tail, s) && s != [] && Within(s, es)
    modifies es`next
    ensures Linked(s)
  {
    tail.next := null;
  }

  /** HASH_SRT */
  method Sort(h: Hash, cmp: Order<Elem>)
    requires h.Valid()
    modifies h`head, h`order, h.order`prev, h.order`next
    modifies (if h.head == null then {} else {h.head.tbl})`tail
    ensures h.Valid() && (old(h.order) != [] ==> h.order == Passes(cmp, old(h.order), 1))
    ensures old(h.order) == [] ==> h.order == []
    ensures Preorder(cmp, Elems(old(h.order))) ==>
              Sorted(cmp, h.order) && StablePermutation(cmp, old(h.order), h.order)
    ensures old(h.head) != null ==> h.head != null && h.head.tbl == old(h.head.tbl)
  {
    hide Table.Valid, Linked, UniqueKeys, Passes, Hash.Valid, Hash.Backed, Preorder, Sorted, StablePermutation;
    SortParts(h);
    if Preorder(cmp, Elems(h.order)) {
      SortedStably(cmp, h.order);
    }
    if h.head != null {
      ghost var s, es := h.order, Elems(h.order);
      var t := h.head.tbl;
      var list, tail := SortList(h.head, cmp, s, es);
      SameElements(s, Passes(cmp, s, 1));
      Reinstall(h, t, list, tail, Passes(cmp, s, 1));
    }
  }

  lemma SortedStably(cmp: Order<Elem>, s: seq<Elem>)
    requires Preorder(cmp, Elems(s))
    ensures var t := if s == [] then s else Passes(cmp, s, 1); Sorted(cmp, t) && StablePermutation(cmp, s, t)
  {
    if s != [] {
      SortIsStable(cmp, s, Elems(s));
    }
  }

  /** The assignments that end the sort. */
  method Reinstall(h: Hash, t: Table, list: Elem, tail: Elem, ghost s: seq<Elem>)
    requires s != [] && list == s[0] && tail == s[|s| - 1] && Linked(s) && UniqueKeys(s) && Elems(s) <= h.Repr
    requires h in h.Repr && t in h.Repr && t.buckets in h.Repr
    requires (t.bloom != null ==> t.bloom in h.Repr && t.bloom.bv in h.Repr)
    requires t.fcn == h.fcn && (t.bloom == null <==> h.bloomBits == None) && t.numItems == |s| && t.Valid(Elems(s))
    modifies h`head, h`order, t`tail
    ensures h.Valid() && h.order == s && h.head == list && list.tbl == t
  {
    hide Table.Valid, Linked, UniqueKeys, Hash.Valid, Hash.Backed;
    t.tail := tail;
    h.head := list;
    h.order := s;
    t.Owns(list, Elems(s));
    h.Establish(t);
  }

  lemma SortParts(h: Hash)
    requires h.Valid()
    ensures h.head == null <==> h.order == []
    ensures h.head != null ==>
              && h in h.Repr && Linked(h.order) && UniqueKeys(h.order) && Elems(h.order) <= h.Repr
              && h.head == h.order[0] && h.head.tbl != null
              && var t := h.head.tbl;
                 && t in h.Repr && t.buckets in h.Repr
                 && (t.bloom != null ==> t.bloom in h.Repr && t.bloom.bv in h.Repr)
                 && t.fcn == h.fcn && (t.bloom == null <==> h.bloomBits == None)
                 && t.numItems == |h.order| && t.Valid(Elems(h.order))
  {
  }

  lemma SameElements(s: seq<Elem>, t: seq<Elem>)
    requires multiset(s) == multiset(t) && Linked(t) && UniqueKeys(s)
    ensures Elems(s) == Elems(t) && UniqueKeys(t) && |s| == |t|
  {
    assert |multiset(s)| == |s| && |multiset(t)| == |t|;
    forall e
      ensures e in Elems(s) <==> e in Elems(t)
    {
      assert e in s <==> e in multiset(s);
      assert e in t <==> e in multiset(t);
    }
    forall i, j | 0 <= i < j < |t|
      ensures t[i].key != t[j].key
    {
      assert t[i] in Elems(t) && t[j] in Elems(t) && t[i] != t[j];
    }
  }

  /** The outer loop of the sort. */
  method SortList(head: Elem, cmp: Order<Elem>, ghost s: seq<Elem>, ghost es: set<Elem>)
    returns (list: Elem, tail: Elem)
    requires Linked(s) && s != [] && head == s[0] && Within(s, es)
    modifies es`next, es`prev
    ensures Linked(Passes(cmp, s, 1)) && |Passes(cmp, s, 1)| == |s| && multiset(Passes(cmp, s, 1)) == multiset(s)
    ensures list == Passes(cmp, s, 1)[0] && tail == Passes(cmp, s, 1)[|s| - 1]
  {
    hide Pass;
    var insize, looping := 1, true;
    list, tail := head, head;
    ghost var now := s;
    while looping
      invariant insize > 0 && Linked(now) && |now| == |s| && list == now[0]
      invariant multiset(now) == multiset(s)
      invariant if looping then Passes(cmp, now, insize) == Passes(cmp, s, 1)
                else now == Passes(cmp, s, 1) && tail == now[|s| - 1]
      decreases looping, |s| - insize
    {
      MultisetWithin(s, now, es);
      PassMultiset(cmp, now, insize);
      var first, last, nmerges := SortPass(list, insize, cmp, now, es);
      list := first;
      now := Pass(cmp, now, insize);
      if nmerges <= 1 {
        looping := false;
        tail := last;
      }
      insize := insize * 2;
    }
  }
}
