/** The circular doubly linked list of list.h, with a sentinel head. */
module CircularList {
  import opened Sequences

  class ListHead {
    var next: ListHead?
    var prev: ListHead?

    constructor ()
      ensures next == null && prev == null
    {
      next, prev := null, null;
    }
  }

  /** Element `i` of the ring, where the head stands before the first and after the last. */
  ghost function Nth(h: ListHead, s: seq<ListHead>, i: int): ListHead {
    if 0 <= i < |s| then s[i] else h
  }

  /** The list headed by `h` holds exactly `s`. */
  ghost predicate Ring(h: ListHead, s: seq<ListHead>)
    reads h, s
  {
    && h !in s && Distinct(s)
    && h.next == Nth(h, s, 0) && h.prev == Nth(h, s, |s| - 1)
    && (forall i {:trigger s[i].next} :: 0 <= i < |s| ==> s[i].next == Nth(h, s, i + 1))
    && (forall i {:trigger s[i].prev} :: 0 <= i < |s| ==> s[i].prev == Nth(h, s, i - 1))
  }

  /** INIT_LIST_HEAD */
  method Init(h: ListHead)
    modifies h
    ensures Ring(h, [])
  {
    h.next := h;
    h.prev := h;
  }

  /** __list_add */
  method Link(e: ListHead, prev: ListHead, next: ListHead)
    requires e != prev && e != next
    modifies e`next, e`prev, prev`next, next`prev
    ensures e.next == next && e.prev == prev && prev.next == e && next.prev == e
  {
    next.prev := e;
    e.next := next;
    e.prev := prev;
    prev.next := e;
  }

  /** list_add: insert after the head */
  method Add(e: ListHead, h: ListHead, ghost s: seq<ListHead>)
    requires Ring(h, s) && e != h && e !in s
    modifies e`next, e`prev, h`next, h`prev, s`prev
    ensures Ring(h, [e] + s)
  {
    Link(e, h, h.next);
  }

  /** list_add_tail: insert before the head */
  method AddTail(e: ListHead, h: ListHead, ghost s: seq<ListHead>)
    requires Ring(h, s) && e != h && e !in s
    modifies e`next, e`prev, h`next, h`prev, s`next
    ensures Ring(h, s + [e])
  {
    Link(e, h.prev, h);
  }

  /** __list_del, on the neighbours of `e` */
  method Unlink(e: ListHead, ghost h: ListHead, ghost s: seq<ListHead>, ghost k: nat)
    requires Ring(h, s) && k < |s| && s[k] == e
    modifies h`next, h`prev, s`next, s`prev
    ensures Ring(h, RemoveAt(s, k)) && e !in RemoveAt(s, k)
    ensures e.next == old(e.next) && e.prev == old(e.prev)
  {
    RemoveAtMembers(s, k);
    e.next.prev := e.prev;
    e.prev.next := e.next;
  }

  /** list_del */
  method Del(e: ListHead, ghost h: ListHead, ghost s: seq<ListHead>, ghost k: nat)
    requires Ring(h, s) && k < |s| && s[k] == e
    modifies h`next, h`prev, s`next, s`prev
    ensures Ring(h, RemoveAt(s, k)) && e.next == null && e.prev == null
  {
    Unlink(e, h, s, k);
    e.next := null;
    e.prev := null;
  }

  /** list_del_init */
  method DelInit(e: ListHead, ghost h: ListHead, ghost s: seq<ListHead>, ghost k: nat)
    requires Ring(h, s) && k < |s| && s[k] == e
    modifies h, s
    ensures Ring(h, RemoveAt(s, k)) && Ring(e, [])
  {
    Unlink(e, h, s, k);
    Init(e);
  }

  /** list_empty */
  method Empty(h: ListHead, ghost s: seq<ListHead>) returns (empty: bool)
    requires Ring(h, s)
    ensures empty <==> s == []
  {
    empty := h.next == h;
  }

  /** Two rings without a common node. */
  ghost predicate Separate(h: ListHead, s: seq<ListHead>, g: ListHead, t: seq<ListHead>) {
    h != g && h !in t && g !in s && forall x :: x in s ==> x !in t
  }

  /** The first half of a move: `e` leaves its ring `t` of `g`, and the ring `s` of `h` is what it was, less `e`. */
  method TakeOut(e: ListHead, ghost h: ListHead, ghost s: seq<ListHead>, ghost g: ListHead, ghost t: seq<ListHead>,
                 ghost k: nat)
    requires Ring(h, s) && Ring(g, t) && k < |t| && t[k] == e
    requires (g == h && t == s) || Separate(h, s, g, t)
    modifies g, t
    ensures Ring(g, RemoveAt(t, k)) && Ring(h, if g == h then RemoveAt(s, k) else s)
    ensures g != h ==> Separate(h, s, g, RemoveAt(t, k))
    ensures e != h && e != g && e !in RemoveAt(t, k) && (g != h ==> e !in s)
  {
    RemoveAtMembers(t, k);
    Unlink(e, g, t, k);
    assert forall i {:trigger s[i]} :: 0 <= i < |s| ==> s[i] in s && (g != h ==> s[i] !in t);
  }

  /** list_move: take `e` from the ring of `g`, which may be that of `h`, to the front of the ring of `h`. */
  method Move(e: ListHead, h: ListHead, ghost s: seq<ListHead>, ghost g: ListHead, ghost t: seq<ListHead>, ghost k: nat)
    requires Ring(h, s) && Ring(g, t) && k < |t| && t[k] == e
    requires (g == h && t == s) || Separate(h, s, g, t)
    modifies h, s, g, t
    ensures g == h ==> Ring(h, [e] + RemoveAt(s, k))
    ensures g != h ==> Ring(h, [e] + s) && Ring(g, RemoveAt(t, k))
  {
    hide RemoveAt;
    TakeOut(e, h, s, g, t, k);
    ghost var left := RemoveAt(t, k);
    assert forall i {:trigger left[i]} :: 0 <= i < |left| ==> left[i] in left;
    Add(e, h, if g == h then left else s);
  }

  /** list_move_tail */
  method MoveTail(e: ListHead, h: ListHead, ghost s: seq<ListHead>, ghost g: ListHead, ghost t: seq<ListHead>,
                  ghost k: nat)
    requires Ring(h, s) && Ring(g, t) && k < |t| && t[k] == e
    requires (g == h && t == s) || Separate(h, s, g, t)
    modifies h, s, g, t
    ensures g == h ==> Ring(h, RemoveAt(s, k) + [e])
    ensures g != h ==> Ring(h, s + [e]) && Ring(g, RemoveAt(t, k))
  {
    hide RemoveAt;
    TakeOut(e, h, s, g, t, k);
    ghost var left := RemoveAt(t, k);
    assert forall i {:trigger left[i]} :: 0 <= i < |left| ==> left[i] in left;
    AddTail(e, h, if g == h then left else s);
  }

  /** list_splice: the elements of `list` go in front of those of `h`; `list` itself is left stale. */
  method Splice(list: ListHead, h: ListHead, ghost t: seq<ListHead>, ghost s: seq<ListHead>)
    requires Ring(list, t) && Ring(h, s) && Separate(h, s, list, t)
    modifies h, s, t
    ensures Ring(h, t + s) && list.next == old(list.next) && list.prev == old(list.prev)
  {
    var empty := Empty(list, t);
    assert forall i {:trigger t[i]} :: 0 <= i < |t| ==> t[i] in t && t[i] !in s && t[i] != h;
    assert forall i {:trigger s[i]} :: 0 <= i < |s| ==> s[i] in s && s[i] !in t && s[i] != h;
    if !empty {
      var first, last, at := list.next, list.prev, h.next;
      first.prev := h;
      h.next := first;
      last.next := at;
      at.prev := last;
    }
    JoinedRing(h, t, s);
  }

  lemma JoinedRing(h: ListHead, t: seq<ListHead>, s: seq<ListHead>)
    requires h !in s && h !in t && Distinct(s) && Distinct(t) && forall x :: x in s ==> x !in t
    requires h.next == (if t == [] then Nth(h, s, 0) else t[0])
    requires h.prev == (if s == [] then Nth(h, t, |t| - 1) else s[|s| - 1])
    requires forall i {:trigger t[i].next} :: 0 <= i < |t| ==>
          t[i].next == if i + 1 < |t| then t[i + 1] else Nth(h, s, 0)
    requires forall i {:trigger t[i].prev} :: 0 <= i < |t| ==> t[i].prev == Nth(h, t, i - 1)
    requires forall i {:trigger s[i].next} :: 0 <= i < |s| ==> s[i].next == Nth(h, s, i + 1)
    requires forall i {:trigger s[i].prev} :: 0 <= i < |s| ==>
          s[i].prev == if i > 0 then s[i - 1] else Nth(h, t, |t| - 1)
    ensures Ring(h, t + s)
  {
    DistinctConcat(t, s);
  }

  lemma DistinctConcat<T>(s: seq<T>, t: seq<T>)
    requires Distinct(s) && Distinct(t) && forall x :: x in s ==> x !in t
    ensures Distinct(s + t)
  {
    forall i, j | 0 <= i < j < |s + t|
      ensures (s + t)[i] != (s + t)[j]
    {
      if i < |s| <= j {
        assert s[i] in s && t[j - |s|] in t;
      }
    }
  }

  /** list_splice_init */
  method SpliceInit(list: ListHead, h: ListHead, ghost t: seq<ListHead>, ghost s: seq<ListHead>)
    requires Ring(list, t) && Ring(h, s) && Separate(h, s, list, t)
    modifies list, h, s, t
    ensures Ring(h, t + s) && Ring(list, [])
  {
    var empty := Empty(list, t);
    Splice(list, h, t, s);
    if !empty {
      Init(list);
    }
  }

  ghost function Keep(s: seq<ListHead>, drop: ListHead -> bool): seq<ListHead> {
    if s == [] then []
    else Keep(s[..|s| - 1], drop) + if drop(s[|s| - 1]) then [] else [s[|s| - 1]]
  }

  lemma KeepStep(s: seq<ListHead>, drop: ListHead -> bool, i: nat)
    requires i < |s|
    ensures Keep(s[..i + 1], drop) == Keep(s[..i], drop) + if drop(s[i]) then [] else [s[i]]
  {
    assert s[..i + 1][..i] == s[..i];
  }

  lemma {:induction false} KeepWithin(s: seq<ListHead>, drop: ListHead -> bool)
    ensures forall x :: x in Keep(s, drop) ==> x in s
  {
    if s != [] {
      KeepWithin(s[..|s| - 1], drop);
    }
  }

  lemma SkipOne(kept: seq<ListHead>, s: seq<ListHead>, i: nat)
    requires i < |s|
    ensures var ring := kept + s[i..];
            && ring[|kept|] == s[i]
            && RemoveAt(ring, |kept|) == kept + s[i + 1..]
            && ring == (kept + [s[i]]) + s[i + 1..]
  {
  }

  /** The body of the iteration at entry `i`: unlink it or leave it. */
  method Visit(pos: ListHead, h: ListHead, drop: ListHead -> bool, ghost s: seq<ListHead>, ghost i: nat)
    requires i < |s| && pos == s[i] && Ring(h, Keep(s[..i], drop) + s[i..])
    modifies h, s
    ensures Ring(h, Keep(s[..i + 1], drop) + s[i + 1..])
  {
    hide Keep, RemoveAt, Ring;
    ghost var kept := Keep(s[..i], drop);
    ghost var ring := kept + s[i..];
    KeepWithin(s[..i], drop);
    KeepStep(s, drop, i);
    SkipOne(kept, s, i);
    Inside(kept, s, i);
    if drop(pos) {
      Del(pos, h, ring, |kept|);
      assert kept + [] == kept;
    }
  }

  /** list_for_each_entry_safe, with a body that may unlink the current entry. */
  method ForEachSafe(h: ListHead, drop: ListHead -> bool, ghost s: seq<ListHead>) returns (visited: seq<ListHead>)
    requires Ring(h, s)
    modifies h, s
    ensures visited == s && Ring(h, Keep(s, drop))
  {
    hide Keep, Ring;
    RingStart(h, s);
    visited := [];
    ghost var i := 0;
    var pos := h.next;
    var n := pos.next;
    StartKeep(s, drop);
    while pos != h
      invariant i <= |s| && visited == s[..i]
      invariant Ring(h, Keep(s[..i], drop) + s[i..])
      invariant pos == Nth(h, s, i) && (pos != h ==> n == Nth(h, s, i + 1))
      decreases |s| - i
    {
      visited := visited + [pos];
      Visit(pos, h, drop, s, i);
      i := i + 1;
      pos := n;
      RingNth(h, Keep(s[..i], drop), s, i);
      n := n.next;
    }
    assert Keep(s, drop) + s[i..] == Keep(s, drop) && s[..i] == s;
  }

  lemma Inside(kept: seq<ListHead>, s: seq<ListHead>, i: nat)
    requires i <= |s| && forall x :: x in kept ==> x in s[..i]
    ensures var ring := kept + s[i..]; forall k {:trigger ring[k]} :: 0 <= k < |ring| ==> ring[k] in s
  {
    var ring := kept + s[i..];
    forall k | 0 <= k < |ring|
      ensures ring[k] in s
    {
      if k < |kept| {
        assert ring[k] == kept[k] && kept[k] in kept;
      } else {
        assert ring[k] == s[i + (k - |kept|)];
      }
    }
  }

  lemma RingStart(h: ListHead, s: seq<ListHead>)
    requires Ring(h, s)
    ensures h !in s && h.next == Nth(h, s, 0) && Nth(h, s, 0).next != null
    ensures s != [] ==> s[0].next == Nth(h, s, 1)
  {
  }

  lemma StartKeep(s: seq<ListHead>, drop: ListHead -> bool)
    ensures Keep(s[..0], drop) + s[0..] == s
  {
  }

  /** In a ring that ends in s[i..], entry s[i] leads to s[i + 1]. */
  lemma RingNth(h: ListHead, kept: seq<ListHead>, s: seq<ListHead>, i: nat)
    requires i <= |s| && h !in s && Ring(h, kept + s[i..])
    ensures i < |s| ==> s[i].next == Nth(h, s, i + 1)
    ensures h.next != null
  {
    var ring := kept + s[i..];
    if i < |s| {
      assert ring[|kept|] == s[i] && ring[|kept|].next == Nth(h, ring, |kept| + 1);
    }
  }
}
