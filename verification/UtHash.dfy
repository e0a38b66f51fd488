/**
 The whole hash as its user sees it, from a NULL head: the elements in the order
 they were added, each also in its bucket's chain. The ghost field `order` holds
 them in application order.
 */
module UtHash {
  import opened Sequences
  import opened Options
  import opened ChainPolicy
  import opened BucketTable

  /** `s` is a whole application-order list from `head`, with right links in both directions. */
  ghost predicate AppLinks(head: Elem?, s: seq<Elem>)
    reads s`prev, s`next
  {
    && head == At(s, 0)
    && (forall i {:trigger s[i].prev} :: 0 <= i < |s| ==> s[i].prev == At(s, i - 1))
    && (forall i {:trigger s[i].next} :: 0 <= i < |s| ==> s[i].next == At(s, i + 1))
  }

  /** `s` is linked in application order through `prev` and `next`. */
  ghost predicate Linked(s: seq<Elem>)
    reads s`prev, s`next
  {
    Distinct(s) && AppLinks(At(s, 0), s)
  }

  ghost function Elems(s: seq<Elem>): set<Elem> {
    set e | e in s
  }

  ghost predicate UniqueKeys(s: seq<Elem>) {
    forall i, j :: 0 <= i < j < |s| ==> s[i].key != s[j].key
  }

  method LinkLast(tail: Elem, add: Elem, ghost s: seq<Elem>)
    requires Linked(s) && |s| > 0 && tail == s[|s| - 1] && add !in s && add.next == null
    modifies tail`next, add`prev
    ensures Linked(s + [add])
  {
    tail.next := add;
    add.prev := tail;
  }

  /** The application-order patch-up of HASH_DELETE. */
  method Unlink(head: Elem, tail: Elem, del: Elem, ghost s: seq<Elem>, ghost k: nat)
    returns (newHead: Elem?, newTail: Elem?)
    requires Linked(s) && k < |s| && s[k] == del && head == s[0] && tail == s[|s| - 1]
    modifies s`prev, s`next
    ensures Linked(RemoveAt(s, k))
    ensures newHead == At(RemoveAt(s, k), 0) && newTail == At(RemoveAt(s, k), |s| - 2)
  {
    RemoveAtMembers(s, k);
    newHead, newTail := head, tail;
    if del == tail {
      newTail := del.prev;
    }
    if del.prev != null {
      del.prev.next := del.next;
    } else {
      newHead := del.next;
    }
    if del.next != null {
      del.next.prev := del.prev;
    }
  }

  lemma OnlyElement(s: seq<Elem>, del: Elem)
    requires Linked(s) && del in s && del.prev == null && del.next == null
    ensures s == [del] && Without(s, del) == []
  {
    var k := IndexOf(s, del);
    assert s[k].prev == At(s, (k as int) - 1) && s[k].next == At(s, k + 1);
  }

  lemma UniqueKeysAppend(s: seq<Elem>, add: Elem)
    requires UniqueKeys(s) && forall e :: e in s ==> e.key != add.key
    ensures UniqueKeys(s + [add])
  {
  }

  lemma UniqueKeysWithout(s: seq<Elem>, del: Elem)
    requires UniqueKeys(s) && del in s
    ensures UniqueKeys(Without(s, del))
  {
  }

  lemma NotOnlyElement(s: seq<Elem>, del: Elem)
    requires Linked(s) && del in s && !(del.prev == null && del.next == null)
    ensures |s| > 1
  {
  }

  lemma LinkedDistinct(s: seq<Elem>)
    requires Linked(s)
    ensures Distinct(s)
  {
  }

  class Hash {
    const fcn: HashFcn
    const bloomBits: Option<nat>
    var head: Elem?
    ghost var order: seq<Elem>
    ghost var Repr: set<object>

    constructor (fcn: HashFcn, bloomBits: Option<nat>)
      ensures Valid() && fresh(Repr) && order == []
      ensures this.fcn == fcn && this.bloomBits == bloomBits
    {
      this.fcn, this.bloomBits, head := fcn, bloomBits, null;
      order, Repr := [], {this};
    }

    ghost predicate Valid()
      reads this, Repr
      ensures Valid() ==> this in Repr
    {
      && this in Repr
      && (forall e :: e in order ==> e in Repr)
      && UniqueKeys(order)
      && Linked(order)
      && (head == null <==> order == [])
      && (head != null ==> head == order[0] && head.tbl != null && head.tbl in Repr && Backed(head.tbl))
    }

    /** `t` is the table behind a non-empty hash. */
    ghost predicate Backed(t: Table)
      requires order != [] && forall e :: e in order ==> e in Repr
      reads this, Repr
    {
      && t in Repr && t.buckets in Repr && (t.bloom != null ==> t.bloom in Repr && t.bloom.bv in Repr)
      && t.fcn == fcn && (t.bloom == null <==> bloomBits == None)
      && t.numItems == |order| && t.tail == order[|order| - 1]
      && t.Valid(Elems(order))
    }

    /** `Valid` of a non-empty hash, from its parts. */
    lemma Establish(t: Table)
      requires this in Repr && t in Repr && order != [] && Elems(order) <= Repr
      requires UniqueKeys(order) && Linked(order) && head == order[0] && head.tbl == t
      requires t.buckets in Repr && (t.bloom != null ==> t.bloom in Repr && t.bloom.bv in Repr)
      requires t.fcn == fcn && (t.bloom == null <==> bloomBits == None)
      requires t.numItems == |order| && t.tail == order[|order| - 1] && t.Valid(Elems(order))
      ensures Valid()
    {
      hide Table.Valid, Linked, UniqueKeys;
      forall e | e in order
        ensures e in Repr
      {
        assert e in Elems(order);
      }
    }

    /**
     While expansion is allowed no chain is longer than its bucket's back-off permits,
     and there are at most 19 items a bucket; the ideal length never exceeds 10.
     */
    lemma ChainsBounded()
      requires Valid() && head != null
      ensures head.tbl.idealChainMaxlen <= 10
      ensures !head.tbl.noexpand ==>
                && |order| <= 19 * head.tbl.numBuckets
                && |head.tbl.chains| == head.tbl.buckets.Length == head.tbl.numBuckets
                && forall j :: 0 <= j < head.tbl.numBuckets ==>
                     |head.tbl.chains[j]| == head.tbl.buckets[j].count <= 10 * (head.tbl.buckets[j].mult + 1)
    {
      var t := head.tbl;
      t.BucketsShape(Elems(order));
      if !t.noexpand {
        ItemsBounded(t.buckets[..]);
        forall j | 0 <= j < t.numBuckets
          ensures |t.chains[j]| == t.buckets[j].count <= 10 * (t.buckets[j].mult + 1)
        {
          assert Chain(t.buckets[..][j], t.chains[j]);
        }
      }
    }

    /** HASH_FIND */
    method Find(key: Key) returns (out: Elem?)
      requires Valid()
      ensures out != null ==> out in order && out.key == key
      ensures out == null ==> forall e :: e in order ==> e.key != key
    {
      out := null;
      if head != null {
        var hashv := fcn(key);
        var j := head.tbl.ToBucket(hashv);
        var maybe := true;
        if head.tbl.bloom != null {
          maybe := head.tbl.bloom.Test(hashv);
        }
        if maybe {
          out := head.tbl.Lookup(key, j, Elems(order));
        }
      }
    }

    /** The part of HASH_ADD_KEYPTR that links `add` in application order. */
    method Append(add: Elem) returns (t: Table)
      requires Valid() && add !in order
      modifies this`head, Repr, add`next, add`prev, add`tbl
      ensures order == old(order) && Repr == old(Repr) && fresh(t.Parts() - old(Repr))
      ensures this in Repr && UniqueKeys(order) && Elems(order) <= Repr
      ensures add.next == null && Linked(order + [add]) && head == (order + [add])[0] && head.tbl == t && t.tail == add
      ensures t.Valid(Elems(order)) && t.numItems == |order|
      ensures t.fcn == fcn && (t.bloom == null <==> bloomBits == None)
    {
      hide Table.Valid;
      add.next := null;
      if head == null {
        head := add;
        head.prev := null;
        t := new Table(fcn, bloomBits, head);
        head.tbl := t;
        assert Elems(order) == {};
      } else {
        t := head.tbl;
        LinkLast(t.tail, add, order);
        t.tail := add;
      }
    }

    /** HASH_ADD_KEYPTR */
    method Add(add: Elem)
      requires Valid() && add !in order && forall e :: e in order ==> e.key != add.key
      modifies Repr, add
      ensures Valid() && order == old(order) + [add] && fresh(Repr - old(Repr) - {add})
    {
      hide Table.Valid, Table.AddedTo, Linked, UniqueKeys, Valid, Backed;
      ghost var grown := order + [add];
      assert Elems(grown) == Elems(order) + {add};
      var t := Append(add);
      UniqueKeysAppend(order, add);
      t.Insert(add, Elems(order));
      assert Linked(grown);
      Repr := Repr + {add} + t.Parts();
      order := grown;
      Establish(t);
    }

    /** The part of HASH_DELETE that patches the application order, when other elements remain. */
    method Patch(del: Elem) returns (t: Table)
      requires Valid() && del in order && |order| > 1
      modifies Repr
      ensures order == old(order) && Repr == old(Repr) && t in Repr && t.buckets == old(head.tbl.buckets)
      ensures Linked(Without(order, del)) && head == Without(order, del)[0] && head in order
      ensures old(t == head.tbl && Backed(t)) && t.Valid(Elems(order)) && t.numItems == |order|
      ensures t.tail == Without(order, del)[|order| - 2]
    {
      hide Table.Valid, UniqueKeys;
      t := head.tbl;
      ghost var k := IndexOf(order, del);
      var newTail;
      head, newTail := Unlink(head, t.tail, del, order, k);
      t.tail := newTail;
    }

    /** The branch of HASH_DELETE for an element that is not alone. */
    method DeleteOneOfMany(del: Elem)
      requires Valid() && del in order && |order| > 1
      modifies Repr
      ensures Valid() && order == Without(old(order), del) && Repr == old(Repr)
    {
      hide Table.Valid, Linked, RemoveAt, IndexOf, UniqueKeys, Valid, Distinct;
      ghost var rest := Without(order, del);
      WithoutFacts(del);
      var t := Patch(del);
      t.Owns(head, Elems(order));
      t.Remove(del, Elems(order));
      order := rest;
      Establish(t);
    }

    lemma WithoutFacts(del: Elem)
      requires Valid() && del in order && |order| > 1
      ensures var rest := Without(order, del);
              && |rest| == |order| - 1 && UniqueKeys(rest)
              && Elems(rest) == Elems(order) - {del} && Elems(order) <= Repr
      ensures head != null && head.tbl != null && Backed(head.tbl)
    {
      WithoutMembers(order, del);
      UniqueKeysWithout(order, del);
    }

    /** HASH_DELETE: the table goes with its last element. */
    method Delete(del: Elem)
      requires Valid() && del in order
      modifies Repr
      ensures Valid() && order == Without(old(order), del) && Repr == old(Repr)
    {
      if del.prev == null && del.next == null {
        OnlyElement(order, del);
        head := null;
        order := [];
      } else {
        NotOnlyElement(order, del);
        DeleteOneOfMany(del);
      }
    }
  }
}
