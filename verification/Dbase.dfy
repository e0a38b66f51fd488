/**
 The arbiter's database as it is laid out: records threaded on the hash table
 through one embedded handle and on the dead list through another.
 */
module Dbase {
  import opened Sequences
  import opened Options
  import opened BucketTable
  import opened UtHash
  import opened CircularList
  import opened ArbiterSpec
  import opened ReaperPass

  /** The four bytes of a UID, low byte first, as the hash table sees them. */
  function UidKey(uid: nat): Key {
    [uid % 256, uid / 256 % 256, uid / 256 / 256 % 256, uid / 256 / 256 / 256]
  }

  lemma UidKeyInjective(a: nat, b: nat)
    requires UidKey(a) == UidKey(b)
    ensures a == b
  {
    var k, m := UidKey(a), UidKey(b);
    assert k[0] == m[0] && k[1] == m[1] && k[2] == m[2] && k[3] == m[3];
    Digit(a / 256 / 256, b / 256 / 256);
    Digit(a / 256, b / 256);
    Digit(a, b);
  }

  lemma Digit(a: nat, b: nat)
    requires a % 256 == b % 256 && a / 256 == b / 256
    ensures a == b
  {
  }

  class Record {
    const uid: nat
    const hh: Elem
    const deadLink: ListHead
    var made: Option<Ids>
    var tapType: int
    var tapValue: int

    constructor (uid: nat, tapType: int, tapValue: int)
      ensures this.uid == uid && made == None && this.tapType == tapType && this.tapValue == tapValue
      ensures fresh(hh) && fresh(deadLink) && hh.key == UidKey(uid)
    {
      this.uid, this.made, this.tapType, this.tapValue := uid, None, tapType, tapValue;
      hh := new Elem(UidKey(uid));
      deadLink := new ListHead();
    }

    ghost function View(): Rec
      reads this
    {
      Rec(uid, made, tapType, tapValue)
    }
  }

  ghost function Handles(s: seq<Record>): (r: seq<Elem>)
    ensures |r| == |s| && forall i :: 0 <= i < |s| ==> r[i] == s[i].hh
  {
    seq(|s|, i requires 0 <= i < |s| => s[i].hh)
  }

  ghost function Links(s: seq<Record>): (r: seq<ListHead>)
    ensures |r| == |s| && forall i :: 0 <= i < |s| ==> r[i] == s[i].deadLink
  {
    seq(|s|, i requires 0 <= i < |s| => s[i].deadLink)
  }

  ghost function Views(s: seq<Record>): (r: seq<Rec>)
    reads s
    ensures |r| == |s| && forall i :: 0 <= i < |s| ==> r[i] == s[i].View()
  {
    seq(|s|, i requires 0 <= i < |s| reads s => s[i].View())
  }

  ghost function Uids(s: seq<Record>): (uids: seq<nat>)
    ensures |uids| == |s| && forall i :: 0 <= i < |s| ==> uids[i] == s[i].uid
  {
    seq(|s|, i requires 0 <= i < |s| => s[i].uid)
  }

  /** The records among the first `n` of `all` that the replies do not let stay, in order. */
  ghost function Picked(all: seq<Record>, views: seq<Rec>, replies: seq<ReapReply>, n: nat): seq<Record>
    requires n <= |all| == |views| == |replies|
  {
    if n == 0 then []
    else Picked(all, views, replies, n - 1) + if Destroyable(views[n - 1], replies[n - 1]) then [all[n - 1]] else []
  }

  lemma PickedNone(had: seq<Record>, all: seq<Record>, views: seq<Rec>, replies: seq<ReapReply>)
    requires |all| == |views| == |replies|
    ensures had + Picked(all, views, replies, 0) == had
  {
  }

  lemma PickedNext(had: seq<Record>, all: seq<Record>, views: seq<Rec>, replies: seq<ReapReply>, i: nat)
    requires i < |all| == |views| == |replies|
    ensures had + Picked(all, views, replies, i + 1) ==
            (had + Picked(all, views, replies, i)) + if Destroyable(views[i], replies[i]) then [all[i]] else []
  {
    hide Destroyable;
    Assoc(had, Picked(all, views, replies, i), if Destroyable(views[i], replies[i]) then [all[i]] else []);
  }

  lemma {:induction false} PickedDoomed(all: seq<Record>, views: seq<Rec>, replies: seq<ReapReply>, n: nat)
    requires n <= |all| == |views| == |replies| && forall i :: 0 <= i < n ==> views[i].uid == all[i].uid
    ensures Uids(Picked(all, views, replies, n)) == CallUids(Doomed(views[..n], replies[..n]))
  {
    hide Destroyable;
    if n > 0 {
      PickedDoomed(all, views, replies, n - 1);
      DoomedSnoc(views[..n - 1], replies[..n - 1], views[n - 1], replies[n - 1]);
      assert views[..n] == views[..n - 1] + [views[n - 1]] && replies[..n] == replies[..n - 1] + [replies[n - 1]];
    }
  }

  /** No record is destroyed twice, or destroyed and still there. */
  ghost predicate Buried(destroyed: seq<Record>, active: seq<Record>, dead: seq<Record>) {
    Distinct(destroyed) && forall r :: r in destroyed ==> r !in active && r !in dead
  }

  /** The maps from embedded handles lead back to the records of `s`. */
  ghost predicate Contained(s: seq<Record>, ofHandle: map<Elem, Record>, ofLink: map<ListHead, Record>) {
    forall r :: r in s ==>
      && r.hh in ofHandle && ofHandle[r.hh] == r && r.hh.key == UidKey(r.uid)
      && r.deadLink in ofLink && ofLink[r.deadLink] == r
  }

  /** Neither the records of `s` nor their dead links are in `repr`. */
  ghost predicate OutsideOf(s: seq<Record>, repr: set<object>) {
    forall r :: r in s ==> r !in repr && r.deadLink !in repr
  }

  lemma SweepStep(s: State, j: nat, replies: seq<ReapReply>)
    requires j + |replies| == |s.dead| && replies != []
    ensures Sweep(s, j, replies) ==
            if Destroyable(s.dead[j], replies[0])
            then Sweep(Destroy(s, s.dead[j], replies[0]).(dead := RemoveAt(s.dead, j)), j, replies[1..])
            else Sweep(s, j + 1, replies[1..])
  {
  }

  lemma SweepEnd(s: State, j: nat, replies: seq<ReapReply>, dead: seq<Rec>, err: int)
    requires j == |s.dead| && replies == [] && dead == []
    ensures Sweep(s, j, replies) == s && SweepError(dead, replies, err) == err
  {
  }

  lemma WrittenStep(s: State, j: nat, replies: seq<ReapReply>)
    requires j + |replies| == |s.dead| && replies != []
    ensures var t := if Destroyable(s.dead[j], replies[0]) then Destroy(s, s.dead[j], replies[0]) else s;
            && t.dead == s.dead && t.active == s.active
            && SweepAsWritten(s, j, replies) == SweepAsWritten(t, j + 1, replies[1..])
  {
  }

  lemma WrittenEnd(s: State, j: nat, replies: seq<ReapReply>, dead: seq<Rec>, err: int)
    requires j == |s.dead| && replies == [] && dead == []
    ensures SweepAsWritten(s, j, replies) == s && SweepError(dead, replies, err) == err
  {
  }

  lemma LinksWithin(s: seq<Record>, t: seq<Record>)
    requires forall r :: r in s ==> r in t
    ensures forall i {:trigger Links(s)[i]} :: 0 <= i < |s| ==> Links(s)[i] in Links(t)
  {
    forall i | 0 <= i < |s|
      ensures Links(s)[i] in Links(t)
    {
      assert s[i] in t;
      var j :| 0 <= j < |t| && t[j] == s[i];
      assert Links(t)[j] == Links(s)[i];
    }
  }

  lemma SweepErrorStep(dead: seq<Rec>, replies: seq<ReapReply>, err: int)
    requires |dead| == |replies| && dead != []
    ensures var next := if dead[0].made.Some? then replies[0].err else err;
            SweepError(dead, replies, err) == SweepError(dead[1..], replies[1..], next)
  {
  }

  class Database {
    const data: Hash
    const deadList: ListHead
    var kernel: Kernel
    /** What the pointer arithmetic from an embedded handle to its record computes. */
    var ofHandle: map<Elem, Record>
    var ofLink: map<ListHead, Record>
    ghost var active: seq<Record>
    ghost var dead: seq<Record>
    ghost var leaked: set<int>
    /** The records that reserveRecordDestroy has been called on, in order. */
    ghost var destroyed: seq<Record>

    ghost predicate Valid()
      reads this`active, this`dead, this`ofHandle, this`ofLink, this`destroyed, data, data.Repr, deadList, Links(dead)
    {
      Holds(active, dead, ofHandle, ofLink) && Buried(destroyed, active, dead)
    }

    /** The hash holds the records `live` and the ring the records `gone`, each record with its own handles. */
    ghost predicate Holds(live: seq<Record>, gone: seq<Record>, ofHandle: map<Elem, Record>, ofLink: map<ListHead,
                          Record>)
      reads data, data.Repr, deadList, Links(gone)
    {
      && data.Valid() && data.order == Handles(live)
      && Ring(deadList, Links(gone))
      && Owned(live, gone, ofHandle, ofLink, data.Repr)
    }

    /**
     Which objects belong to what: no record is in both structures, and neither is any object of
     `repr`, the hash table's.
     */
    ghost predicate Owned(live: seq<Record>, gone: seq<Record>, ofHandle: map<Elem, Record>, ofLink: map<ListHead,
                          Record>,
                          repr: set<object>) {
      && Distinct(live) && Distinct(gone) && (forall r :: r in live ==> r !in gone)
      && Contained(live, ofHandle, ofLink) && Contained(gone, ofHandle, ofLink)
      && this !in repr && deadList !in repr && OutsideOf(live, repr) && OutsideOf(gone, repr)
      && forall r :: r in live ==> r.deadLink != deadList
    }

    ghost function View(): State
      reads this, active, dead
    {
      State(Views(active), Views(dead), kernel, leaked)
    }

    constructor (fcn: HashFcn, bloomBits: Option<nat>, kernel: Kernel)
      ensures Valid() && fresh(data) && fresh(data.Repr) && fresh(deadList)
      ensures View() == State([], [], kernel, {}) && destroyed == []
    {
      data := new Hash(fcn, bloomBits);
      deadList := new ListHead();
      this.kernel, ofHandle, ofLink := kernel, map[], map[];
      active, dead, leaked, destroyed := [], [], {}, [];
      new;
      Init(deadList);
    }

    lemma UniqueUid(i: nat, j: nat)
      requires Valid() && i < |active| && j < |active| && active[i].uid == active[j].uid
      ensures i == j
    {
      assert active[i] in active && active[j] in active;
      assert data.order[i].key == data.order[j].key;
    }

    /** What a lookup in the records, or in their views, finds. */
    lemma FindsRecord(uid: nat)
      ensures Find(Views(active), uid) >= 0 <==> exists r :: r in active && r.uid == uid
      ensures Find(Views(active), uid) >= 0 ==> active[Find(Views(active), uid)].uid == uid
    {
      var k := Find(Views(active), uid);
      if k >= 0 {
        assert active[k] in active && Views(active)[k] == active[k].View();
      } else {
        forall r | r in active
          ensures r.uid != uid
        {
          var i :| 0 <= i < |active| && active[i] == r;
          assert Views(active)[i] == r.View();
        }
      }
    }

    /** The record around a handle found under the key of `uid`. */
    lemma Found(e: Elem, uid: nat)
      requires Valid() && e in data.order && e.key == UidKey(uid)
      ensures var k := Find(Views(active), uid); k >= 0 && e in ofHandle && ofHandle[e] == active[k]
    {
      var i :| 0 <= i < |data.order| && data.order[i] == e;
      assert active[i] in active;
      UidKeyInjective(active[i].uid, uid);
      FindsRecord(uid);
      UniqueUid(i, Find(Views(active), uid));
    }

    lemma NotFound(uid: nat)
      requires Valid() && forall e :: e in data.order ==> e.key != UidKey(uid)
      ensures Find(Views(active), uid) < 0 && forall r :: r in active ==> r.uid != uid
    {
      forall r | r in active
        ensures r.uid != uid
      {
        assert r.hh in data.order;
      }
      FindsRecord(uid);
    }

    /** reserveDataDBLookupEntryLocked */
    method Lookup(uid: nat) returns (record: Record?)
      requires Valid()
      ensures var k := Find(Views(active), uid); if k < 0 then record == null else record == active[k]
      ensures record == null ==> forall r :: r in active ==> r.uid != uid
    {
      hide Valid, UidKey, Hash.Valid, Find, Views;
      Parts();
      var e := data.Find(UidKey(uid));
      if e == null {
        NotFound(uid);
        record := null;
      } else {
        Found(e, uid);
        record := ofHandle[e];
      }
    }

    /** The parts of Valid that the methods need when its definition is hidden. */
    lemma Parts()
      requires Valid()
      ensures data.Valid() && data.order == Handles(active) && Ring(deadList, Links(dead)) && Distinct(active)
      ensures this !in data.Repr && deadList !in data.Repr && OutsideOf(active, data.Repr) && OutsideOf(dead, data.Repr)
    {
    }

    /** An active record is in neither the hash table's objects nor the dead list, and at one place only. */
    lemma ActiveRecord(k: nat)
      requires Valid() && k < |active|
      ensures active[k] in active && active[k] !in data.Repr && active[k] !in dead
      ensures forall i :: 0 <= i < |active| && i != k ==> active[i] != active[k]
    {
    }

    lemma FreshKey(uid: nat, key: Key)
      requires Valid() && key == UidKey(uid) && forall r :: r in active ==> r.uid != uid
      ensures forall e :: e in data.order ==> e.key != key
    {
      forall e | e in data.order
        ensures e.key != key
      {
        var i :| 0 <= i < |data.order| && data.order[i] == e;
        assert active[i] in active;
        if e.key == key {
          UidKeyInjective(active[i].uid, uid);
        }
      }
    }

    /** The part of reserveDataDBAddEntry that hashes a record just created. */
    method Insert(r: Record)
      requires Valid() && r.hh.key == UidKey(r.uid) && forall x :: x in active ==> x.uid != r.uid
      requires r.hh !in ofHandle && r.deadLink !in ofLink && r.deadLink != deadList
      requires r !in data.Repr && r.hh !in data.Repr && r.deadLink !in data.Repr && r !in destroyed
      modifies this`ofHandle, this`ofLink, this`active, data.Repr, r.hh
      ensures Valid() && fresh(data.Repr - old(data.Repr) - {r.hh})
      ensures active == old(active) + [r] && View() == old(View()).(active := old(View()).active + [r.View()])
    {
      hide Hash.Valid, Ring, UidKey, Contained, Distinct;
      HashNew(r);
      ofHandle := ofHandle[r.hh := r];
      ofLink := ofLink[r.deadLink := r];
      active := active + [r];
      assert Views(active) == old(Views(active)) + [r.View()];
    }

    /** HASH_ADD of a record just created. */
    method HashNew(r: Record)
      requires Valid() && r.hh.key == UidKey(r.uid) && forall x :: x in active ==> x.uid != r.uid
      requires r.hh !in ofHandle && r.deadLink !in ofLink && r.deadLink != deadList
      requires r !in data.Repr && r.hh !in data.Repr && r.deadLink !in data.Repr
      modifies data.Repr, r.hh
      ensures Holds(active + [r], dead, ofHandle[r.hh := r], ofLink[r.deadLink := r])
      ensures fresh(data.Repr - old(data.Repr) - {r.hh})
    {
      hide Hash.Valid, Ring, UidKey;
      FreshKey(r.uid, r.hh.key);
      data.Add(r.hh);
    }

    /** reserveDataDBAddEntry */
    method AddEntry(uid: nat, tapType: int, tapValue: int) returns (err: int)
      requires Valid()
      modifies this`ofHandle, this`ofLink, this`active, data.Repr
      ensures Valid() && fresh(data.Repr - old(data.Repr))
      ensures err == if Find(old(View()).active, uid) >= 0 then -EEXIST else 0
      ensures forall r :: r in active ==> r in old(active) || (fresh(r) && fresh(r.deadLink))
      ensures View() == if err != 0 then old(View())
                        else old(View()).(active := old(View()).active + [Rec(uid, None, tapType, tapValue)])
    {
      hide Hash.Valid, Ring, UidKey, Contained, Distinct;
      err := 0;
      var record := Lookup(uid);
      if record != null {
        err := -EEXIST;
      } else {
        var r := new Record(uid, tapType, tapValue);
        Insert(r);
      }
    }

    /** The handle of a retired record leaves the hash where the record leaves the active ones. */
    lemma HandlesWithout(record: Record)
      requires Valid() && record in active
      ensures record.hh in data.order && Without(data.order, record.hh) == Handles(Without(active, record))
      ensures Distinct(Without(active, record)) && Distinct(dead + [record])
      ensures forall r :: r in Without(active, record) <==> r in active && r != record
    {
      hide Hash.Valid, Ring, OutsideOf;
      WithoutMembers(active, record);
      var k := IndexOf(active, record);
      assert data.order[k] == record.hh;
      var i := IndexOf(data.order, record.hh);
      assert active[i] in active && active[k] in active;
    }

    /** HASH_DELETE and list_add_tail: an active record joins the dead ones. */
    method Retire(record: Record)
      requires Valid() && record in active
      modifies this`active, this`dead, data.Repr
      modifies deadList`next, deadList`prev, record.deadLink`next, record.deadLink`prev, Links(dead)`next,
          Links(dead)`prev
      ensures Valid() && data.Repr == old(data.Repr)
      ensures active == Without(old(active), record) && dead == old(dead) + [record]
      ensures forall r :: r in active ==> r in old(active)
    {
      hide Hash.Valid, Ring, UidKey, Without, Owned;
      Movable(record);
      ghost var rest, more := Without(active, record), dead + [record];
      data.Delete(record.hh);
      AddTail(record.deadLink, deadList, Links(dead));
      assert Links(more) == Links(dead) + [record.deadLink];
      active, dead := rest, more;
    }

    /** What Retire needs to know of `record`, and keeps. */
    lemma Movable(record: Record)
      requires Valid() && record in active
      ensures var rest, more := Without(active, record), dead + [record];
              && record.hh in data.order && Without(data.order, record.hh) == Handles(rest)
              && (forall r :: r in rest ==> r in active) && Buried(destroyed, rest, more)
              && Owned(rest, more, ofHandle, ofLink, data.Repr)
      ensures record.deadLink != deadList && record.deadLink !in Links(dead)
      ensures record.deadLink !in data.Repr && forall l :: l in Links(dead) ==> l !in data.Repr
      ensures this !in data.Repr && deadList !in data.Repr
    {
      hide Hash.Valid, Ring, Distinct;
      HandlesWithout(record);
      forall l | l in Links(dead)
        ensures l !in data.Repr && l != record.deadLink
      {
        var i :| 0 <= i < |dead| && dead[i].deadLink == l;
        assert dead[i] in dead;
      }
    }

    /** reserveDataDBRemoveEntry */
    method RemoveEntry(uid: nat) returns (err: int)
      requires Valid()
      modifies this`active, this`dead, data.Repr
      modifies deadList`next, deadList`prev, Links(active)`next, Links(active)`prev, Links(dead)`next, Links(dead)`prev
      ensures Valid() && data.Repr == old(data.Repr)
      ensures (View(), err) == RemoveParams(old(View()), uid)
      ensures forall r :: r in active || r in dead ==> r in old(active) || r in old(dead)
      ensures forall r :: r in old(dead) ==> r in dead
    {
      hide Hash.Valid, Ring, UidKey, Valid, Owned, Without, Distinct, Find;
      var record := Lookup(uid);
      if record == null {
        err := -ENOENT;
      } else {
        Parts();
        ghost var k, live, gone := Find(Views(active), uid), active, dead;
        ViewsWithout(live, k);
        Retire(record);
        assert Views(live) == old(Views(active)) && Views(gone) == old(Views(dead));
        ViewsWithout(live, k);
        assert Views(gone + [record]) == Views(gone) + [record.View()];
        err := 0;
      }
    }

    lemma ViewsWithout(s: seq<Record>, k: nat)
      requires Distinct(s) && k < |s|
      ensures Views(Without(s, s[k])) == Views(s)[..k] + Views(s)[k + 1..]
    {
    }

    /** reserveDataDBEmpty: a HASH_ITER that deletes each element it visits. */
    method Empty()
      requires Valid()
      modifies this`active, this`dead, data.Repr
      modifies deadList`next, deadList`prev, Links(active)`next, Links(active)`prev, Links(dead)`next, Links(dead)`prev
      ensures Valid() && data.head == null && data.Repr == old(data.Repr)
      ensures active == [] && dead == old(dead) + old(active) && View() == ArbiterSpec.Empty(old(View()))
    {
      hide Hash.Valid, Ring, UidKey, Valid, Owned, Distinct;
      Parts();
      ghost var all, had := active, dead;
      RetireEach();
      assert Views(all) == old(Views(active)) && Views(had) == old(Views(dead));
      assert Views(had + all) == Views(had) + Views(all);
    }

    method RetireEach()
      requires Valid()
      modifies this`active, this`dead, data.Repr
      modifies deadList`next, deadList`prev, Links(active)`next, Links(active)`prev, Links(dead)`next, Links(dead)`prev
      ensures Valid() && data.head == null && data.Repr == old(data.Repr)
      ensures active == [] && dead == old(dead) + old(active)
    {
      hide Hash.Valid, Ring, UidKey, Valid, Owned, Without, Distinct;
      ghost var all, had := active, dead;
      ghost var i := 0;
      Heads(all, 0);
      var el := data.head;
      var tmp := if el == null then null else el.next;
      while el != null
        invariant Valid() && data.Repr == old(data.Repr)
        invariant i <= |all| && active == all[i..] && dead == had + all[..i]
        invariant el == At(Handles(all), i) && (el != null ==> tmp == At(Handles(all), i + 1))
        decreases |all| - i
      {
        Heads(all, i);
        var e: Elem := el;
        Retire(ofHandle[e]);
        assert had + all[..i + 1] == (had + all[..i]) + [all[i]];
        i := i + 1;
        Heads(all, i);
        el := tmp;
        tmp := if tmp == null then null else tmp.next;
      }
      Heads(all, i);
    }

    /** The hash's head, and its successor, when the active records are `all` from `i` on. */
    lemma Heads(all: seq<Record>, i: nat)
      requires Valid() && i <= |all| && active == all[i..]
      ensures data.head == At(Handles(all), i)
      ensures data.head != null ==>
                && data.head.next == At(Handles(all), i + 1)
                && data.head in ofHandle && ofHandle[data.head] == all[i] && all[i] in active
                && Without(active, all[i]) == all[i + 1..]
    {
      hide Ring, UidKey;
      if i < |all| {
        assert active[0] in active;
        WithoutFirst(active);
      }
    }

    lemma WithoutFirst(s: seq<Record>)
      requires Distinct(s) && s != []
      ensures Without(s, s[0]) == s[1..]
    {
    }

    /** The unlinking of a destroyed record, which the source leaves out. */
    method Unhook(record: Record, ghost j: nat)
      requires Valid() && j < |dead| && dead[j] == record
      modifies this`dead, deadList`next, deadList`prev, Links(dead)`next, Links(dead)`prev
      ensures Valid() && dead == RemoveAt(old(dead), j)
      ensures View() == old(View()).(dead := RemoveAt(old(View()).dead, j))
      ensures forall r :: r in dead <==> r in old(dead) && r != record
    {
      hide Hash.Valid, Ring, Distinct, Contained;
      Unhookable(j);
      Del(record.deadLink, deadList, Links(dead), j);
      dead := RemoveAt(dead, j);
    }

    lemma Unhookable(j: nat)
      requires Valid() && j < |dead|
      ensures Owned(active, RemoveAt(dead, j), ofHandle, ofLink, data.Repr)
      ensures RemoveAt(Links(dead), j) == Links(RemoveAt(dead, j))
      ensures Views(RemoveAt(dead, j)) == RemoveAt(Views(dead), j)
      ensures forall r :: r in RemoveAt(dead, j) <==> r in dead && r != dead[j]
      ensures Buried(destroyed, active, RemoveAt(dead, j)) && dead[j] !in active && dead[j] !in destroyed
      ensures deadList !in data.Repr && forall l :: l in Links(dead) ==> l !in data.Repr
    {
      hide Hash.Valid, Ring;
      RemoveAtMembers(dead, j);
      forall l | l in Links(dead)
        ensures l !in data.Repr
      {
        var i :| 0 <= i < |dead| && dead[i].deadLink == l;
        assert dead[i] in dead;
      }
    }

    /** reserveRecordDestroy, given the kernel's reply to the put */
    method DestroyRecord(record: Record, reply: ReapReply)
      modifies this`kernel, this`leaked
      requires Valid()
      ensures Valid() && View() == Destroy(old(View()), record.View(), reply)
    {
      hide Hash.Valid, Ring, UidKey, Contained, Distinct;
      Parts();
      if record.made.Some? {
        if reply.put == 0 {
          kernel := PutReserve(kernel, record.made.value.rid, 0);
        } else {
          leaked := leaked + {record.made.value.rid};
        }
      }
    }

    /** The log of destroyed records. */
    ghost method Bury(record: Record)
      requires Valid() && record !in active && record !in dead && record !in destroyed
      modifies this`destroyed
      ensures Valid() && destroyed == old(destroyed) + [record]
    {
      hide Hash.Valid, Ring, UidKey, Contained, OutsideOf;
      Parts();
      destroyed := destroyed + [record];
    }

    /** The body of the reaper's loop for the dead record at `j`. */
    method Reap(record: Record, ghost j: nat, reply: ReapReply, err: int) returns (newErr: int)
      requires Valid() && j < |dead| && dead[j] == record
      modifies this`dead, this`destroyed, this`kernel, this`leaked
      modifies deadList`next, deadList`prev, Links(dead)`next, Links(dead)`prev
      ensures destroyed == old(destroyed) + if Destroyable(record.View(), reply) then [record] else []
      ensures Valid() && newErr == if record.made.Some? then reply.err else err
      ensures var next := if Destroyable(record.View(), reply) then j else j + 1;
              next <= |dead| && dead[next..] == old(dead)[j + 1..]
      ensures forall r :: r in dead <==> r in old(dead) && (r == record ==> !Destroyable(record.View(), reply))
      ensures View() == if Destroyable(record.View(), reply)
                        then Destroy(old(View()), record.View(), reply).(dead := RemoveAt(old(View()).dead, j))
                        else old(View())
    {
      hide Valid, Distinct, Destroy, Views, Buried;
      newErr := err;
      if record.made.Some? {
        newErr := reply.err;
        if newErr != 0 || reply.users != 1 {
          return;
        }
      }
      Unhookable(j);
      DestroyRecord(record, reply);
      Unhook(record, j);
      Bury(record);
    }

    /** The traversal of the dead records `all` has come to the `i`th, which is now the `j`th dead one. */
    ghost predicate Remaining(all: seq<Record>, i: nat, j: nat)
      reads this`active, this`dead, this`ofHandle, this`ofLink, this`destroyed, data, data.Repr, deadList, Links(dead)
    {
      Valid() && i <= |all| && j <= |dead| && dead[j..] == all[i..] && forall r :: r in dead ==> r in all
    }

    /**
     The traversal has come to the `i`th of the dead records `all`: those before
     it are gone exactly if they had to go, and no record has changed.
     */
    ghost predicate Progress(all: seq<Record>, views: seq<Rec>, replies: seq<ReapReply>, i: nat, j: nat)
      reads this`active, this`dead, this`ofHandle, this`ofLink, this`destroyed
      reads data, data.Repr, deadList, Links(dead), all
    {
      && |all| == |views| == |replies| && Distinct(all) && Remaining(all, i, j)
      && (forall k {:trigger all[k]} :: 0 <= k < |all| ==> all[k].View() == views[k])
      && (forall k {:trigger all[k]} :: 0 <= k < |all| ==>
          (all[k] in dead <==> k >= i || !Destroyable(views[k], replies[k])))
    }

    lemma ProgressStarts(replies: seq<ReapReply>)
      requires Valid() && |replies| == |dead|
      ensures Progress(dead, Views(dead), replies, 0, 0)
    {
    }

    /** What a finished traversal says. */
    lemma ProgressEnds(all: seq<Record>, views: seq<Rec>, replies: seq<ReapReply>, j: nat)
      requires Progress(all, views, replies, |all|, j)
      ensures j == |dead| && (forall r :: r in dead ==> r in all)
      ensures forall k :: 0 <= k < |all| ==> (all[k] in dead <==> !Destroyable(views[k], replies[k]))
    {
      hide Valid, Distinct, Destroyable;
    }

    /** reserveDataDBClearUnused, given the kernel's replies for the dead records in order */
    method ClearUnused(replies: seq<ReapReply>) returns (err: int, isEmpty: bool)
      requires Valid() && |replies| == |dead|
      modifies this`dead, this`destroyed, this`kernel, this`leaked
      modifies deadList`next, deadList`prev, Links(dead)`next, Links(dead)`prev
      ensures destroyed == old(destroyed) + Picked(old(dead), old(Views(dead)), replies, |replies|)
      ensures Valid() && View() == Sweep(old(View()), 0, replies) && (isEmpty <==> dead == [])
      ensures err == SweepError(old(View()).dead, replies, 0)
      ensures forall i: nat :: LastMade(old(View()).dead, i) ==> err == replies[i].err
      ensures forall r :: r in dead ==> r in old(dead)
      ensures forall i :: 0 <= i < |replies| ==> (old(dead)[i] in dead
                                                  <==> !Destroyable(old(dead[i].View()), replies[i]))
    {
      hide Hash.Valid, Ring, UidKey, Valid, Sweep, SweepError, Destroyable, LastMade, Progress, Picked;
      ghost var all, views := dead, Views(dead);
      ghost var j;
      err, j := VisitAll(replies);
      ProgressEnds(all, views, replies, j);
      SweepEnd(View(), j, replies[|all|..], views[|all|..], err);
      ErrorExactly(views, replies, 0);
      ValidOf(all, views, replies, |all|, j);
      Parts();
      isEmpty := CircularList.Empty(deadList, Links(dead));
    }

    lemma ValidOf(all: seq<Record>, views: seq<Rec>, replies: seq<ReapReply>, i: nat, j: nat)
      requires Progress(all, views, replies, i, j)
      ensures Valid() && i <= |all| == |views| == |replies| && j <= |dead| && |dead| - j == |all| - i
            && dead[j..] == all[i..]
    {
      hide Valid, Distinct;
    }

    /** The reaper's loop over the dead list. */
    method VisitAll(replies: seq<ReapReply>) returns (err: int, ghost j: nat)
      requires Valid() && |replies| == |dead|
      modifies this`dead, this`destroyed, this`kernel, this`leaked
      modifies deadList`next, deadList`prev, Links(dead)`next, Links(dead)`prev
      ensures destroyed == old(destroyed) + Picked(old(dead), old(Views(dead)), replies, |replies|)
      ensures Progress(old(dead), old(Views(dead)), replies, |old(dead)|, j) && |View().dead| == j
      ensures Sweep(View(), j, replies[|old(dead)|..]) == Sweep(old(View()), 0, replies)
      ensures SweepError(old(Views(dead))[|old(dead)|..], replies[|old(dead)|..], err) == SweepError(old(View()).dead,
            replies, 0)
    {
      hide Hash.Valid, Ring, UidKey, Valid, Sweep, SweepError, Progress, Distinct, Owned, OutsideOf;
      hide Destroyable, Picked;
      ghost var all, views := dead, Views(dead);
      j := 0;
      var i := 0;
      err := 0;
      Parts();
      RingStart(deadList, Links(all));
      ProgressStarts(replies);
      PickedNone(old(destroyed), all, views, replies);
      ValidOf(all, views, replies, i, j);
      var pos := deadList.next;
      var n := pos.next;
      while pos != deadList
        invariant i <= |all| && Progress(all, views, replies, i, j) && |View().dead| - j == |all| - i
        invariant pos == Nth(deadList, Links(all), i) && (pos != deadList ==> n == Nth(deadList, Links(all), i + 1))
        invariant Sweep(View(), j, replies[i..]) == Sweep(old(View()), 0, replies)
        invariant SweepError(views[i..], replies[i..], err) == SweepError(views, replies, 0)
        invariant destroyed == old(destroyed) + Picked(all, views, replies, i)
        decreases |all| - i
      {
        ValidOf(all, views, replies, i, j);
        Listed(all, i, j);
        PickedNext(old(destroyed), all, views, replies, i);
        err, j := Visit(all, views, replies, i, j, pos, err);
        i := i + 1;
        ValidOf(all, views, replies, i, j);
        Listed(all, i, j);
        pos := n;
        n := n.next;
      }
      assert i == |all|;
    }

    /** One iteration of the reaper's loop. */
    method Visit(ghost all: seq<Record>, ghost views: seq<Rec>, replies: seq<ReapReply>, i: nat, ghost j: nat,
                 pos: ListHead, err: int)
      returns (newErr: int, ghost newJ: nat)
      requires Progress(all, views, replies, i, j) && i < |all| && |View().dead| - j == |all| - i
      requires pos == all[i].deadLink && pos in ofLink && ofLink[pos] == all[i]
      modifies this`dead, this`destroyed, this`kernel, this`leaked
      modifies deadList`next, deadList`prev, Links(all)`next, Links(all)`prev
      ensures destroyed == old(destroyed) + if Destroyable(views[i], replies[i]) then [all[i]] else []
      ensures Progress(all, views, replies, i + 1, newJ) && |View().dead| - newJ == |all| - (i + 1)
      ensures Sweep(View(), newJ, replies[i + 1..]) == Sweep(old(View()), j, replies[i..])
      ensures SweepError(views[i + 1..], replies[i + 1..], newErr) == SweepError(views[i..], replies[i..], err)
    {
      hide Hash.Valid, Ring, UidKey, Valid, Sweep, SweepError, RemoveAt, Destroy, Destroyable, Contained;
      SweepStep(View(), j, replies[i..]);
      SweepErrorStep(views[i..], replies[i..], err);
      LinksWithin(dead, all);
      assert dead[j] == dead[j..][0];
      var record := ofLink[pos];
      newErr := Reap(record, j, replies[i], err);
      newJ := if Destroyable(record.View(), replies[i]) then j else j + 1;
      assert all[i..][1..] == all[i + 1..];
    }

    /** Where the traversal stands when the records from `j` on are `all[i..]`. */
    lemma Listed(all: seq<Record>, i: nat, j: nat)
      requires Valid() && i <= |all| && j <= |dead| && dead[j..] == all[i..]
      ensures deadList.next != null && |dead| - j == |all| - i
      ensures i < |all| ==>
                && dead[j] == all[i] && all[i].deadLink in ofLink && ofLink[all[i].deadLink] == all[i]
                && all[i].deadLink.next == Nth(deadList, Links(all), i + 1)
                && all[i].deadLink != deadList
    {
      hide UidKey, Hash.Valid;
      if i < |all| {
        assert dead[j] == dead[j..][0] && dead[j] in dead;
        assert Links(dead)[j] in Links(dead) && Links(dead)[j].next == Nth(deadList, Links(dead), j + 1);
        if i + 1 < |all| {
          assert dead[j + 1] == dead[j..][1];
        }
      }
    }

    /** reserveDataDBClearUnused as it is written: the loop without the unlinking. */
    method ClearUnusedAsWritten(replies: seq<ReapReply>) returns (err: int, isEmpty: bool)
      requires Valid() && |replies| == |dead|
      modifies this`kernel, this`leaked
      ensures Valid() && View() == SweepAsWritten(old(View()), 0, replies) && (isEmpty <==> dead == [])
      ensures err == SweepError(old(View()).dead, replies, 0)
    {
      hide Hash.Valid, Ring, UidKey, Valid, SweepAsWritten, SweepError;
      err := PassAll(replies);
      Parts();
      isEmpty := CircularList.Empty(deadList, Links(dead));
    }

    /** That loop. */
    method PassAll(replies: seq<ReapReply>) returns (err: int)
      requires Valid() && |replies| == |dead|
      modifies this`kernel, this`leaked
      ensures Valid() && View() == SweepAsWritten(old(View()), 0, replies)
      ensures err == SweepError(old(View()).dead, replies, 0)
    {
      hide Hash.Valid, Ring, UidKey, Valid, SweepAsWritten, SweepError, Distinct, Destroy, Destroyable, Owned;
      ghost var views := Views(dead);
      var i := 0;
      err := 0;
      Parts();
      RingStart(deadList, Links(dead));
      var pos := deadList.next;
      var n := pos.next;
      while pos != deadList
        invariant i <= |dead| && Valid() && View().dead == views && View().active == old(View()).active
        invariant pos == Nth(deadList, Links(dead), i) && (pos != deadList ==> n == Nth(deadList, Links(dead), i + 1))
        invariant SweepAsWritten(View(), i, replies[i..]) == SweepAsWritten(old(View()), 0, replies)
        invariant SweepError(views[i..], replies[i..], err) == SweepError(views, replies, 0)
        decreases |dead| - i
      {
        Listed(dead, i, i);
        var p: ListHead := pos;
        WrittenStep(View(), i, replies[i..]);
        SweepErrorStep(views[i..], replies[i..], err);
        err := Pass(ofLink[p], replies[i], err);
        i := i + 1;
        Listed(dead, i, i);
        pos := n;
        n := n.next;
      }
      assert i == |dead|;
      WrittenEnd(View(), i, replies[i..], views[i..], err);
    }

    /** The body of that loop. */
    method Pass(record: Record, reply: ReapReply, err: int) returns (newErr: int)
      requires Valid()
      modifies this`kernel, this`leaked
      ensures Valid() && newErr == if record.made.Some? then reply.err else err
      ensures View() == if Destroyable(record.View(), reply) then Destroy(old(View()), record.View(), reply)
                        else old(View())
    {
      hide Valid, Destroy;
      newErr := err;
      if record.made.Some? {
        newErr := reply.err;
        if newErr != 0 || reply.users != 1 {
          return;
        }
      }
      DestroyRecord(record, reply);
    }

    /** A kernel call, or a move of the rest of the system, leaves the kernel at `k`. */
    method SetKernel(k: Kernel)
      requires Valid()
      modifies this`kernel
      ensures Valid() && View() == old(View()).(kernel := k)
    {
      hide Hash.Valid, Ring, UidKey, Contained, Distinct;
      Parts();
      kernel := k;
    }
  }
}
