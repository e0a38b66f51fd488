/** What every run of the arbiter keeps. */
module ArbiterInvariant {
  import opened Options
  import opened ArbiterSpec

  /** All records the arbiter still has, active or dead. */
  ghost function Records(s: State): multiset<Rec> {
    multiset(s.active) + multiset(s.dead)
  }

  ghost predicate UniqueUids(s: seq<Rec>) {
    forall i, j :: 0 <= i < j < |s| ==> s[i].uid != s[j].uid
  }

  /** The kernel has the tap of a made record, between its reserves, at the record's rate. */
  ghost predicate TapOk(r: Rec, k: Kernel) {
    r.made.Some? ==>
      && r.made.value.tid in k.taps
      && var t := k.taps[r.made.value.tid];
         t.dst == r.made.value.rid && t.rateType == ToLong(r.tapType) && t.rate == ToLong(r.tapValue)
  }

  /** Made records have their own reserve and their own tap. */
  ghost predicate OwnIds(a: Rec, b: Rec) {
    a.made.Some? && b.made.Some? ==> a.made.value.rid != b.made.value.rid && a.made.value.tid != b.made.value.tid
  }

  ghost predicate HasReserve(m: multiset<Rec>, rid: int) {
    exists a :: a in m && a.made.Some? && a.made.value.rid == rid
  }

  ghost predicate Coherent(m: multiset<Rec>, k: Kernel, leaked: set<int>) {
    && (forall a :: a in m && a.made.Some? ==> m[a] == 1)
    && (forall a, b :: a in m && b in m && a != b ==> OwnIds(a, b))
    && (forall a :: a in m ==> TapOk(a, k) && ParamsOk(a.tapType, a.tapValue))
    && (forall a :: a in m && a.made.Some? ==> a.made.value.rid !in leaked)
    && (forall rid :: rid in Held(k) <==> rid in leaked || HasReserve(m, rid))
  }

  ghost predicate Inv(s: State) {
    UniqueUids(s.active) && Coherent(Records(s), s.kernel, s.leaked)
  }

  // --- One record changes ---

  lemma CoherentAdd(m: multiset<Rec>, r: Rec, k: Kernel, leaked: set<int>)
    requires Coherent(m, k, leaked) && r.made.None? && ParamsOk(r.tapType, r.tapValue)
    ensures Coherent(m + multiset{r}, k, leaked)
  {
    var n := m + multiset{r};
    forall rid
      ensures HasReserve(n, rid) <==> HasReserve(m, rid)
    {
      if HasReserve(n, rid) {
        var a :| a in n && a.made.Some? && a.made.value.rid == rid;
        assert a in m;
      }
      if HasReserve(m, rid) {
        var a :| a in m && a.made.Some? && a.made.value.rid == rid;
        assert a in n;
      }
    }
  }

  /** Record `a` becomes `b`, with the same reserve and tap if it had them. */
  lemma CoherentRate(m: multiset<Rec>, a: Rec, b: Rec, k: Kernel, leaked: set<int>)
    requires Coherent(m, k, leaked) && a in m && b.made == a.made && ParamsOk(b.tapType, b.tapValue)
    ensures a.made.None? ==> Coherent(m - multiset{a} + multiset{b}, k, leaked)
    ensures a.made.Some? ==>
              Coherent(m - multiset{a} + multiset{b}, SetRate(k, a.made.value.tid, b.tapType, b.tapValue, 0), leaked)
  {
    var n := m - multiset{a} + multiset{b};
    var k' := if a.made.Some? then SetRate(k, a.made.value.tid, b.tapType, b.tapValue, 0) else k;
    assert Held(k') == Held(k);
    SameReserves(m, n, a, b);
    forall x | x in n
      ensures TapOk(x, k') && ParamsOk(x.tapType, x.tapValue)
      ensures x.made.Some? ==> n[x] == 1 && x.made.value.rid !in leaked
    {
      if x != b {
        assert x in m && (x.made.Some? && a.made.Some? ==> OwnIds(x, a));
      }
    }
    forall x, y | x in n && y in n && x != y
      ensures OwnIds(x, y)
    {
      var x', y' := if x == b then a else x, if y == b then a else y;
      assert x' in m && y' in m;
    }
  }

  lemma SameReserves(m: multiset<Rec>, n: multiset<Rec>, a: Rec, b: Rec)
    requires a in m && n == m - multiset{a} + multiset{b} && a.made == b.made
    ensures forall rid :: HasReserve(n, rid) <==> HasReserve(m, rid)
  {
    forall rid
      ensures HasReserve(n, rid) <==> HasReserve(m, rid)
    {
      if HasReserve(n, rid) {
        var x :| x in n && x.made.Some? && x.made.value.rid == rid;
        assert (if x == b then a else x) in m;
      }
      if HasReserve(m, rid) {
        var x :| x in m && x.made.Some? && x.made.value.rid == rid;
        assert (if x == a then b else x) in n;
      }
    }
  }

  /** The kernel may change in ways that keep the arbiter's reserves and the taps of its records. */
  lemma CoherentFrame(m: multiset<Rec>, k: Kernel, k': Kernel, leaked: set<int>, leaked': set<int>)
    requires Coherent(m, k, leaked)
    requires forall a :: a in m && TapOk(a, k) ==> TapOk(a, k')
    requires forall rid :: rid in Held(k') <==> rid in Held(k) || rid in leaked'
    requires leaked <= leaked' && forall rid :: rid in leaked' && rid !in leaked ==> rid !in Held(k)
    ensures Coherent(m, k', leaked')
  {
    forall a | a in m && a.made.Some?
      ensures a.made.value.rid !in leaked'
    {
      assert HasReserve(m, a.made.value.rid);
    }
  }

  /** Record `a` gets a reserve and a tap with fresh ids. */
  lemma CoherentMade(m: multiset<Rec>, a: Rec, b: Rec, k: Kernel, k': Kernel, leaked: set<int>)
    requires Coherent(m, k, leaked) && a in m && a.made.None? && b.made.Some?
    requires ParamsOk(b.tapType, b.tapValue) && TapOk(b, k')
    requires b.made.value.rid !in Held(k) && b.made.value.tid !in k.taps
    requires Held(k') == Held(k) + {b.made.value.rid}
    requires forall t :: t in k.taps ==> t in k'.taps && k'.taps[t] == k.taps[t]
    ensures Coherent(m - multiset{a} + multiset{b}, k', leaked)
  {
    var n := m - multiset{a} + multiset{b};
    forall x | x in m
      ensures x.made.Some? ==> x in n && HasReserve(m, x.made.value.rid)
    {
    }
    forall x, y | x in n && y in n && x != y
      ensures OwnIds(x, y)
    {
      if x != b && y != b {
        assert x in m && y in m;
      } else {
        var z := if x == b then y else x;
        assert z in m && (z.made.Some? ==> HasReserve(m, z.made.value.rid));
      }
    }
    assert b !in m;
    forall rid
      ensures rid in Held(k') <==> rid in leaked || HasReserve(n, rid)
    {
      if HasReserve(n, rid) {
        var x :| x in n && x.made.Some? && x.made.value.rid == rid;
        assert x == b || x in m;
      }
      if HasReserve(m, rid) {
        var x :| x in m && x.made.Some? && x.made.value.rid == rid;
        assert x in n;
      }
      if rid == b.made.value.rid {
        assert b in n;
      }
    }
  }

  /** Record `a` goes, its reserve put or leaked. */
  lemma CoherentDrop(m: multiset<Rec>, a: Rec, k: Kernel, k': Kernel, leaked: set<int>, leaked': set<int>)
    requires Coherent(m, k, leaked) && a in m && k'.taps == k.taps
    requires a.made.None? ==> k' == k && leaked' == leaked
    requires a.made.Some? ==>
               || (leaked' == leaked && Held(k') == Held(k) - {a.made.value.rid})
               || (leaked' == leaked + {a.made.value.rid} && k' == k)
    ensures Coherent(m - multiset{a}, k', leaked')
  {
    var n := m - multiset{a};
    forall x | x in n
      ensures x in m && (x.made.Some? && a.made.Some? ==> x != a && OwnIds(x, a))
    {
    }
    forall rid
      ensures HasReserve(n, rid) <==> HasReserve(m, rid) && !(a.made.Some? && a.made.value.rid == rid)
    {
      if HasReserve(n, rid) {
        var x :| x in n && x.made.Some? && x.made.value.rid == rid;
        assert x in m;
      }
      if HasReserve(m, rid) && !(a.made.Some? && a.made.value.rid == rid) {
        var x :| x in m && x.made.Some? && x.made.value.rid == rid;
        assert x in n;
      }
    }
    if a.made.Some? {
      assert HasReserve(m, a.made.value.rid);
    }
  }

  // --- Each request keeps the invariant ---

  lemma AddKeeps(s: State, uid: nat, tapType: int, tapValue: int)
    requires Inv(s)
    ensures Inv(AddParams(s, uid, tapType, tapValue).0)
  {
    if ParamsOk(tapType, tapValue) && Find(s.active, uid) < 0 {
      var r := Rec(uid, None, tapType, tapValue);
      CoherentAdd(Records(s), r, s.kernel, s.leaked);
      assert multiset(s.active + [r]) + multiset(s.dead) == Records(s) + multiset{r};
    }
  }

  lemma SplitAt<T>(s: seq<T>, k: nat)
    requires k < |s|
    ensures multiset(s) == multiset(s[..k] + s[k + 1..]) + multiset{s[k]}
  {
    assert s == s[..k] + [s[k]] + s[k + 1..];
  }

  lemma UniqueRemove(s: seq<Rec>, k: nat)
    requires k < |s| && UniqueUids(s)
    ensures UniqueUids(s[..k] + s[k + 1..])
  {
    var t := s[..k] + s[k + 1..];
    assert forall i :: 0 <= i < |t| ==> t[i] == s[if i < k then i else i + 1];
  }

  lemma RemoveKeeps(s: State, uid: nat)
    requires Inv(s)
    ensures Inv(RemoveParams(s, uid).0) && Records(RemoveParams(s, uid).0) == Records(s)
  {
    hide Coherent;
    var k := Find(s.active, uid);
    if k >= 0 {
      SplitAt(s.active, k);
      UniqueRemove(s.active, k);
      assert Records(RemoveParams(s, uid).0) == Records(s);
    }
  }

  lemma EmptyKeeps(s: State)
    requires Inv(s)
    ensures Inv(Empty(s)) && Records(Empty(s)) == Records(s)
  {
    assert Records(Empty(s)) == Records(s);
  }

  /** Replacing an active record replaces it among all records. */
  lemma ReplaceActive(s: State, k: nat, b: Rec)
    requires k < |s.active|
    ensures Records(s.(active := s.active[k := b])) == Records(s) - multiset{s.active[k]} + multiset{b}
  {
    SplitAt(s.active, k);
    var t := s.active[k := b];
    SplitAt(t, k);
    assert t[..k] == s.active[..k] && t[k + 1..] == s.active[k + 1..];
  }

  lemma SetKeeps(s: State, uid: nat, tapType: int, tapValue: int, reply: int)
    requires Inv(s)
    ensures Inv(SetParams(s, uid, tapType, tapValue, reply).0)
  {
    hide Coherent;
    var k := Find(s.active, uid);
    if ParamsOk(tapType, tapValue) && k >= 0 {
      var a := s.active[k];
      assert a in s.active && a in Records(s);
      CoherentRate(Records(s), a, a.(tapType := tapType, tapValue := tapValue), s.kernel, s.leaked);
      ReplaceActive(s, k, a.(tapType := tapType, tapValue := tapValue));
    }
  }

  /** The kernel issues ids it is not using. */
  ghost predicate FreshIds(k: Kernel, r: StatReplies) {
    (r.create >= 0 ==> r.create !in k.reserves) && (r.tap >= 0 ==> r.tap !in k.taps)
  }

  /** Giving up a reserve that no record has: the kernel takes it back or it leaks. */
  lemma GiveUpFresh(m: multiset<Rec>, s: State, t: State, rid: int, reply: int)
    requires Coherent(m, s.kernel, s.leaked) && rid !in s.kernel.reserves && t.leaked == s.leaked
    requires t.kernel.reserves == s.kernel.reserves[rid := {Arbiter}]
    requires forall a :: a in m && TapOk(a, s.kernel) ==> TapOk(a, t.kernel)
    ensures var u := GiveUp(t, rid, reply); Coherent(m, u.kernel, u.leaked)
    ensures reply == 0 ==> GiveUp(t, rid, reply).kernel.reserves == s.kernel.reserves
  {
    var u := GiveUp(t, rid, reply);
    if reply == 0 {
      assert {Arbiter} - {Arbiter} == {};
      assert u.kernel.reserves == s.kernel.reserves;
      assert u.kernel.taps == t.kernel.taps;
    }
    CoherentFrame(m, s.kernel, u.kernel, s.leaked, u.leaked);
  }

  lemma RecordSound(m: multiset<Rec>, a: Rec, k: Kernel, leaked: set<int>)
    requires Coherent(m, k, leaked) && a in m
    ensures TapOk(a, k) && ParamsOk(a.tapType, a.tapValue)
    ensures a.made.Some? ==> a.made.value.rid in Held(k) && a.made.value.rid !in leaked
  {
    if a.made.Some? {
      assert HasReserve(m, a.made.value.rid);
    }
  }

  /** Giving up what a failed creation has made. */
  lemma RollbackKeeps(s: State, k: Kernel, rid: int, reply: int)
    requires Inv(s) && rid !in s.kernel.reserves && k.reserves == s.kernel.reserves[rid := {Arbiter}]
    requires forall a :: a in Records(s) && TapOk(a, s.kernel) ==> TapOk(a, k)
    ensures Inv(GiveUp(s.(kernel := k), rid, reply))
  {
    hide Coherent, UniqueUids;
    GiveUpFresh(Records(s), s, s.(kernel := k), rid, reply);
  }

  lemma MadeKeeps(s: State, k: nat, r: StatReplies)
    requires Inv(s) && k < |s.active| && s.active[k].made.None? && FreshIds(s.kernel, r)
    requires r.create >= 0 && r.tap >= 0 && r.rate == 0
    ensures Inv(Make(s, k, r).0)
  {
    hide Coherent;
    var a := s.active[k];
    var b := a.(made := Some(Ids(r.create, r.tap)));
    assert a in s.active && a in Records(s);
    RecordSound(Records(s), a, s.kernel, s.leaked);
    CoherentMade(Records(s), a, b, s.kernel, Make(s, k, r).0.kernel, s.leaked);
    ReplaceActive(s, k, b);
  }

  lemma MakeKeeps(s: State, k: nat, r: StatReplies)
    requires Inv(s) && k < |s.active| && s.active[k].made.None? && FreshIds(s.kernel, r)
    ensures Inv(Make(s, k, r).0)
  {
    hide Inv, GiveUp;
    if r.create >= 0 {
      var k1 := CreateReserve(s.kernel, r.create);
      if r.tap < 0 {
        RollbackKeeps(s, k1, r.create, r.put);
      } else if r.rate != 0 {
        RollbackKeeps(s, DeleteTap(CreateTap(k1, r.root, r.create, r.tap), r.tap, r.deleteTap), r.create, r.put);
      } else {
        MadeKeeps(s, k, r);
      }
    }
  }

  lemma ExposeKeeps(s: State, pid: int, rid: int)
    requires Inv(s)
    ensures Inv(s.(kernel := Expose(s.kernel, pid, rid, 0)))
  {
    CoherentFrame(Records(s), s.kernel, Expose(s.kernel, pid, rid, 0), s.leaked, s.leaked);
  }

  lemma StatKeeps(s: State, uid: nat, pid: int, r: StatReplies)
    requires Inv(s) && FreshIds(s.kernel, r)
    ensures Inv(Stat(s, uid, pid, r).0)
  {
    hide Inv, Make, Expose;
    var k := Find(s.active, uid);
    if r.rootErr == 0 && k >= 0 {
      if s.active[k].made.None? {
        MakeKeeps(s, k, r);
      }
      var (s1, err) := if s.active[k].made.Some? then (s, 0) else Make(s, k, r);
      if err == 0 {
        ExposeKeeps(s1, pid, s1.active[k].made.value.rid);
      }
    }
  }

  // --- Rollback of a stat request ---

  /**
   A create, tap or rate failure undoes what the request had done, exactly when
   every undo call that it needed went through.
   */
  lemma FailedMakeRestores(s: State, k: nat, r: StatReplies)
    requires k < |s.active| && FreshIds(s.kernel, r)
    requires Make(s, k, r).1 != 0
    ensures Make(s, k, r).0.active == s.active && Make(s, k, r).0.dead == s.dead
    ensures Make(s, k, r).0 == s <==>
              r.create < 0 || (r.put == 0 && (r.tap < 0 || r.deleteTap == 0))
  {
    var t := Make(s, k, r).0;
    if r.create >= 0 {
      assert s.kernel.reserves[r.create := {Arbiter}] - {r.create} == s.kernel.reserves;
      assert {Arbiter} - {Arbiter} == {};
      if r.put != 0 {
        var k1 := CreateReserve(s.kernel, r.create);
        assert r.create in k1.reserves && t.kernel.reserves == k1.reserves;
      }
      if r.tap >= 0 {
        assert s.kernel.taps[r.tap := Tap(r.root, r.create, 0, 0)] - {r.tap} == s.kernel.taps;
      }
    }
  }

  /** A refused expose keeps the reserve and tap just made, and they are on record. */
  lemma FailedExposeKeeps(s: State, uid: nat, pid: int, r: StatReplies)
    requires Find(s.active, uid) >= 0 && s.active[Find(s.active, uid)].made.None?
    requires r.rootErr == 0 && r.create >= 0 && r.tap >= 0 && r.rate == 0 && r.expose != 0
    ensures var t := Stat(s, uid, pid, r).0; var k := Find(s.active, uid);
            && t.active[k].made == Some(Ids(r.create, r.tap)) && r.create in Held(t.kernel) && r.tap in t.kernel.taps
            && Stat(s, uid, pid, r).1.err == r.expose
  {
  }

  // --- The reaper ---

  /** The kernel counts users truly. */
  ghost predicate CountsTrue(k: Kernel, r: Rec, reply: ReapReply) {
    r.made.Some? && reply.err == 0 ==> r.made.value.rid in k.reserves && reply.users == |k.reserves[r.made.value.rid]|
  }

  /** A created reserve is given up only when the arbiter is its one user. */
  lemma PutOnlySoleUse(m: multiset<Rec>, k: Kernel, leaked: set<int>, r: Rec, reply: ReapReply)
    requires Coherent(m, k, leaked) && r in m && r.made.Some? && CountsTrue(k, r, reply) && Destroyable(r, reply)
    ensures k.reserves[r.made.value.rid] == {Arbiter}
  {
    RecordSound(m, r, k, leaked);
    var users := k.reserves[r.made.value.rid];
    assert users == {Arbiter} + (users - {Arbiter});
    assert |users| == 1 + |users - {Arbiter}|;
  }

  lemma GiveUpHeld(s: State, rid: int, reply: int)
    requires rid in Held(s.kernel)
    ensures var t := GiveUp(s, rid, reply);
            && t.kernel.taps == s.kernel.taps && t.active == s.active && t.dead == s.dead
            && if reply == 0 then t.leaked == s.leaked && Held(t.kernel) == Held(s.kernel) - {rid}
               else t.leaked == s.leaked + {rid} && t.kernel == s.kernel
  {
  }

  lemma DestroyKeeps(s: State, j: nat, reply: ReapReply)
    requires Inv(s) && j < |s.dead|
    ensures Inv(Destroy(s, s.dead[j], reply).(dead := s.dead[..j] + s.dead[j + 1..]))
  {
    hide Coherent, UniqueUids, GiveUp, Held;
    var a := s.dead[j];
    var t := Destroy(s, a, reply).(dead := s.dead[..j] + s.dead[j + 1..]);
    assert a in s.dead && a in Records(s);
    RecordSound(Records(s), a, s.kernel, s.leaked);
    if a.made.Some? {
      GiveUpHeld(s, a.made.value.rid, reply.put);
    }
    SplitAt(s.dead, j);
    assert Records(t) == Records(s) - multiset{a};
    CoherentDrop(Records(s), a, s.kernel, t.kernel, s.leaked, t.leaked);
  }

  lemma {:induction false} SweepKeeps(s: State, j: nat, replies: seq<ReapReply>)
    requires Inv(s) && j + |replies| == |s.dead|
    ensures Inv(Sweep(s, j, replies)) && Sweep(s, j, replies).active == s.active
    decreases |replies|
  {
    hide Inv;
    if replies != [] {
      if Destroyable(s.dead[j], replies[0]) {
        DestroyKeeps(s, j, replies[0]);
        SweepKeeps(Destroy(s, s.dead[j], replies[0]).(dead := s.dead[..j] + s.dead[j + 1..]), j, replies[1..]);
      } else {
        SweepKeeps(s, j + 1, replies[1..]);
      }
    }
  }
}
