/**
 The rest of the system moving not only between requests but before every kernel
 call inside one, and what every schedule of the threads then keeps.
 */
module Interference {
  import opened Options
  import opened ArbiterSpec
  import opened ArbiterInvariant
  import opened ArbiterRuns
  import C = Concurrency

  /** The arbiter finds the kernel at `k`. */
  function Meet(s: State, k: Kernel): State {
    s.(kernel := k)
  }

  lemma WorldCoherent(m: multiset<Rec>, k: Kernel, k': Kernel, leaked: set<int>)
    requires Coherent(m, k, leaked) && Environment(k, k')
    ensures Coherent(m, k', leaked)
  {
    forall a | a in m && TapOk(a, k)
      ensures TapOk(a, k')
    {
      RecordSound(m, a, k, leaked);
    }
    CoherentFrame(m, k, k', leaked, leaked);
  }

  // --- Creating a reserve and a tap ---

  /** The kernel as each call of a stat request finds it. */
  datatype StatMoves = StatMoves(create: Kernel, tap: Kernel, rate: Kernel, delete: Kernel, put: Kernel, expose: Kernel)

  function MakeAmid(s: State, k: nat, r: StatReplies, w: StatMoves): (result: (State, int))
    requires k < |s.active|
    ensures |result.0.active| == |s.active|
    ensures result.1 == 0 <==> r.create >= 0 && r.tap >= 0 && r.rate == 0
    ensures result.1 == 0 ==> result.0.active[k].made == Some(Ids(r.create, r.tap))
  {
    var s0 := Meet(s, w.create);
    if r.create < 0 then (s0, r.create)
    else
      var s1 := Meet(s0.(kernel := CreateReserve(s0.kernel, r.create)), w.tap);
      if r.tap < 0 then (GiveUp(Meet(s1, w.put), r.create, r.put), r.tap)
      else
        var s2 := Meet(s1.(kernel := CreateTap(s1.kernel, r.root, r.create, r.tap)), w.rate);
        if r.rate != 0 then
          var s3 := Meet(s2, w.delete);
          (GiveUp(Meet(s3.(kernel := DeleteTap(s3.kernel, r.tap, r.deleteTap)), w.put), r.create, r.put), r.rate)
        else
          var rec := s.active[k];
          (s2.(kernel := SetRate(s2.kernel, r.tap, rec.tapType, rec.tapValue, 0),
               active := s2.active[k := rec.(made := Some(Ids(r.create, r.tap)))]), 0)
  }

  /** Between calls only the rest of the system moves, and a new id is one not in use when it is issued. */
  ghost predicate MakeMet(k: Kernel, r: StatReplies, w: StatMoves) {
    && Environment(k, w.create)
    && (r.create >= 0 ==>
          && r.create !in w.create.reserves
          && Environment(CreateReserve(w.create, r.create), w.tap)
          && (r.tap < 0 ==> Environment(w.tap, w.put))
          && (r.tap >= 0 ==>
                && r.tap !in w.tap.taps
                && Environment(CreateTap(w.tap, r.root, r.create, r.tap), w.rate)
                && (r.rate != 0 ==>
                      && Environment(w.rate, w.delete)
                      && Environment(DeleteTap(w.delete, r.tap, r.deleteTap), w.put))))
  }

  /** A reserve the arbiter has alone and that is on no record yet, with the tap into it if there is one. */
  ghost predicate Pending(m: multiset<Rec>, k: Kernel, leaked: set<int>, rid: int, tap: Option<int>) {
    && Coherent(m, k, leaked + {rid}) && rid !in leaked
    && rid in k.reserves && k.reserves[rid] == {Arbiter}
    && forall tid :: tap == Some(tid) ==>
         && tid in k.taps && k.taps[tid].dst == rid
         && forall a :: a in m && a.made.Some? ==> a.made.value.tid != tid
  }

  lemma CreatedPending(m: multiset<Rec>, k: Kernel, leaked: set<int>, rid: int)
    requires Coherent(m, k, leaked) && 0 <= rid && rid !in k.reserves
    ensures Pending(m, CreateReserve(k, rid), leaked, rid, None)
  {
    assert forall x :: x in leaked ==> x in Held(k);
    CoherentFrame(m, k, CreateReserve(k, rid), leaked, leaked + {rid});
  }

  lemma WorldPending(m: multiset<Rec>, k: Kernel, k': Kernel, leaked: set<int>, rid: int, tap: Option<int>)
    requires Pending(m, k, leaked, rid, tap) && Environment(k, k')
    ensures Pending(m, k', leaked, rid, tap)
  {
    hide Coherent;
    WorldCoherent(m, k, k', leaked + {rid});
    assert rid in Held(k);
  }

  lemma TappedPending(m: multiset<Rec>, k: Kernel, leaked: set<int>, rid: int, src: int, tid: int)
    requires Pending(m, k, leaked, rid, None) && 0 <= tid && tid !in k.taps
    ensures Pending(m, CreateTap(k, src, rid, tid), leaked, rid, Some(tid))
  {
    forall a | a in m && a.made.Some?
      ensures a.made.value.tid != tid
    {
      RecordSound(m, a, k, leaked + {rid});
    }
    CoherentFrame(m, k, CreateTap(k, src, rid, tid), leaked + {rid}, leaked + {rid});
  }

  lemma UntappedPending(m: multiset<Rec>, k: Kernel, leaked: set<int>, rid: int, tid: int, reply: int)
    requires Pending(m, k, leaked, rid, Some(tid))
    ensures Pending(m, DeleteTap(k, tid, reply), leaked, rid, None)
  {
    CoherentFrame(m, k, DeleteTap(k, tid, reply), leaked + {rid}, leaked + {rid});
  }

  /** Giving up a pending reserve leaves nothing of it, or leaks it. */
  lemma PendingGivenUp(m: multiset<Rec>, s: State, rid: int, tap: Option<int>, reply: int)
    requires Pending(m, s.kernel, s.leaked, rid, tap)
    ensures var t := GiveUp(s, rid, reply);
            && Coherent(m, t.kernel, t.leaked)
            && t.active == s.active && t.dead == s.dead && t.kernel.taps == s.kernel.taps
            && if reply == 0 then t.leaked == s.leaked && rid !in t.kernel.reserves else t.leaked == s.leaked + {rid}
  {
    assert {Arbiter} - {Arbiter} == {};
    if reply == 0 {
      var k' := PutReserve(s.kernel, rid, 0);
      assert Held(k') == Held(s.kernel) - {rid};
      forall a | a in m && a.made.Some?
        ensures a.made.value.rid != rid && a.made.value.rid !in s.leaked
      {
        assert a.made.value.rid !in s.leaked + {rid};
      }
      forall x
        ensures x in Held(k') <==> x in s.leaked || HasReserve(m, x)
      {
        assert x in Held(s.kernel) <==> x in s.leaked + {rid} || HasReserve(m, x);
      }
    }
  }

  /** The pending reserve and tap become those of record `a`. */
  lemma PendingRecorded(m: multiset<Rec>, k: Kernel, leaked: set<int>, rid: int, tid: int, a: Rec)
    requires Pending(m, k, leaked, rid, Some(tid)) && a in m && a.made.None?
    ensures var b := a.(made := Some(Ids(rid, tid)));
            Coherent(m - multiset{a} + multiset{b}, SetRate(k, tid, a.tapType, a.tapValue, 0), leaked)
  {
    var b := a.(made := Some(Ids(rid, tid)));
    var k0 := Kernel(k.reserves - {rid}, k.taps - {tid});
    var k1 := SetRate(k, tid, a.tapType, a.tapValue, 0);
    RecordSound(m, a, k, leaked + {rid});
    forall x
      ensures x in Held(k0) <==> x in leaked || HasReserve(m, x)
    {
      assert x in Held(k) <==> x in leaked + {rid} || HasReserve(m, x);
    }
    assert Coherent(m, k0, leaked);
    assert Held(k1) == Held(k0) + {rid};
    CoherentMade(m, a, b, k0, k1, leaked);
  }

  /** However the rest of the system moves between the calls, creation keeps the invariant. */
  lemma MakeAmidKeeps(s: State, k: nat, r: StatReplies, w: StatMoves)
    requires Inv(s) && k < |s.active| && s.active[k].made.None? && MakeMet(s.kernel, r, w)
    ensures Inv(MakeAmid(s, k, r, w).0)
  {
    hide Coherent, Environment, Pending, GiveUp;
    var m, l := Records(s), s.leaked;
    WorldCoherent(m, s.kernel, w.create, l);
    if r.create >= 0 {
      var k1 := CreateReserve(w.create, r.create);
      CreatedPending(m, w.create, l, r.create);
      WorldPending(m, k1, w.tap, l, r.create, None);
      if r.tap < 0 {
        WorldPending(m, w.tap, w.put, l, r.create, None);
        PendingGivenUp(m, Meet(s, w.put), r.create, None, r.put);
      } else {
        TappedPending(m, w.tap, l, r.create, r.root, r.tap);
        WorldPending(m, CreateTap(w.tap, r.root, r.create, r.tap), w.rate, l, r.create, Some(r.tap));
        if r.rate != 0 {
          WorldPending(m, w.rate, w.delete, l, r.create, Some(r.tap));
          UntappedPending(m, w.delete, l, r.create, r.tap, r.deleteTap);
          WorldPending(m, DeleteTap(w.delete, r.tap, r.deleteTap), w.put, l, r.create, None);
          PendingGivenUp(m, Meet(s, w.put), r.create, None, r.put);
        } else {
          var a := s.active[k];
          assert a in s.active && a in m;
          PendingRecorded(m, w.rate, l, r.create, r.tap, a);
          ReplaceActive(s, k, a.(made := Some(Ids(r.create, r.tap))));
        }
      }
    }
  }

  /**
   A failed creation leaves the records as they were; its reserve is gone exactly when the put goes
   through, and else leaks.
   */
  lemma FailedMakeAmidRestores(s: State, k: nat, r: StatReplies, w: StatMoves)
    requires Inv(s) && k < |s.active| && s.active[k].made.None? && MakeMet(s.kernel, r, w)
    requires MakeAmid(s, k, r, w).1 != 0
    ensures var t := MakeAmid(s, k, r, w).0;
            && t.active == s.active && t.dead == s.dead
            && (r.create < 0 || r.put == 0 ==> t.leaked == s.leaked && Held(t.kernel) == Held(s.kernel))
            && (r.create >= 0 && r.put == 0 ==> r.create !in t.kernel.reserves)
            && (r.create >= 0 && r.put != 0 ==> t.leaked == s.leaked + {r.create})
  {
    hide Coherent, Environment, Pending, GiveUp, HasReserve;
    var t := MakeAmid(s, k, r, w).0;
    var m, l := Records(s), s.leaked;
    MakeAmidKeeps(s, k, r, w);
    if r.create >= 0 {
      WorldCoherent(m, s.kernel, w.create, l);
      CreatedPending(m, w.create, l, r.create);
      WorldPending(m, CreateReserve(w.create, r.create), w.tap, l, r.create, None);
      if r.tap < 0 {
        WorldPending(m, w.tap, w.put, l, r.create, None);
      } else {
        TappedPending(m, w.tap, l, r.create, r.root, r.tap);
        WorldPending(m, CreateTap(w.tap, r.root, r.create, r.tap), w.rate, l, r.create, Some(r.tap));
        WorldPending(m, w.rate, w.delete, l, r.create, Some(r.tap));
        UntappedPending(m, w.delete, l, r.create, r.tap, r.deleteTap);
        WorldPending(m, DeleteTap(w.delete, r.tap, r.deleteTap), w.put, l, r.create, None);
      }
      PendingGivenUp(m, Meet(s, w.put), r.create, None, r.put);
    }
    SameHeld(s, t);
  }

  /** With the same records and leaks, the arbiter holds the same reserves. */
  lemma SameHeld(s: State, t: State)
    requires Inv(s) && Inv(t) && Records(s) == Records(t)
    ensures s.leaked == t.leaked ==> Held(s.kernel) == Held(t.kernel)
  {
    hide Records, UniqueUids, OwnIds, TapOk, HasReserve, Held;
    if s.leaked == t.leaked {
      assert forall rid :: rid in Held(s.kernel) <==> rid in Held(t.kernel);
    }
  }

  function StatAmid(s: State, uid: nat, pid: int, r: StatReplies, w: StatMoves): (State, StatResult) {
    var k := Find(s.active, uid);
    if r.rootErr != 0 then (s, StatResult(r.rootErr, 0, 0))
    else if k < 0 then (s, StatResult(0, PA_USE_ROOT_RESERVE, r.root))
    else
      var (s1, err) := if s.active[k].made.Some? then (s, 0) else MakeAmid(s, k, r, w);
      if err != 0 then (s1, StatResult(err, 0, 0))
      else
        var rid := s1.active[k].made.value.rid;
        var s2 := Meet(s1, w.expose);
        if r.expose != 0 then (s2, StatResult(r.expose, 0, 0))
        else (s2.(kernel := Expose(s2.kernel, pid, rid, 0)), StatResult(0, PA_RESERVE_GRANTED, rid))
  }

  ghost predicate StatMet(s: State, uid: nat, r: StatReplies, w: StatMoves) {
    var k := Find(s.active, uid);
    r.rootErr == 0 && k >= 0 ==>
      && (s.active[k].made.None? ==> MakeMet(s.kernel, r, w))
      && var (s1, err) := if s.active[k].made.Some? then (s, 0) else MakeAmid(s, k, r, w);
         err == 0 ==> Environment(s1.kernel, w.expose)
  }

  lemma StatAmidKeeps(s: State, uid: nat, pid: int, r: StatReplies, w: StatMoves)
    requires Inv(s) && StatMet(s, uid, r, w)
    ensures Inv(StatAmid(s, uid, pid, r, w).0)
  {
    hide Inv, MakeAmid, MakeMet, Environment, Expose;
    var k := Find(s.active, uid);
    if r.rootErr == 0 && k >= 0 {
      if s.active[k].made.None? {
        MakeAmidKeeps(s, k, r, w);
      }
      var (s1, err) := if s.active[k].made.Some? then (s, 0) else MakeAmid(s, k, r, w);
      if err == 0 {
        WorldKeeps(s1, w.expose);
        ExposeKeeps(Meet(s1, w.expose), pid, s1.active[k].made.value.rid);
      }
    }
  }

  /** The rest of the system changes neither the records nor the answer. */
  lemma StatAmidIsStat(s: State, uid: nat, pid: int, r: StatReplies, w: StatMoves)
    ensures C.DbOf(StatAmid(s, uid, pid, r, w).0) == C.DbOf(Stat(s, uid, pid, r).0)
    ensures StatAmid(s, uid, pid, r, w).1 == Stat(s, uid, pid, r).1
  {
  }

  /** The kernel as each call finds it when nothing else moves. */
  function StillMoves(s: State, uid: nat, r: StatReplies): StatMoves {
    var k0 := s.kernel;
    var k1 := CreateReserve(k0, r.create);
    var k2 := CreateTap(k1, r.root, r.create, r.tap);
    var k := Find(s.active, uid);
    StatMoves(k0, k1, k2, k2, if r.tap < 0 then k1 else DeleteTap(k2, r.tap, r.deleteTap),
              if k >= 0 && s.active[k].made.None? then Make(s, k, r).0.kernel else k0)
  }

  /** A stat in a kernel that stands still is one of these, and is the stat without interference. */
  lemma StillStat(s: State, uid: nat, pid: int, r: StatReplies)
    requires FreshIds(s.kernel, r)
    ensures StatMet(s, uid, r, StillMoves(s, uid, r))
    ensures StatAmid(s, uid, pid, r, StillMoves(s, uid, r)) == Stat(s, uid, pid, r)
  {
  }

  // --- A pass of the reaper ---

  /** The kernel as the count and the put of one dead record find it. */
  datatype ReapMoves = ReapMoves(count: Kernel, put: Kernel)

  /** What one record's turn leaves. */
  function TurnAmid(s: State, j: nat, reply: ReapReply, w: ReapMoves): State
    requires j < |s.dead|
  {
    if Destroyable(s.dead[j], reply) then
      Destroy(Meet(s, w.put), s.dead[j], reply).(dead := s.dead[..j] + s.dead[j + 1..])
    else Meet(s, w.count)
  }

  /** Where the next dead record then stands. */
  function Ahead(s: State, j: nat, reply: ReapReply): nat
    requires j < |s.dead|
  {
    if Destroyable(s.dead[j], reply) then j else j + 1
  }

  ghost predicate TurnMet(s: State, j: nat, reply: ReapReply, w: ReapMoves)
    requires j < |s.dead|
  {
    && Environment(s.kernel, w.count)
    && (Destroyable(s.dead[j], reply) ==> Environment(w.count, w.put))
  }

  function SweepAmid(s: State, j: nat, replies: seq<ReapReply>, ws: seq<ReapMoves>): State
    requires j + |replies| == |s.dead| && |ws| == |replies|
    decreases |replies|
  {
    if replies == [] then s
    else SweepAmid(TurnAmid(s, j, replies[0], ws[0]), Ahead(s, j, replies[0]), replies[1..], ws[1..])
  }

  /** Between calls only the rest of the system moves. */
  ghost predicate SweepMet(s: State, j: nat, replies: seq<ReapReply>, ws: seq<ReapMoves>)
    requires j + |replies| == |s.dead| && |ws| == |replies|
    decreases |replies|
  {
    replies != [] ==>
      && TurnMet(s, j, replies[0], ws[0])
      && SweepMet(TurnAmid(s, j, replies[0], ws[0]), Ahead(s, j, replies[0]), replies[1..], ws[1..])
  }

  /** Every count is true when it is made. */
  ghost predicate SweepCounted(s: State, j: nat, replies: seq<ReapReply>, ws: seq<ReapMoves>)
    requires j + |replies| == |s.dead| && |ws| == |replies|
    decreases |replies|
  {
    replies != [] ==>
      && CountsTrue(ws[0].count, s.dead[j], replies[0])
      && SweepCounted(TurnAmid(s, j, replies[0], ws[0]), Ahead(s, j, replies[0]), replies[1..], ws[1..])
  }

  /** At every count the arbiter is a user, as the code asserts, and at every put it is the only one. */
  ghost predicate SweepSafe(s: State, j: nat, replies: seq<ReapReply>, ws: seq<ReapMoves>)
    requires j + |replies| == |s.dead| && |ws| == |replies|
    decreases |replies|
  {
    replies != [] ==>
      && TurnSafe(s.dead[j], replies[0], ws[0])
      && SweepSafe(TurnAmid(s, j, replies[0], ws[0]), Ahead(s, j, replies[0]), replies[1..], ws[1..])
  }

  ghost predicate TurnSafe(a: Rec, reply: ReapReply, w: ReapMoves) {
    a.made.Some? ==>
      && (reply.err == 0 ==> reply.users > 0)
      && (Destroyable(a, reply) ==> a.made.value.rid in w.put.reserves && w.put.reserves[a.made.value.rid] == {Arbiter})
  }

  lemma TurnKeeps(s: State, j: nat, reply: ReapReply, w: ReapMoves)
    requires Inv(s) && j < |s.dead| && TurnMet(s, j, reply, w)
    ensures Inv(TurnAmid(s, j, reply, w))
    ensures CountsTrue(w.count, s.dead[j], reply) ==> TurnSafe(s.dead[j], reply, w)
  {
    hide Inv, Environment, CountsTrue, Destroyable, Destroy, TurnSafe;
    WorldKeeps(s, w.count);
    if CountsTrue(w.count, s.dead[j], reply) {
      TurnIsSafe(s, j, reply, w);
    }
    if Destroyable(s.dead[j], reply) {
      WorldKeeps(Meet(s, w.count), w.put);
      DestroyKeeps(Meet(s, w.put), j, reply);
    }
  }

  lemma TurnIsSafe(s: State, j: nat, reply: ReapReply, w: ReapMoves)
    requires Inv(s) && j < |s.dead| && TurnMet(s, j, reply, w) && Inv(Meet(s, w.count))
    requires CountsTrue(w.count, s.dead[j], reply)
    ensures TurnSafe(s.dead[j], reply, w)
  {
    hide Coherent, UniqueUids;
    var a := s.dead[j];
    var m := Records(s);
    assert a in s.dead && a in m && Records(Meet(s, w.count)) == m;
    RecordSound(m, a, w.count, s.leaked);
    if a.made.Some? && reply.err == 0 {
      assert Arbiter in w.count.reserves[a.made.value.rid];
    }
    if a.made.Some? && Destroyable(a, reply) {
      PutOnlySoleUse(m, w.count, s.leaked, a, reply);
    }
  }

  /**
   However the rest of the system moves during a pass, and whatever its counts
   say, the pass keeps the invariant. When the counts are true, its assertion
   holds, and no put takes a reserve from another user.
   */
  lemma {:induction false} SweepAmidKeeps(s: State, j: nat, replies: seq<ReapReply>, ws: seq<ReapMoves>)
    requires Inv(s) && j + |replies| == |s.dead| && |ws| == |replies| && SweepMet(s, j, replies, ws)
    ensures Inv(SweepAmid(s, j, replies, ws))
    ensures SweepCounted(s, j, replies, ws) ==> SweepSafe(s, j, replies, ws)
    decreases |replies|
  {
    hide Inv, TurnMet, TurnSafe, Destroy, Destroyable, CountsTrue;
    if replies != [] {
      TurnKeeps(s, j, replies[0], ws[0]);
      SweepAmidKeeps(TurnAmid(s, j, replies[0], ws[0]), Ahead(s, j, replies[0]), replies[1..], ws[1..]);
    }
  }

  /** The rest of the system changes nothing of what a pass does to the records. */
  lemma {:induction false} SweepAmidIsSweep(s: State, t: State, j: nat, replies: seq<ReapReply>, ws: seq<ReapMoves>)
    requires C.DbOf(s) == C.DbOf(t) && j + |replies| == |s.dead| && |ws| == |replies|
    ensures C.DbOf(SweepAmid(s, j, replies, ws)) == C.DbOf(Sweep(t, j, replies))
    decreases |replies|
  {
    if replies != [] {
      var u := TurnAmid(s, j, replies[0], ws[0]);
      if Destroyable(s.dead[j], replies[0]) {
        SweepAmidIsSweep(u, Destroy(t, t.dead[j], replies[0]).(dead := t.dead[..j] + t.dead[j + 1..]), j,
                         replies[1..], ws[1..]);
      } else {
        SweepAmidIsSweep(u, t, j + 1, replies[1..], ws[1..]);
      }
    }
  }

  /** So is a pass in a kernel that stands still. */
  lemma {:induction false} StillSweep(s: State, j: nat, replies: seq<ReapReply>) returns (ws: seq<ReapMoves>)
    requires j + |replies| == |s.dead|
    ensures |ws| == |replies| && SweepMet(s, j, replies, ws) && SweepAmid(s, j, replies, ws) == Sweep(s, j, replies)
    decreases |replies|
  {
    hide Destroy, Destroyable;
    ws := [];
    if replies != [] {
      var w := ReapMoves(s.kernel, s.kernel);
      assert Meet(s, s.kernel) == s;
      ws := StillSweep(TurnAmid(s, j, replies[0], w), Ahead(s, j, replies[0]), replies[1..]);
      assert ([w] + ws)[1..] == ws;
      ws := [w] + ws;
    }
  }

  // --- Whole runs ---

  datatype Happening =
    | Quiet(e: Event)
    | Look(uid: nat)
    | Statting(uid: nat, pid: int, r: StatReplies, w: StatMoves)
    | Reaping(replies: seq<ReapReply>, ws: seq<ReapMoves>)

  ghost predicate Possible(s: State, h: Happening) {
    match h
    case Quiet(e) => Enabled(s, e)
    case Look(_) => true
    case Statting(uid, _, r, w) => StatMet(s, uid, r, w)
    case Reaping(rs, ws) => |rs| == |ws| == |s.dead| && SweepMet(s, 0, rs, ws)
  }

  ghost function Next(s: State, h: Happening): State
    requires Possible(s, h)
  {
    match h
    case Quiet(e) => Step(s, e)
    case Look(_) => s
    case Statting(uid, pid, r, w) => StatAmid(s, uid, pid, r, w).0
    case Reaping(rs, ws) => SweepAmid(s, 0, rs, ws)
  }

  /** Where the happenings lead, if each is possible where it stands. */
  ghost function Lead(s: State, hs: seq<Happening>): Option<State> {
    if hs == [] then Some(s)
    else
      match Lead(s, hs[..|hs| - 1])
      case None => None
      case Some(u) => if Possible(u, hs[|hs| - 1]) then Some(Next(u, hs[|hs| - 1])) else None
  }

  lemma NextKeeps(s: State, h: Happening)
    requires Inv(s) && Possible(s, h)
    ensures Inv(Next(s, h))
  {
    hide Inv, Enabled, Step, StatMet, StatAmid, SweepMet, SweepAmid;
    match h
    case Quiet(e) => StepKeeps(s, e);
    case Look(_) =>
    case Statting(uid, pid, r, w) => StatAmidKeeps(s, uid, pid, r, w);
    case Reaping(rs, ws) => SweepAmidKeeps(s, 0, rs, ws);
  }

  lemma {:induction false} EveryLeadInv(s: State, hs: seq<Happening>)
    requires Inv(s) && Lead(s, hs).Some?
    ensures Inv(Lead(s, hs).value)
  {
    hide Inv, Possible, Next;
    if hs != [] {
      EveryLeadInv(s, hs[..|hs| - 1]);
      NextKeeps(Lead(s, hs[..|hs| - 1]).value, hs[|hs| - 1]);
    }
  }

  // --- The threads ---

  /** Happening `h` is the finished operation `e`. */
  ghost predicate Performs(h: Happening, e: C.Entry) {
    match h
    case Quiet(Add(uid, t, v)) => e.op == C.OpAdd(uid, t, v)
    case Quiet(Remove(uid)) => e.op == C.OpRemove(uid)
    case Quiet(Set(uid, t, v, reply)) => e.op == C.OpSet(uid, t, v) && e.r.stat.rate == reply
    case Quiet(_) => false
    case Look(uid) => e.op == C.OpGet(uid)
    case Statting(uid, pid, r, _) => e.op == C.OpStat(uid, pid) && e.r.stat == r
    case Reaping(rs, _) => e.op == C.OpReap && e.r.reap == rs
  }

  /** The happenings are the operations of the history in order, and moves of the rest of the system in between. */
  ghost predicate Mirrors(hs: seq<Happening>, history: seq<C.Entry>) {
    if hs == [] then history == []
    else
      var h := hs[|hs| - 1];
      if h.Quiet? && h.e.World? then Mirrors(hs[..|hs| - 1], history)
      else history != [] && Performs(h, history[|history| - 1]) && Mirrors(hs[..|hs| - 1], history[..|history| - 1])
  }

  lemma PerformsAtomic(s: State, h: Happening, e: C.Entry)
    requires Possible(s, h) && Performs(h, e)
    ensures C.Suitable(C.DbOf(s), e.op, e.r)
    ensures C.DbOf(Next(s, h)) == C.Atomic(C.DbOf(s), e.op, e.r).0
  {
    hide C.Atomic, SetParams, AddParams, RemoveParams, Stat, StatAmid, Sweep, SweepAmid, StatMet, SweepMet;
    C.AtomicIsRequest(s, e.op, e.r);
    match h
    case Quiet(_) =>
    case Look(_) =>
    case Statting(uid, pid, r, w) => StatAmidIsStat(s, uid, pid, r, w);
    case Reaping(rs, ws) => SweepAmidIsSweep(s, s, 0, rs, ws);
  }

  lemma {:induction false} MirrorsReplay(s: State, hs: seq<Happening>, history: seq<C.Entry>)
    requires Lead(s, hs).Some? && Mirrors(hs, history)
    ensures C.DbOf(Lead(s, hs).value) == C.Replay(C.DbOf(s), history)
  {
    hide C.Atomic, Possible, Next, Performs, C.Suitable;
    if hs != [] {
      var before, h := hs[..|hs| - 1], hs[|hs| - 1];
      var u := Lead(s, before).value;
      if h.Quiet? && h.e.World? {
        MirrorsReplay(s, before, history);
        WorldLeaves(u, h);
      } else {
        MirrorsReplay(s, before, history[..|history| - 1]);
        PerformsAtomic(u, h, history[|history| - 1]);
      }
    }
  }

  lemma WorldLeaves(s: State, h: Happening)
    requires Possible(s, h) && h.Quiet? && h.e.World?
    ensures C.DbOf(Next(s, h)) == C.DbOf(s)
  {
  }

  /**
   Every schedule of clients and reaper, in a kernel that other processes may
   change before any call: whenever the database mutex is free, the database is
   where the operations lead, and with the kernel satisfies the invariant. So the
   arbiter holds exactly the reserves of its records and the leaked ones.
   */
  lemma EveryScheduleInv(m: C.Machine, turns: seq<C.Turn>, s: State, hs: seq<Happening>)
    requires C.StartsIdle(m) && m.db == C.DbOf(s) && Initial(s)
    requires C.Execute(m, turns).dbLock == None && Mirrors(hs, C.Execute(m, turns).history) && Lead(s, hs).Some?
    ensures var t := Lead(s, hs).value;
            && C.DbOf(t) == C.Execute(m, turns).db && Inv(t)
            && forall rid :: rid in Held(t.kernel) <==> rid in t.leaked || HasReserve(Records(t), rid)
  {
    hide Lead, Mirrors, C.Execute, C.Replay;
    InitialInv(s);
    EveryLeadInv(s, hs);
    C.Linearizable(m, turns);
    MirrorsReplay(s, hs, C.Execute(m, turns).history);
  }
}
