/**
 Whole runs with the reaper's loop as it is written: records that have been
 destroyed stay on the dead list. What still holds, and what breaks it.
 */
module WrittenRuns {
  import opened Options
  import opened ArbiterSpec
  import opened ArbiterInvariant
  import opened ArbiterRuns
  import opened ReaperPass
  import opened ReserveLog

  /** A state, and which records of its dead list have had their reserve put. */
  datatype Tagged = Tagged(s: State, put: seq<bool>)

  /** The dead records that have not had their reserve put. */
  function Unput(dead: seq<Rec>, put: seq<bool>): seq<Rec>
    requires |dead| == |put|
  {
    if dead == [] then []
    else Unput(dead[..|dead| - 1], put[..|dead| - 1]) + if put[|dead| - 1] then [] else [dead[|dead| - 1]]
  }

  /** What the state would be had the loop unlinked those records. */
  function Shadow(w: Tagged): State
    requires |w.put| == |w.s.dead|
  {
    w.s.(dead := Unput(w.s.dead, w.put))
  }

  lemma UnputSnoc(dead: seq<Rec>, put: seq<bool>, r: Rec)
    requires |dead| == |put|
    ensures Unput(dead + [r], put + [false]) == Unput(dead, put) + [r]
  {
    assert (dead + [r])[..|dead|] == dead && (put + [false])[..|dead|] == put;
  }

  function Falses(n: nat): (f: seq<bool>)
    ensures |f| == n && forall i :: 0 <= i < n ==> !f[i]
  {
    seq(n, _ => false)
  }

  lemma {:induction false} UnputAppend(dead: seq<Rec>, put: seq<bool>, more: seq<Rec>)
    requires |dead| == |put|
    ensures Unput(dead + more, put + Falses(|more|)) == Unput(dead, put) + more
  {
    if more == [] {
      assert dead + more == dead && put + Falses(0) == put && Unput(dead, put) + [] == Unput(dead, put);
    } else {
      var n := |more| - 1;
      UnputAppend(dead, put, more[..n]);
      UnputSnoc(dead + more[..n], put + Falses(n), more[n]);
      assert dead + more == (dead + more[..n]) + [more[n]] && put + Falses(|more|) == (put + Falses(n)) + [false];
      assert Unput(dead, put) + more == (Unput(dead, put) + more[..n]) + [more[n]];
    }
  }

  lemma UnputLast(dead: seq<Rec>, put: seq<bool>)
    requires |dead| == |put| > 0
    ensures var n := |dead| - 1;
            multiset(Unput(dead, put)) ==
            multiset(Unput(dead[..n], put[..n])) + if put[n] then multiset{} else multiset{dead[n]}
  {
    var n := |dead| - 1;
    var front := Unput(dead[..n], put[..n]);
    if put[n] {
      assert Unput(dead, put) == front + [] == front;
    } else {
      assert Unput(dead, put) == front + [dead[n]];
    }
  }

  lemma {:induction false} UnputDrop(dead: seq<Rec>, put: seq<bool>, j: nat)
    requires j < |dead| == |put| && !put[j]
    ensures multiset(Unput(dead, put)) == multiset(Unput(dead, put[j := true])) + multiset{dead[j]}
  {
    hide Unput;
    var n := |dead| - 1;
    var put' := put[j := true];
    UnputLast(dead, put);
    UnputLast(dead, put');
    if j < n {
      UnputDrop(dead[..n], put[..n], j);
      assert put'[..n] == put[..n][j := true];
    } else {
      assert put'[..n] == put[..n];
    }
  }

  // --- A pass as it is written ---

  function Turn(w: Tagged, j: nat, reply: ReapReply): (t: Tagged)
    requires j < |w.s.dead| == |w.put|
    ensures |t.put| == |t.s.dead| == |w.put| && t.s.dead == w.s.dead
  {
    var a := w.s.dead[j];
    if !Destroyable(a, reply) then w
    else Tagged(Destroy(w.s, a, reply), if a.made.Some? then w.put[j := true] else w.put)
  }

  function Pass(w: Tagged, j: nat, replies: seq<ReapReply>): (t: Tagged)
    requires j + |replies| == |w.s.dead| == |w.put|
    ensures |t.put| == |t.s.dead| == |w.put|
    decreases |replies|
  {
    if replies == [] then w else Pass(Turn(w, j, replies[0]), j + 1, replies[1..])
  }

  /** A pass is the loop as written, and a record's reserve is put when the pass lets the record go. */
  lemma {:induction false} PassIsWritten(w: Tagged, j: nat, replies: seq<ReapReply>)
    requires j + |replies| == |w.s.dead| == |w.put|
    ensures var t := Pass(w, j, replies);
            && t.s == SweepAsWritten(w.s, j, replies)
            && forall i :: 0 <= i < |w.put| ==>
                 (t.put[i] <==>
                  w.put[i] || (i >= j && w.s.dead[i].made.Some? && Destroyable(w.s.dead[i], replies[i - j])))
    decreases |replies|
  {
    hide Destroyable, Destroy;
    if replies != [] {
      SameDead(w.s, w.s.dead[j], replies[0]);
      PassIsWritten(Turn(w, j, replies[0]), j + 1, replies[1..]);
    }
  }

  /** Every put of the replies goes through. */
  predicate Taken(replies: seq<ReapReply>) {
    forall i :: 0 <= i < |replies| ==> replies[i].put == 0
  }

  lemma PutHeld(k: Kernel, rid: int)
    ensures Held(PutReserve(k, rid, 0)) == Held(k) - {rid} && PutReserve(k, rid, 0).taps == k.taps
  {
  }

  /** What a pass as written leaves held: all but the reserves of the records it lets go, live or not. */
  lemma {:induction false} WrittenHeld(s: State, j: nat, replies: seq<ReapReply>, rid: int)
    requires j + |replies| == |s.dead| && Taken(replies)
    ensures rid in Held(SweepAsWritten(s, j, replies).kernel) <==>
            && rid in Held(s.kernel)
            && forall i :: j <= i < |s.dead| && s.dead[i].made.Some? && s.dead[i].made.value.rid == rid ==>
                 !Destroyable(s.dead[i], replies[i - j])
    decreases |replies|
  {
    hide Destroyable, Held;
    if replies != [] {
      var a := s.dead[j];
      var t := if Destroyable(a, replies[0]) then Destroy(s, a, replies[0]) else s;
      assert t.dead == s.dead;
      if a.made.Some? {
        PutHeld(s.kernel, a.made.value.rid);
      }
      WrittenHeld(t, j + 1, replies[1..], rid);
      assert forall i {:trigger s.dead[i]} :: j < i < |s.dead| ==> replies[1..][i - (j + 1)] == replies[i - j];
    }
  }

  /** An active record loses its reserve to a pass exactly when the pass lets go a dead one with the same reserve. */
  lemma LiveReserveTaken(s: State, replies: seq<ReapReply>, a: Rec)
    requires |replies| == |s.dead| && Taken(replies)
    requires a in s.active && a.made.Some? && a.made.value.rid in Held(s.kernel)
    ensures a.made.value.rid !in Held(SweepAsWritten(s, 0, replies).kernel) <==>
            exists i :: 0 <= i < |s.dead| && s.dead[i].made.Some? && s.dead[i].made.value.rid == a.made.value.rid
                        && Destroyable(s.dead[i], replies[i])
  {
    hide Destroyable, Held, SweepAsWritten;
    WrittenHeld(s, 0, replies, a.made.value.rid);
  }

  // --- What runs keep while no id of a dead record is issued to another ---

  ghost predicate Kept(w: Tagged) {
    && |w.put| == |w.s.dead| && Inv(Shadow(w))
    && forall i :: 0 <= i < |w.put| && w.put[i] ==>
         w.s.dead[i].made.Some? && w.s.dead[i].made.value.rid !in Held(w.s.kernel)
  }

  /** A record is given the reserve id of one still on the dead list. */
  ghost predicate Reissues(s: State, e: Event) {
    e.StatReq? && Makes(s, e.uid, e.replies)
    && exists a :: a in s.dead && a.made.Some? && a.made.value.rid == e.replies.create
  }

  ghost function Next(w: Tagged, e: Event): Tagged
    requires |w.put| == |w.s.dead| && Enabled(w.s, e)
  {
    match e
    case Reap(rs) => Pass(w, 0, rs)
    case Remove(uid) => Tagged(Step(w.s, e), if Find(w.s.active, uid) >= 0 then w.put + [false] else w.put)
    case EmptyAll => Tagged(Step(w.s, e), w.put + Falses(|w.s.active|))
    case _ => Tagged(Step(w.s, e), w.put)
  }

  /** A stat has nothing to do with the dead list. */
  lemma StatElsewhere(s: State, dead: seq<Rec>, uid: nat, pid: int, r: StatReplies)
    ensures Stat(s, uid, pid, r).0.dead == s.dead
    ensures Stat(s.(dead := dead), uid, pid, r).0 == Stat(s, uid, pid, r).0.(dead := dead)
  {
    hide Find, CreateReserve, CreateTap, SetRate, DeleteTap, PutReserve, Expose;
  }

  lemma RemoveShadow(w: Tagged, uid: nat)
    requires |w.put| == |w.s.dead|
    ensures var t := Next(w, Remove(uid));
            |t.put| == |t.s.dead| && Shadow(t) == RemoveParams(Shadow(w), uid).0
  {
    hide Find, Unput;
    var k := Find(w.s.active, uid);
    if k >= 0 {
      UnputSnoc(w.s.dead, w.put, w.s.active[k]);
    }
  }

  lemma EmptyShadow(w: Tagged)
    requires |w.put| == |w.s.dead|
    ensures var t := Next(w, EmptyAll);
            |t.put| == |t.s.dead| && Shadow(t) == Empty(Shadow(w))
  {
    hide Unput;
    UnputAppend(w.s.dead, w.put, w.s.active);
  }

  lemma ElsewhereShadow(w: Tagged, e: Event)
    requires |w.put| == |w.s.dead| && Enabled(w.s, e) && !e.Reap? && !e.Remove? && !e.EmptyAll?
    ensures |Next(w, e).put| == |Next(w, e).s.dead| && Enabled(Shadow(w), e)
    ensures Shadow(Next(w, e)) == Step(Shadow(w), e)
  {
    hide Sweep, Stat, Environment, Unput, FreshIds, Find, SetRate, ParamsOk, RemoveParams, Empty, Pass;
    if e.StatReq? {
      StatElsewhere(w.s, Unput(w.s.dead, w.put), e.uid, e.pid, e.replies);
    }
  }

  /** Whatever is no pass does to the records not yet put what it does to all. */
  lemma NextShadow(w: Tagged, e: Event)
    requires |w.put| == |w.s.dead| && Enabled(w.s, e) && !e.Reap?
    ensures |Next(w, e).put| == |Next(w, e).s.dead| && Enabled(Shadow(w), e)
    ensures Shadow(Next(w, e)) == Step(Shadow(w), e)
  {
    hide Sweep, Stat, Environment, Unput, FreshIds, Find, AddParams, RemoveParams, SetParams, Empty, Pass;
    match e
    case Remove(uid) => RemoveShadow(w, uid);
    case EmptyAll => EmptyShadow(w);
    case _ => ElsewhereShadow(w, e);
  }

  lemma StatHeld(s: State, uid: nat, pid: int, r: StatReplies)
    requires FreshIds(s.kernel, r) && r.put == 0
    ensures Held(Stat(s, uid, pid, r).0.kernel) == Held(s.kernel) + if Makes(s, uid, r) then {r.create} else {}
  {
    assert {Arbiter} - {Arbiter} == {};
    var k := Find(s.active, uid);
    if r.rootErr == 0 && k >= 0 && s.active[k].made.None? && r.create >= 0 && !(r.tap >= 0 && r.rate == 0) {
      assert Held(Make(s, k, r).0.kernel) == Held(s.kernel);
    }
  }

  lemma SetHeld(s: State, uid: nat, t: int, v: int, reply: int)
    ensures Held(SetParams(s, uid, t, v, reply).0.kernel) == Held(s.kernel)
  {
  }

  lemma NextHeld(w: Tagged, e: Event)
    requires |w.put| == |w.s.dead| && Enabled(w.s, e) && PutsSucceed(e) && !e.Reap?
    ensures Held(Next(w, e).s.kernel) ==
            Held(w.s.kernel) + if e.StatReq? && Makes(w.s, e.uid, e.replies) then {e.replies.create} else {}
  {
    hide Sweep, Stat, SetParams, Held, FreshIds, Makes;
    if e.StatReq? {
      StatHeld(w.s, e.uid, e.pid, e.replies);
    } else if e.Set? {
      SetHeld(w.s, e.uid, e.tapType, e.tapValue, e.rateReply);
    }
  }

  /** The dead records stay where they are. */
  lemma NextDead(w: Tagged, e: Event)
    requires |w.put| == |w.s.dead| && Enabled(w.s, e) && !e.Reap?
    ensures var t := Next(w, e);
            && |t.put| == |t.s.dead|
            && forall i :: 0 <= i < |t.put| && t.put[i] ==> i < |w.put| && w.put[i] && t.s.dead[i] == w.s.dead[i]
  {
    hide Sweep, Stat, Environment;
    if e.StatReq? {
      StatElsewhere(w.s, w.s.dead, e.uid, e.pid, e.replies);
    }
  }

  lemma NextKeeps(w: Tagged, e: Event)
    requires Kept(w) && Enabled(w.s, e) && PutsSucceed(e) && !e.Reap? && !Reissues(w.s, e)
    ensures Kept(Next(w, e))
  {
    hide Inv, Shadow, Next, Step, Held, Enabled, PutsSucceed, Makes;
    NextShadow(w, e);
    NextHeld(w, e);
    NextDead(w, e);
    StepKeeps(Shadow(w), e);
    ShadowIs(w);
    forall i | 0 <= i < |Next(w, e).put| && Next(w, e).put[i]
      ensures Next(w, e).s.dead[i].made.Some? && Next(w, e).s.dead[i].made.value.rid !in Held(Next(w, e).s.kernel)
    {
      assert w.s.dead[i] in w.s.dead;
    }
  }

  lemma ShadowIs(w: Tagged)
    requires |w.put| == |w.s.dead|
    ensures Shadow(w).kernel == w.s.kernel && Shadow(w).leaked == w.s.leaked && Shadow(w).active == w.s.active
    ensures Records(Shadow(w)) == multiset(w.s.active) + multiset(Unput(w.s.dead, w.put))
  {
  }

  /** A record whose reserve is not put yet is among the records of the shadow, and leaves them when it is. */
  lemma TurnRecords(w: Tagged, j: nat, reply: ReapReply)
    requires j < |w.s.dead| == |w.put| && !w.put[j] && w.s.dead[j].made.Some? && Destroyable(w.s.dead[j], reply)
    ensures w.s.dead[j] in Records(Shadow(w))
    ensures Records(Shadow(Turn(w, j, reply))) == Records(Shadow(w)) - multiset{w.s.dead[j]}
  {
    hide Destroyable;
    UnputDrop(w.s.dead, w.put, j);
    ShadowIs(w);
  }

  lemma TurnKeeps(w: Tagged, j: nat, reply: ReapReply)
    requires Kept(w) && j < |w.s.dead| && reply.put == 0
    ensures Kept(Turn(w, j, reply)) && Turn(w, j, reply).s.leaked == w.s.leaked
  {
    hide Coherent, UniqueUids, Held, Destroyable, PutReserve, Unput;
    var a := w.s.dead[j];
    var k, m := w.s.kernel, Records(Shadow(w));
    if Destroyable(a, reply) && a.made.Some? {
      var rid := a.made.value.rid;
      var k' := PutReserve(k, rid, 0);
      PutHeld(k, rid);
      if w.put[j] {
        assert w.put[j := true] == w.put;
        SameTapsCoherent(m, k, k', w.s.leaked);
      } else {
        TurnRecords(w, j, reply);
        CoherentDrop(m, a, k, k', w.s.leaked, w.s.leaked);
      }
    }
  }

  lemma SameTapsCoherent(m: multiset<Rec>, k: Kernel, k': Kernel, leaked: set<int>)
    requires Coherent(m, k, leaked) && k'.taps == k.taps && Held(k') == Held(k)
    ensures Coherent(m, k', leaked)
  {
  }

  lemma {:induction false} PassKeeps(w: Tagged, j: nat, replies: seq<ReapReply>)
    requires Kept(w) && j + |replies| == |w.s.dead| && Taken(replies)
    ensures Kept(Pass(w, j, replies)) && Pass(w, j, replies).s.leaked == w.s.leaked
    decreases |replies|
  {
    hide Kept, Turn;
    KeptFits(w);
    if replies != [] {
      TurnKeeps(w, j, replies[0]);
      PassKeeps(Turn(w, j, replies[0]), j + 1, replies[1..]);
    }
  }

  lemma KeptFits(w: Tagged)
    requires Kept(w)
    ensures |w.put| == |w.s.dead|
  {
  }

  ghost predicate WrittenRun(w: Tagged, es: seq<Event>, t: Tagged)
    requires |w.put| == |w.s.dead|
    decreases |es|
  {
    if es == [] then t == w
    else
      && Enabled(w.s, es[0])
      && |Next(w, es[0]).put| == |Next(w, es[0]).s.dead|
      && WrittenRun(Next(w, es[0]), es[1..], t)
  }

  /** Along the run every put goes through and no record gets the reserve id of one on the dead list. */
  ghost predicate NoneReissued(w: Tagged, es: seq<Event>, t: Tagged)
    requires |w.put| == |w.s.dead| && WrittenRun(w, es, t)
    decreases |es|
  {
    es != [] ==>
      && PutsSucceed(es[0]) && !Reissues(w.s, es[0])
      && NoneReissued(Next(w, es[0]), es[1..], t)
  }

  lemma EventKeeps(w: Tagged, e: Event)
    requires Kept(w) && Enabled(w.s, e) && PutsSucceed(e) && !Reissues(w.s, e)
    ensures Kept(Next(w, e)) && Next(w, e).s.leaked == w.s.leaked
  {
    hide Kept, Pass, Reissues;
    KeptFits(w);
    if e.Reap? {
      PassKeeps(w, 0, e.counts);
    } else {
      NextKeeps(w, e);
      StepLeaks(w.s, e);
    }
  }

  lemma {:induction false} RunKeeps(w: Tagged, es: seq<Event>, t: Tagged)
    requires Kept(w) && WrittenRun(w, es, t) && NoneReissued(w, es, t)
    ensures Kept(t) && t.s.leaked == w.s.leaked
    decreases |es|
  {
    hide Kept, Next, Enabled, PutsSucceed, Reissues;
    if es != [] {
      KeptFits(w);
      EventKeeps(w, es[0]);
      RunKeeps(Next(w, es[0]), es[1..], t);
    }
  }

  lemma StartKept(s: State)
    requires Initial(s)
    ensures Kept(Tagged(s, []))
  {
    hide Inv;
    InitialInv(s);
    assert Shadow(Tagged(s, [])) == s;
  }

  /**
   With the loop as written, and as long as puts go through and no record gets the
   reserve id of one on the dead list, the reserves held are exactly those of the
   active records and of the dead ones not yet put, all distinct. User counts may
   be wrong.
   */
  lemma WrittenConserves(s: State, es: seq<Event>, t: Tagged)
    requires Initial(s) && WrittenRun(Tagged(s, []), es, t) && NoneReissued(Tagged(s, []), es, t)
    ensures |t.put| == |t.s.dead|
    ensures var m := multiset(t.s.active) + multiset(Unput(t.s.dead, t.put));
            && (forall rid :: rid in Held(t.s.kernel) <==> HasReserve(m, rid))
            && (forall a, b :: a in m && b in m && a != b ==> OwnIds(a, b))
            && (forall a :: a in m && a.made.Some? ==> m[a] == 1)
  {
    hide WrittenRun, NoneReissued;
    StartKept(s);
    RunKeeps(Tagged(s, []), es, t);
    ShadowIs(t);
  }

  // --- When a record may be put again ---

  /** A true count never lets go a record whose reserve is not in use. */
  lemma NotAnew(k: Kernel, a: Rec, reply: ReapReply)
    requires a.made.Some? && a.made.value.rid !in k.reserves && CountsTrue(k, a, reply)
    ensures !Destroyable(a, reply)
  {
  }

  /** Kept, and no reserve that has been put is in use again, by anyone. */
  ghost predicate Over(w: Tagged) {
    Kept(w) && forall i :: 0 <= i < |w.put| && w.put[i] ==> w.s.dead[i].made.value.rid !in w.s.kernel.reserves
  }

  /** Every count of a pass is true when it is made. */
  ghost predicate PassCounted(s: State, j: nat, replies: seq<ReapReply>)
    requires j + |replies| == |s.dead|
    decreases |replies|
  {
    replies != [] ==>
      && CountsTrue(s.kernel, s.dead[j], replies[0])
      && var t := if Destroyable(s.dead[j], replies[0]) then Destroy(s, s.dead[j], replies[0]) else s;
         t.dead == s.dead && PassCounted(t, j + 1, replies[1..])
  }

  /** No reserve id of a dead record comes into use, in whatever hands. */
  ghost predicate NoneReused(s: State, e: Event)
    requires Enabled(s, e)
  {
    !e.Reap? ==>
      forall a :: a in s.dead && a.made.Some? && a.made.value.rid in Step(s, e).kernel.reserves ==>
        a.made.value.rid in s.kernel.reserves
  }

  lemma TurnOver(w: Tagged, j: nat, reply: ReapReply, log: seq<Mark>)
    requires Over(w) && j < |w.s.dead| && reply.put == 0 && CountsTrue(w.s.kernel, w.s.dead[j], reply)
    requires Ledger(Shadow(w), log)
    ensures var t := Turn(w, j, reply);
            && Over(t)
            && Ledger(Shadow(t),
                 log + if Destroyable(w.s.dead[j], reply) then CallMark(Call(w.s.dead[j], reply)) else [])
  {
    hide Coherent, UniqueUids, Held, Destroyable, Ledger, Unput, CountsTrue;
    assert log + [] == log;
    var a := w.s.dead[j];
    TurnKeeps(w, j, reply);
    if Destroyable(a, reply) && a.made.Some? {
      if w.put[j] {
        NotAnew(w.s.kernel, a, reply);
        assert false;
      }
      TurnRecords(w, j, reply);
      SoleUseGone(w, a, reply);
      DropLedger(Shadow(w), Shadow(Turn(w, j, reply)), a, reply, log);
    }
  }

  /** A put after a true count takes the reserve out of use. */
  lemma SoleUseGone(w: Tagged, a: Rec, reply: ReapReply)
    requires Kept(w) && a in Records(Shadow(w)) && a.made.Some?
    requires Destroyable(a, reply) && CountsTrue(w.s.kernel, a, reply)
    ensures PutReserve(w.s.kernel, a.made.value.rid, 0).reserves == w.s.kernel.reserves - {a.made.value.rid}
  {
    hide Coherent, UniqueUids;
    PutOnlySoleUse(Records(Shadow(w)), w.s.kernel, w.s.leaked, a, reply);
    assert {Arbiter} - {Arbiter} == {};
  }

  /** The ledger when a made record leaves. */
  lemma DropLedger(s: State, t: State, a: Rec, reply: ReapReply, log: seq<Mark>)
    requires Inv(s) && Ledger(s, log) && a in Records(s) && a.made.Some? && Records(t) == Records(s) - multiset{a}
    ensures Ledger(t, log + CallMark(Call(a, reply)))
  {
    hide Coherent, UniqueUids, Answered, Open, HasReserve, Records;
    var mark := PutBack(a.made.value.rid);
    ReserveOf(Records(s), a);
    AnsweredSnoc(log, mark);
    forall rid
      ensures Open(log + [mark], rid) <==> HasReserve(Records(t), rid)
    {
      HasReserveDrop(Records(s), a, s.kernel, s.leaked, rid);
      OpenSnoc(log, mark, rid);
    }
  }

  lemma {:induction false} PassOver(w: Tagged, j: nat, replies: seq<ReapReply>, log: seq<Mark>)
    requires Over(w) && |w.put| == |w.s.dead| && Ledger(Shadow(w), log)
    requires j + |replies| == |w.s.dead| && Taken(replies) && PassCounted(w.s, j, replies)
    ensures Over(Pass(w, j, replies))
    ensures Ledger(Shadow(Pass(w, j, replies)), log + CallMarks(Doomed(w.s.dead[j..], replies)))
    decreases |replies|
  {
    hide Over, Ledger, Destroy, Destroyable, CallMark, CountsTrue, Shadow;
    var d := w.s.dead;
    if replies == [] {
      assert log + [] == log;
    } else {
      assert d[j..][1..] == d[j + 1..] && d[j..][0] == d[j];
      var rest := Doomed(d[j + 1..], replies[1..]);
      TurnOver(w, j, replies[0], log);
      var t := Turn(w, j, replies[0]);
      if Destroyable(d[j], replies[0]) {
        var call := Call(d[j], replies[0]);
        PassOver(t, j + 1, replies[1..], log + CallMark(call));
        assert ([call] + rest)[1..] == rest;
        assert (log + CallMark(call)) + CallMarks(rest) == log + (CallMark(call) + CallMarks(rest));
      } else {
        assert log + [] == log;
        PassOver(t, j + 1, replies[1..], log);
        assert [] + rest == rest;
      }
    }
  }

  ghost function WrittenLog(w: Tagged, es: seq<Event>, t: Tagged): seq<Mark>
    requires |w.put| == |w.s.dead| && WrittenRun(w, es, t)
    decreases |es|
  {
    if es == [] then [] else Marks(w.s, es[0]) + WrittenLog(Next(w, es[0]), es[1..], t)
  }

  /** The counts of a pass are true and every put goes through. */
  ghost predicate Truthful(s: State, e: Event)
    requires Enabled(s, e)
  {
    PutsSucceed(e) && (e.Reap? ==> PassCounted(s, 0, e.counts))
  }

  ghost predicate TruthfulRun(w: Tagged, es: seq<Event>, t: Tagged)
    requires |w.put| == |w.s.dead| && WrittenRun(w, es, t)
    decreases |es|
  {
    es != [] ==> Truthful(w.s, es[0]) && TruthfulRun(Next(w, es[0]), es[1..], t)
  }

  /** Along the run counts are true, puts go through and no reserve id of a dead record comes into use again. */
  ghost predicate Honest(w: Tagged, es: seq<Event>, t: Tagged)
    requires |w.put| == |w.s.dead| && WrittenRun(w, es, t)
    decreases |es|
  {
    es != [] ==>
      && Truthful(w.s, es[0]) && !Reissues(w.s, es[0]) && NoneReused(w.s, es[0])
      && Honest(Next(w, es[0]), es[1..], t)
  }

  lemma EventOver(w: Tagged, e: Event, log: seq<Mark>)
    requires Over(w) && |w.put| == |w.s.dead| && Ledger(Shadow(w), log) && Enabled(w.s, e)
    requires Truthful(w.s, e) && !Reissues(w.s, e) && NoneReused(w.s, e)
    ensures Over(Next(w, e)) && Kept(Next(w, e)) && Ledger(Shadow(Next(w, e)), log + Marks(w.s, e))
  {
    hide Kept, Ledger, Pass, Reissues, Shadow, Inv, PassCounted;
    if e.Reap? {
      assert w.s.dead[0..] == w.s.dead;
      PassOver(w, 0, e.counts, log);
    } else {
      NextKeeps(w, e);
      NextDead(w, e);
      NextShadow(w, e);
      ShadowInv(w);
      StepLedger(Shadow(w), e, log);
      SameMarks(w, e);
      forall i | 0 <= i < |Next(w, e).put| && Next(w, e).put[i]
        ensures Next(w, e).s.dead[i].made.Some?
        ensures Next(w, e).s.dead[i].made.value.rid !in Next(w, e).s.kernel.reserves
      {
        PutIsMade(w, i);
        assert w.s.dead[i] in w.s.dead;
      }
    }
  }

  lemma PutIsMade(w: Tagged, i: nat)
    requires Kept(w) && i < |w.put| && w.put[i]
    ensures i < |w.s.dead| && w.s.dead[i].made.Some?
  {
  }

  lemma ShadowInv(w: Tagged)
    requires Kept(w)
    ensures |w.put| == |w.s.dead| && Inv(Shadow(w))
  {
  }

  lemma SameMarks(w: Tagged, e: Event)
    requires |w.put| == |w.s.dead| && Enabled(w.s, e) && Enabled(Shadow(w), e) && !e.Reap?
    ensures Marks(Shadow(w), e) == Marks(w.s, e)
  {
  }

  lemma {:induction false} RunOver(w: Tagged, es: seq<Event>, t: Tagged, log: seq<Mark>)
    requires Over(w) && |w.put| == |w.s.dead| && Ledger(Shadow(w), log) && WrittenRun(w, es, t) && Honest(w, es, t)
    ensures Over(t) && |t.put| == |t.s.dead| && Ledger(Shadow(t), log + WrittenLog(w, es, t))
    decreases |es|
  {
    hide Over, Ledger, Next, Enabled, Truthful, Reissues, NoneReused, Marks, Shadow;
    if es == [] {
      assert log + [] == log;
    } else {
      var u, marks := Next(w, es[0]), Marks(w.s, es[0]);
      EventOver(w, es[0], log);
      KeptFits(u);
      RunOver(u, es[1..], t, log + marks);
      assert (log + marks) + WrittenLog(u, es[1..], t) == log + (marks + WrittenLog(u, es[1..], t));
    }
  }

  /**
   With the loop as written too, no reserve is given back twice without being
   created again in between, as long as counts are true, puts go through and no
   reserve id of a dead record comes into use again.
   */
  lemma WrittenPutsOnce(s: State, es: seq<Event>, t: Tagged)
    requires Initial(s) && WrittenRun(Tagged(s, []), es, t) && Honest(Tagged(s, []), es, t)
    ensures Answered(WrittenLog(Tagged(s, []), es, t))
  {
    hide WrittenRun, Honest;
    StartKept(s);
    StartLedger(s);
    assert Shadow(Tagged(s, [])) == s;
    RunOver(Tagged(s, []), es, t, []);
    assert [] + WrittenLog(Tagged(s, []), es, t) == WrittenLog(Tagged(s, []), es, t);
  }

  // --- The id of a put reserve, issued again ---

  lemma {:induction false} WrittenConcat(w: Tagged, es: seq<Event>, u: Tagged, fs: seq<Event>, t: Tagged)
    requires |w.put| == |w.s.dead| && WrittenRun(w, es, u) && |u.put| == |u.s.dead| && WrittenRun(u, fs, t)
    ensures WrittenRun(w, es + fs, t)
    ensures TruthfulRun(w, es, u) && TruthfulRun(u, fs, t) ==> TruthfulRun(w, es + fs, t)
    decreases |es|
  {
    hide Next, Enabled, Truthful;
    if es == [] {
      assert es + fs == fs;
    } else {
      assert (es + fs)[1..] == es[1..] + fs;
      WrittenConcat(Next(w, es[0]), es[1..], u, fs, t);
    }
  }

  lemma OneEvent(w: Tagged, e: Event)
    requires |w.put| == |w.s.dead| && Enabled(w.s, e) && |Next(w, e).put| == |Next(w, e).s.dead|
    ensures WrittenRun(w, [e], Next(w, e)) && (Truthful(w.s, e) ==> TruthfulRun(w, [e], Next(w, e)))
  {
    assert [e][1..] == [];
  }

  /** The replies to a stat that makes a reserve and a tap and does not expose them. */
  function Making(rid: int, tid: int): StatReplies {
    StatReplies(0, 0, rid, tid, 0, 0, 0, -1)
  }

  /** A record is added to an empty table. */
  lemma Joins(w: Tagged, uid: nat) returns (v: Tagged)
    requires |w.put| == |w.s.dead| && w.s.active == []
    ensures WrittenRun(w, [Add(uid, CONSTANT, 0)], v) && TruthfulRun(w, [Add(uid, CONSTANT, 0)], v)
    ensures v == w.(s := w.s.(active := [Rec(uid, None, CONSTANT, 0)]))
  {
    var e := Add(uid, CONSTANT, 0);
    v := Next(w, e);
    assert v.s.active == [Rec(uid, None, CONSTANT, 0)];
    OneEvent(w, e);
  }

  /** The one active record, without a reserve, gets a reserve and a tap. */
  lemma Obtains(v: Tagged, uid: nat, pid: int, rid: int, tid: int) returns (u: Tagged)
    requires |v.put| == |v.s.dead| && v.s.active == [Rec(uid, None, CONSTANT, 0)]
    requires 0 <= rid && rid !in v.s.kernel.reserves && 0 <= tid && tid !in v.s.kernel.taps
    ensures WrittenRun(v, [StatReq(uid, pid, Making(rid, tid))], u)
    ensures TruthfulRun(v, [StatReq(uid, pid, Making(rid, tid))], u)
    ensures u.s.active == [Rec(uid, Some(Ids(rid, tid)), CONSTANT, 0)] && u.s.dead == v.s.dead && u.put == v.put
    ensures u.s.kernel.reserves == v.s.kernel.reserves[rid := {Arbiter}]
    ensures u.s.kernel.taps.Keys == v.s.kernel.taps.Keys + {tid}
  {
    hide WrittenRun, TruthfulRun;
    var e := StatReq(uid, pid, Making(rid, tid));
    assert Find(v.s.active, uid) == 0;
    u := Next(v, e);
    OneEvent(v, e);
  }

  /** Its record is added and gets a reserve and a tap. */
  lemma GetsReserve(w: Tagged, uid: nat, pid: int, rid: int, tid: int) returns (u: Tagged)
    requires |w.put| == |w.s.dead| && w.s.active == []
    requires 0 <= rid && rid !in w.s.kernel.reserves && 0 <= tid && tid !in w.s.kernel.taps
    ensures WrittenRun(w, [Add(uid, CONSTANT, 0), StatReq(uid, pid, Making(rid, tid))], u)
    ensures TruthfulRun(w, [Add(uid, CONSTANT, 0), StatReq(uid, pid, Making(rid, tid))], u)
    ensures u.s.active == [Rec(uid, Some(Ids(rid, tid)), CONSTANT, 0)] && u.s.dead == w.s.dead && u.put == w.put
    ensures u.s.kernel.reserves == w.s.kernel.reserves[rid := {Arbiter}]
    ensures u.s.kernel.taps.Keys == w.s.kernel.taps.Keys + {tid}
  {
    hide WrittenRun, TruthfulRun;
    var v := Joins(w, uid);
    u := Obtains(v, uid, pid, rid, tid);
    WrittenConcat(w, [Add(uid, CONSTANT, 0)], v, [StatReq(uid, pid, Making(rid, tid))], u);
    assert [Add(uid, CONSTANT, 0)] + [StatReq(uid, pid, Making(rid, tid))]
        == [Add(uid, CONSTANT, 0), StatReq(uid, pid, Making(rid, tid))];
  }

  const SOLE_USE := ReapReply(0, 1, 0)

  /** A truthful pass over one dead record whose reserve the arbiter has alone: the reserve goes, the record stays. */
  lemma SolePass(w: Tagged, a: Rec) returns (u: Tagged)
    requires w.s.dead == [a] && |w.put| == 1 && a.made.Some? && a.made.value.rid in w.s.kernel.reserves
    requires w.s.kernel.reserves[a.made.value.rid] == {Arbiter}
    ensures WrittenRun(w, [Reap([SOLE_USE])], u) && TruthfulRun(w, [Reap([SOLE_USE])], u)
    ensures u.s.active == w.s.active && u.s.dead == [a] && |u.put| == 1
    ensures u.s.kernel.taps == w.s.kernel.taps && u.s.kernel.reserves == w.s.kernel.reserves - {a.made.value.rid}
  {
    assert {Arbiter} - {Arbiter} == {};
    assert [SOLE_USE][1..] == [] && |{Arbiter}| == 1;
    u := Next(w, Reap([SOLE_USE]));
    var v := Turn(w, 0, SOLE_USE);
    assert Pass(v, 1, []) == v;
    OneEvent(w, Reap([SOLE_USE]));
  }

  /**
   A run in which every count is true, every id fresh when it is issued and every
   put goes through, and the reaper puts the reserve of a live record: that of a
   dead one, put before, had been issued again.
   */
  lemma ReissuedIsTaken(k: Kernel, uid: nat, pid: int, rid: int, tid: int, tid': int)
    returns (es: seq<Event>, t: Tagged)
    requires Held(k) == {} && 0 <= rid && rid !in k.reserves
    requires 0 <= tid && tid !in k.taps && 0 <= tid' && tid' !in k.taps && tid != tid'
    ensures Initial(State([], [], k, {}))
    ensures var w := Tagged(State([], [], k, {}), []); WrittenRun(w, es, t) && TruthfulRun(w, es, t)
    ensures es == [Add(uid, CONSTANT, 0), StatReq(uid, pid, Making(rid, tid)), Remove(uid), Reap([SOLE_USE]),
                   Add(uid, CONSTANT, 0), StatReq(uid, pid, Making(rid, tid')), Reap([SOLE_USE])]
    ensures t.s.active == [Rec(uid, Some(Ids(rid, tid')), CONSTANT, 0)] && rid !in Held(t.s.kernel)
  {
    hide Next, WrittenRun, TruthfulRun, Pass, Enabled;
    var w := Tagged(State([], [], k, {}), []);
    var a := Rec(uid, Some(Ids(rid, tid)), CONSTANT, 0);
    var w1 := GetsReserve(w, uid, pid, rid, tid);
    var w2 := Leaves(w1, a);
    var w3 := SolePass(w2, a);
    var w4 := GetsReserve(w3, uid, pid, rid, tid');
    t := SolePass(w4, a);
    var get, get' := [Add(uid, CONSTANT, 0), StatReq(uid, pid, Making(rid, tid))],
                     [Add(uid, CONSTANT, 0), StatReq(uid, pid, Making(rid, tid'))];
    WrittenConcat(w3, get', w4, [Reap([SOLE_USE])], t);
    WrittenConcat(w2, [Reap([SOLE_USE])], w3, get' + [Reap([SOLE_USE])], t);
    WrittenConcat(w1, [Remove(uid)], w2, [Reap([SOLE_USE])] + (get' + [Reap([SOLE_USE])]), t);
    WrittenConcat(w, get, w1, [Remove(uid)] + ([Reap([SOLE_USE])] + (get' + [Reap([SOLE_USE])])), t);
    es := get + ([Remove(uid)] + ([Reap([SOLE_USE])] + (get' + [Reap([SOLE_USE])])));
  }

  /** The one active record is removed. */
  lemma Leaves(w: Tagged, a: Rec) returns (u: Tagged)
    requires w.s.active == [a] && w.s.dead == [] && w.put == []
    ensures WrittenRun(w, [Remove(a.uid)], u) && TruthfulRun(w, [Remove(a.uid)], u)
    ensures u.s.active == [] && u.s.dead == [a] && |u.put| == 1 && u.s.kernel == w.s.kernel
  {
    u := Next(w, Remove(a.uid));
    assert Find(w.s.active, a.uid) == 0;
    OneEvent(w, Remove(a.uid));
  }
}
