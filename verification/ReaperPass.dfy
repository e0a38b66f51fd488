/** What one pass of the reaper does, what any number of them do, and what they return. */
module ReaperPass {
  import opened ArbiterSpec
  import opened ArbiterInvariant

  /** The dead records that the replies do not let go of. */
  ghost function Survivors(dead: seq<Rec>, replies: seq<ReapReply>): seq<Rec>
    requires |dead| == |replies|
  {
    if dead == [] then []
    else
      var letGo := dead[0].made.None? || (replies[0].err == 0 && replies[0].users == 1);
      (if letGo then [] else [dead[0]]) + Survivors(dead[1..], replies[1..])
  }

  lemma SurvivorsStep(dead: seq<Rec>, replies: seq<ReapReply>)
    requires |dead| == |replies|
    ensures Survivors(dead, replies) ==
            if dead == [] then []
            else (if Destroyable(dead[0], replies[0]) then [] else [dead[0]]) + Survivors(dead[1..], replies[1..])
  {
  }

  /** A pass removes every destroyable record and keeps the others in order. */
  lemma {:induction false} SweepDead(s: State, j: nat, replies: seq<ReapReply>)
    requires j + |replies| == |s.dead|
    ensures Sweep(s, j, replies).dead == s.dead[..j] + Survivors(s.dead[j..], replies)
    decreases |replies|
  {
    hide Destroy, Destroyable, Survivors;
    SurvivorsStep(s.dead[j..], replies);
    if replies == [] {
      assert s.dead[..j] == s.dead && s.dead[..j] + [] == s.dead[..j];
    } else {
      var d, rest := s.dead, Survivors(s.dead[j + 1..], replies[1..]);
      assert d[j..][1..] == d[j + 1..] && d[j..][0] == d[j];
      if Destroyable(d[j], replies[0]) {
        var t := Destroy(s, d[j], replies[0]).(dead := d[..j] + d[j + 1..]);
        CutAt(d, j);
        SweepDead(t, j, replies[1..]);
        assert [] + rest == rest;
      } else {
        SweepDead(s, j + 1, replies[1..]);
        CutAt(d, j);
        Regroup(d[..j], d[j], rest);
      }
    }
  }

  lemma CutAt<T>(d: seq<T>, j: nat)
    requires j < |d|
    ensures var c := d[..j] + d[j + 1..]; c[..j] == d[..j] && c[j..] == d[j + 1..]
    ensures d[..j + 1] == d[..j] + [d[j]]
  {
  }

  lemma Regroup<T>(a: seq<T>, x: T, b: seq<T>)
    ensures (a + [x]) + b == a + ([x] + b)
  {
  }

  /** One call of reserveRecordDestroy, with the kernel's reply to its put. */
  datatype Call = Call(rec: Rec, reply: ReapReply)

  ghost function CallIf(rec: Rec, reply: ReapReply): seq<Call> {
    if Destroyable(rec, reply) then [Call(rec, reply)] else []
  }

  /** The calls that the replies ask for, in the order of the dead list. */
  ghost function Doomed(dead: seq<Rec>, replies: seq<ReapReply>): seq<Call>
    requires |dead| == |replies|
  {
    if dead == [] then []
    else CallIf(dead[0], replies[0]) + Doomed(dead[1..], replies[1..])
  }

  lemma {:induction false} DoomedSnoc(dead: seq<Rec>, replies: seq<ReapReply>, rec: Rec, reply: ReapReply)
    requires |dead| == |replies|
    ensures Doomed(dead + [rec], replies + [reply]) ==
            Doomed(dead, replies) + CallIf(rec, reply)
    decreases |dead|
  {
    hide CallIf;
    var d, r := dead + [rec], replies + [reply];
    if dead == [] {
      assert d[1..] == [] && r[1..] == [];
        assert CallIf(rec, reply) + [] == [] + CallIf(rec, reply);
    } else {
      assert d[1..] == dead[1..] + [rec] && r[1..] == replies[1..] + [reply];
      DoomedSnoc(dead[1..], replies[1..], rec, reply);
      Associate(CallIf(dead[0], replies[0]), Doomed(dead[1..], replies[1..]), CallIf(rec, reply));
    }
  }

  lemma Associate<T>(a: seq<T>, b: seq<T>, c: seq<T>)
    ensures (a + b) + c == a + (b + c)
  {
  }

  /** Whose records the calls destroy. */
  ghost function CallUids(calls: seq<Call>): (uids: seq<nat>)
    ensures |uids| == |calls| && forall i :: 0 <= i < |calls| ==> uids[i] == calls[i].rec.uid
  {
    seq(|calls|, i requires 0 <= i < |calls| => calls[i].rec.uid)
  }

  /** The effect of the calls, one after the other. */
  ghost function DestroyAll(s: State, calls: seq<Call>): State
    decreases |calls|
  {
    if calls == [] then s else DestroyAll(Destroy(s, calls[0].rec, calls[0].reply), calls[1..])
  }

  lemma {:induction false} DestroyAllElsewhere(s: State, calls: seq<Call>, dead: seq<Rec>)
    ensures DestroyAll(s.(dead := dead), calls) == DestroyAll(s, calls).(dead := dead)
    ensures DestroyAll(s, calls).dead == s.dead && DestroyAll(s, calls).active == s.active
    decreases |calls|
  {
    if calls != [] {
      DestroyAllElsewhere(Destroy(s, calls[0].rec, calls[0].reply), calls[1..], dead);
    }
  }

  /**
   A pass is exactly one call of reserveRecordDestroy for each destroyable record, in order, and the
   unlinking of those records.
   */
  lemma {:induction false} SweepDestroysExactly(s: State, j: nat, replies: seq<ReapReply>)
    requires j + |replies| == |s.dead|
    ensures Sweep(s, j, replies) ==
            DestroyAll(s, Doomed(s.dead[j..], replies)).(dead := s.dead[..j] + Survivors(s.dead[j..], replies))
    decreases |replies|
  {
    hide Destroy, Destroyable, Survivors;
    SweepDead(s, j, replies);
    if replies != [] {
      var d := s.dead;
      assert d[j..][1..] == d[j + 1..] && d[j..][0] == d[j];
      CutAt(d, j);
      if Destroyable(d[j], replies[0]) {
        var u := Destroy(s, d[j], replies[0]);
        var c := d[..j] + d[j + 1..];
        SweepDestroysExactly(u.(dead := c), j, replies[1..]);
        DestroyAllElsewhere(u, Doomed(d[j + 1..], replies[1..]), c);
        assert Doomed(d[j..], replies)[1..] == Doomed(d[j + 1..], replies[1..]);
      } else {
        SweepDestroysExactly(s, j + 1, replies[1..]);
        assert [] + Doomed(d[j + 1..], replies[1..]) == Doomed(d[j + 1..], replies[1..]);
      }
    } else {
      DestroyAllElsewhere(s, [], s.dead);
    }
  }

  // --- A pass in a kernel that stands still meanwhile ---

  /** The kernel counts users truly all through a pass. */
  ghost predicate CountsTrueThroughout(s: State, j: nat, replies: seq<ReapReply>)
    requires j + |replies| == |s.dead|
    decreases |replies|
  {
    replies != [] ==>
      && CountsTrue(s.kernel, s.dead[j], replies[0])
      && if Destroyable(s.dead[j], replies[0]) then
           CountsTrueThroughout(Destroy(s, s.dead[j], replies[0]).(dead := s.dead[..j] + s.dead[j + 1..]), j,
                                replies[1..])
         else CountsTrueThroughout(s, j + 1, replies[1..])
  }

  lemma DestroySpares(s: State, j: nat, reply: ReapReply, rid: int)
    requires Inv(s) && j < |s.dead| && CountsTrue(s.kernel, s.dead[j], reply) && Destroyable(s.dead[j], reply)
    requires rid in s.kernel.reserves && s.kernel.reserves[rid] != {Arbiter}
    ensures var k := Destroy(s, s.dead[j], reply).kernel; rid in k.reserves && k.reserves[rid] == s.kernel.reserves[rid]
  {
    var r := s.dead[j];
    assert r in s.dead && r in Records(s);
    if r.made.Some? {
      PutOnlySoleUse(Records(s), s.kernel, s.leaked, r, reply);
    }
  }

  /** A pass takes nothing from a reserve that any other process uses. */
  lemma {:induction false} SweepSparesSharedReserves(s: State, j: nat, replies: seq<ReapReply>, rid: int)
    requires Inv(s) && j + |replies| == |s.dead| && CountsTrueThroughout(s, j, replies)
    requires rid in s.kernel.reserves && s.kernel.reserves[rid] != {Arbiter}
    ensures var k := Sweep(s, j, replies).kernel; rid in k.reserves && k.reserves[rid] == s.kernel.reserves[rid]
    decreases |replies|
  {
    hide Inv, CountsTrue, Destroy, Destroyable;
    if replies != [] {
      if Destroyable(s.dead[j], replies[0]) {
        DestroyKeeps(s, j, replies[0]);
        DestroySpares(s, j, replies[0], rid);
        SweepSparesSharedReserves(Destroy(s, s.dead[j], replies[0]).(dead := s.dead[..j] + s.dead[j + 1..]), j,
                                  replies[1..], rid);
      } else {
        SweepSparesSharedReserves(s, j + 1, replies[1..], rid);
      }
    }
  }

  // --- Any number of passes, with nothing joining the dead list in between ---

  /** Every pass has a reply for each record that is dead by then. */
  ghost predicate Fit(s: State, passes: seq<seq<ReapReply>>)
    decreases |passes|
  {
    passes != [] ==> |passes[0]| == |s.dead| && Fit(Sweep(s, 0, passes[0]), passes[1..])
  }

  ghost function AfterPasses(s: State, passes: seq<seq<ReapReply>>): State
    requires Fit(s, passes)
    decreases |passes|
  {
    if passes == [] then s else AfterPasses(Sweep(s, 0, passes[0]), passes[1..])
  }

  /** All calls of reserveRecordDestroy in those passes. */
  ghost function AllCalls(s: State, passes: seq<seq<ReapReply>>): seq<Call>
    requires Fit(s, passes)
    decreases |passes|
  {
    if passes == [] then [] else Doomed(s.dead, passes[0]) + AllCalls(Sweep(s, 0, passes[0]), passes[1..])
  }

  ghost function Called(calls: seq<Call>): multiset<Rec> {
    if calls == [] then multiset{} else multiset{calls[0].rec} + Called(calls[1..])
  }

  lemma {:induction false} CalledAppend(a: seq<Call>, b: seq<Call>)
    ensures Called(a + b) == Called(a) + Called(b)
  {
    if a == [] {
      assert a + b == b;
    } else {
      assert (a + b)[1..] == a[1..] + b;
      CalledAppend(a[1..], b);
    }
  }

  lemma CallOf(rec: Rec, reply: ReapReply)
    ensures Called([Call(rec, reply)]) == multiset{rec}
  {
    assert [Call(rec, reply)][1..] == [];
  }

  lemma {:induction false} PassSplits(dead: seq<Rec>, replies: seq<ReapReply>)
    requires |dead| == |replies|
    ensures multiset(dead) == multiset(Survivors(dead, replies)) + Called(Doomed(dead, replies))
  {
    hide Destroyable, Called, Survivors;
    SurvivorsStep(dead, replies);
    if dead == [] {
      NothingCalled();
    } else {
      var x := dead[0];
      var kept, doomed := Survivors(dead[1..], replies[1..]), Doomed(dead[1..], replies[1..]);
      PassSplits(dead[1..], replies[1..]);
      MultisetOf(x, dead[1..]);
      assert dead == [x] + dead[1..];
      if Destroyable(x, replies[0]) {
        assert Survivors(dead, replies) == [] + kept == kept;
        CallOf(x, replies[0]);
        CalledAppend([Call(x, replies[0])], doomed);
      } else {
        assert Doomed(dead, replies) == [] + doomed == doomed;
        MultisetOf(x, kept);
      }
    }
  }

  lemma MultisetOf<T>(x: T, s: seq<T>)
    ensures multiset([x] + s) == multiset{x} + multiset(s)
  {
  }

  lemma NothingCalled()
    ensures Called([]) == multiset{}
  {
  }

  /**
   Over any number of passes each record that was dead is either still on the
   list or has been destroyed by exactly one call, and the calls account for all
   that happened to the kernel.
   */
  lemma {:induction false} DestroyedOnce(s: State, passes: seq<seq<ReapReply>>)
    requires Fit(s, passes)
    ensures multiset(s.dead) == multiset(AfterPasses(s, passes).dead) + Called(AllCalls(s, passes))
    ensures AfterPasses(s, passes) == DestroyAll(s, AllCalls(s, passes)).(dead := AfterPasses(s, passes).dead)
    decreases |passes|
  {
    hide Sweep, Doomed, Survivors, DestroyAll;
    DestroyAllElsewhere(s, [], s.dead);
    NoCalls(s);
    NothingCalled();
    if passes != [] {
      var u := Sweep(s, 0, passes[0]);
      var first, rest := Doomed(s.dead, passes[0]), AllCalls(u, passes[1..]);
      SweepDestroysExactly(s, 0, passes[0]);
      assert s.dead[0..] == s.dead && s.dead[..0] + Survivors(s.dead, passes[0]) == Survivors(s.dead, passes[0]);
      PassSplits(s.dead, passes[0]);
      DestroyedOnce(u, passes[1..]);
      CalledAppend(first, rest);
      DestroyAllElsewhere(DestroyAll(s, first), rest, u.dead);
      DestroyAllAppend(s, first, rest);
    }
  }

  lemma NoCalls(s: State)
    ensures DestroyAll(s, []) == s
  {
  }

  lemma {:induction false} DestroyAllAppend(s: State, a: seq<Call>, b: seq<Call>)
    ensures DestroyAll(s, a + b) == DestroyAll(DestroyAll(s, a), b)
    decreases |a|
  {
    if a == [] {
      assert a + b == b;
    } else {
      assert (a + b)[1..] == a[1..] + b;
      DestroyAllAppend(Destroy(s, a[0].rec, a[0].reply), a[1..], b);
    }
  }

  lemma {:induction false} DestroyAllTaps(s: State, calls: seq<Call>)
    ensures DestroyAll(s, calls).kernel.taps == s.kernel.taps
    decreases |calls|
  {
    if calls != [] {
      DestroyAllTaps(Destroy(s, calls[0].rec, calls[0].reply), calls[1..]);
    }
  }

  lemma {:induction false} DoomedDead(dead: seq<Rec>, replies: seq<ReapReply>)
    requires |dead| == |replies|
    ensures forall c :: c in Doomed(dead, replies) ==> c.rec in dead && Destroyable(c.rec, c.reply)
  {
    if dead != [] {
      DoomedDead(dead[1..], replies[1..]);
    }
  }

  /** A pass deletes no tap: that of every record it destroys stays in the kernel. */
  lemma TapsOutliveRecords(s: State, replies: seq<ReapReply>)
    requires Inv(s) && |replies| == |s.dead|
    ensures Sweep(s, 0, replies).kernel.taps == s.kernel.taps
    ensures forall c :: c in Doomed(s.dead, replies) && c.rec.made.Some? ==>
                          c.rec.made.value.tid in Sweep(s, 0, replies).kernel.taps
  {
    hide Coherent;
    assert s.dead[0..] == s.dead;
    SweepDestroysExactly(s, 0, replies);
    DestroyAllTaps(s, Doomed(s.dead, replies));
    DoomedDead(s.dead, replies);
    forall c | c in Doomed(s.dead, replies)
      ensures c.rec.made.Some? ==> c.rec.made.value.tid in s.kernel.taps
    {
      assert c.rec in s.dead && c.rec in Records(s);
      RecordSound(Records(s), c.rec, s.kernel, s.leaked);
    }
  }

  // --- The pass as it is written, which never unlinks ---

  function SweepAsWritten(s: State, j: nat, replies: seq<ReapReply>): State
    requires j + |replies| == |s.dead|
    decreases |replies|
  {
    if replies == [] then s
    else SweepAsWritten(if Destroyable(s.dead[j], replies[0]) then Destroy(s, s.dead[j], replies[0])
                        else s, j + 1, replies[1..])
  }

  lemma {:induction false} AsWrittenKeepsDead(s: State, j: nat, replies: seq<ReapReply>)
    requires j + |replies| == |s.dead|
    ensures SweepAsWritten(s, j, replies).dead == s.dead
    decreases |replies|
  {
    if replies != [] {
      AsWrittenKeepsDead(if Destroyable(s.dead[j], replies[0]) then Destroy(s, s.dead[j], replies[0])
                         else s, j + 1, replies[1..]);
    }
  }

  ghost predicate PassesAsWritten(s: State, passes: seq<seq<ReapReply>>, t: State)
    decreases |passes|
  {
    if passes == [] then t == s
    else |passes[0]| == |s.dead| && PassesAsWritten(SweepAsWritten(s, 0, passes[0]), passes[1..], t)
  }

  /** However many passes, the dead list never shrinks, so the reaper never finds it empty. */
  lemma {:induction false} AsWrittenNeverEmpties(s: State, passes: seq<seq<ReapReply>>, t: State)
    requires PassesAsWritten(s, passes, t)
    ensures t.dead == s.dead
    decreases |passes|
  {
    if passes != [] {
      AsWrittenKeepsDead(s, 0, passes[0]);
      AsWrittenNeverEmpties(SweepAsWritten(s, 0, passes[0]), passes[1..], t);
    }
  }

  lemma {:induction false} SweepAsWrittenExactly(s: State, j: nat, replies: seq<ReapReply>)
    requires j + |replies| == |s.dead|
    ensures SweepAsWritten(s, j, replies) == DestroyAll(s, Doomed(s.dead[j..], replies))
    decreases |replies|
  {
    hide Destroy, Destroyable;
    if replies != [] {
      var d := s.dead;
      assert d[j..][1..] == d[j + 1..] && d[j..][0] == d[j];
      var u := if Destroyable(d[j], replies[0]) then Destroy(s, d[j], replies[0]) else s;
      DestroyAllElsewhere(s, [Call(d[j], replies[0])], d);
      SameDead(s, d[j], replies[0]);
      SweepAsWrittenExactly(u, j + 1, replies[1..]);
      if Destroyable(d[j], replies[0]) {
        assert Doomed(d[j..], replies)[1..] == Doomed(d[j + 1..], replies[1..]);
      } else {
        assert [] + Doomed(d[j + 1..], replies[1..]) == Doomed(d[j + 1..], replies[1..]);
      }
    }
  }

  lemma SameDead(s: State, r: Rec, reply: ReapReply)
    ensures Destroy(s, r, reply).dead == s.dead
  {
  }

  /** All calls of reserveRecordDestroy in passes as they are written. */
  ghost function CallsAsWritten(dead: seq<Rec>, passes: seq<seq<ReapReply>>): seq<Call>
    requires forall p :: 0 <= p < |passes| ==> |passes[p]| == |dead|
  {
    if passes == [] then [] else Doomed(dead, passes[0]) + CallsAsWritten(dead, passes[1..])
  }

  /** Those calls are what passes as written do. */
  lemma {:induction false} AsWrittenCalls(s: State, passes: seq<seq<ReapReply>>, t: State)
    requires PassesAsWritten(s, passes, t)
    ensures forall p :: 0 <= p < |passes| ==> |passes[p]| == |s.dead|
    ensures t == DestroyAll(s, CallsAsWritten(s.dead, passes))
    decreases |passes|
  {
    hide SweepAsWritten, Doomed, DestroyAll;
    NoCalls(s);
    if passes != [] {
      var u := SweepAsWritten(s, 0, passes[0]);
      assert s.dead[0..] == s.dead;
      AsWrittenKeepsDead(s, 0, passes[0]);
      SweepAsWrittenExactly(s, 0, passes[0]);
      AsWrittenCalls(u, passes[1..], t);
      DestroyAllAppend(s, Doomed(s.dead, passes[0]), CallsAsWritten(s.dead, passes[1..]));
    }
  }

  lemma {:induction false} DoomedHas(dead: seq<Rec>, replies: seq<ReapReply>, i: nat)
    requires i < |dead| == |replies| && Destroyable(dead[i], replies[i])
    ensures Called(Doomed(dead, replies))[dead[i]] >= 1
  {
    CalledAppend(if Destroyable(dead[0], replies[0]) then [Call(dead[0], replies[0])]
                 else [], Doomed(dead[1..], replies[1..]));
    if i > 0 {
      DoomedHas(dead[1..], replies[1..], i - 1);
    }
  }

  /**
   Without the unlinking, a record is destroyed anew by every pass whose replies
   let it go: by every pass at all when it has no reserve.
   */
  lemma {:induction false} AsWrittenDestroysAgain(s: State, passes: seq<seq<ReapReply>>, t: State, i: nat)
    requires PassesAsWritten(s, passes, t) && i < |s.dead|
    requires forall p :: 0 <= p < |passes| ==> |passes[p]| == |s.dead|
    requires s.dead[i].made.None? || forall p :: 0 <= p < |passes| ==> Destroyable(s.dead[i], passes[p][i])
    ensures Called(CallsAsWritten(s.dead, passes))[s.dead[i]] >= |passes|
    decreases |passes|
  {
    hide SweepAsWritten, Doomed;
    if passes != [] {
      AsWrittenKeepsDead(s, 0, passes[0]);
      DoomedHas(s.dead, passes[0], i);
      AsWrittenDestroysAgain(SweepAsWritten(s, 0, passes[0]), passes[1..], t, i);
      CalledAppend(Doomed(s.dead, passes[0]), CallsAsWritten(s.dead, passes[1..]));
    }
  }

  /** How many of the passes let record `i` go. */
  ghost function TimesLetGo(dead: seq<Rec>, passes: seq<seq<ReapReply>>, i: nat): nat
    requires i < |dead| && forall p :: 0 <= p < |passes| ==> |passes[p]| == |dead|
  {
    if passes == [] then 0
    else (if Destroyable(dead[i], passes[0][i]) then 1 else 0) + TimesLetGo(dead, passes[1..], i)
  }

  lemma {:induction false} DoomedLacks(dead: seq<Rec>, replies: seq<ReapReply>, r: Rec)
    requires |dead| == |replies| && r !in dead
    ensures Called(Doomed(dead, replies))[r] == 0
  {
    hide Destroyable;
    if dead != [] {
      DoomedLacks(dead[1..], replies[1..], r);
      CallOf(dead[0], replies[0]);
      CalledAppend(if Destroyable(dead[0], replies[0]) then [Call(dead[0], replies[0])] else [],
                   Doomed(dead[1..], replies[1..]));
    }
  }

  /** A pass calls for a record that occurs once exactly when it lets it go. */
  lemma {:induction false} DoomedOnce(dead: seq<Rec>, replies: seq<ReapReply>, i: nat)
    requires i < |dead| == |replies| && forall k :: 0 <= k < |dead| && k != i ==> dead[k] != dead[i]
    ensures Called(Doomed(dead, replies))[dead[i]] == if Destroyable(dead[i], replies[i]) then 1 else 0
  {
    hide Destroyable;
    CallOf(dead[0], replies[0]);
    CalledAppend(if Destroyable(dead[0], replies[0]) then [Call(dead[0], replies[0])] else [],
                 Doomed(dead[1..], replies[1..]));
    if i > 0 {
      assert forall k :: 0 <= k < |dead| - 1 && k != i - 1 ==> dead[1..][k] == dead[k + 1] != dead[i];
      DoomedOnce(dead[1..], replies[1..], i - 1);
    } else {
      assert dead[0] !in dead[1..];
      DoomedLacks(dead[1..], replies[1..], dead[0]);
    }
  }

  /** Without the unlinking, a record is destroyed by exactly as many calls as passes let it go. */
  lemma {:induction false} AsWrittenExactly(dead: seq<Rec>, passes: seq<seq<ReapReply>>, i: nat)
    requires i < |dead| && forall p :: 0 <= p < |passes| ==> |passes[p]| == |dead|
    requires forall k :: 0 <= k < |dead| && k != i ==> dead[k] != dead[i]
    ensures Called(CallsAsWritten(dead, passes))[dead[i]] == TimesLetGo(dead, passes, i)
    decreases |passes|
  {
    hide Doomed, Destroyable;
    if passes != [] {
      DoomedOnce(dead, passes[0], i);
      AsWrittenExactly(dead, passes[1..], i);
      CalledAppend(Doomed(dead, passes[0]), CallsAsWritten(dead, passes[1..]));
    }
  }

  lemma {:induction false} TimesLetGoBounds(dead: seq<Rec>, passes: seq<seq<ReapReply>>, i: nat)
    requires i < |dead| && forall p :: 0 <= p < |passes| ==> |passes[p]| == |dead|
    ensures TimesLetGo(dead, passes, i) == 0 <==> forall p :: 0 <= p < |passes| ==> !Destroyable(dead[i], passes[p][i])
    ensures TimesLetGo(dead, passes, i) <= 1 <==>
            forall p, q :: 0 <= p < q < |passes| ==>
              !Destroyable(dead[i], passes[p][i]) || !Destroyable(dead[i], passes[q][i])
    decreases |passes|
  {
    hide Destroyable;
    if passes != [] {
      var rest := passes[1..];
      TimesLetGoBounds(dead, rest, i);
      assert forall p :: 0 <= p < |rest| ==> rest[p] == passes[p + 1];
      assert forall p :: 0 < p < |passes| ==> passes[p] == rest[p - 1];
    }
  }

  /** So it is destroyed at most once exactly when no two passes let it go. */
  lemma AsWrittenAtMostOnce(dead: seq<Rec>, passes: seq<seq<ReapReply>>, i: nat)
    requires i < |dead| && forall p :: 0 <= p < |passes| ==> |passes[p]| == |dead|
    requires forall k :: 0 <= k < |dead| && k != i ==> dead[k] != dead[i]
    ensures Called(CallsAsWritten(dead, passes))[dead[i]] <= 1 <==>
            forall p, q :: 0 <= p < q < |passes| ==>
              !Destroyable(dead[i], passes[p][i]) || !Destroyable(dead[i], passes[q][i])
  {
    hide Called, CallsAsWritten, TimesLetGo, Destroyable;
    AsWrittenExactly(dead, passes, i);
    TimesLetGoBounds(dead, passes, i);
  }

  // --- What a pass returns ---

  /** Record `i` is the last of the list whose users the pass counts. */
  predicate LastMade(dead: seq<Rec>, i: nat) {
    i < |dead| && dead[i].made.Some? && forall k :: i < k < |dead| ==> dead[k].made.None?
  }

  /** The error of a pass is that of its last count, or what it was before when there is none. */
  lemma {:induction false} ErrorExactly(dead: seq<Rec>, replies: seq<ReapReply>, err: int)
    requires |dead| == |replies|
    ensures forall i: nat :: LastMade(dead, i) ==> SweepError(dead, replies, err) == replies[i].err
    ensures (forall i :: 0 <= i < |dead| ==> dead[i].made.None?) ==> SweepError(dead, replies, err) == err
  {
    if dead != [] {
      ErrorExactly(dead[1..], replies[1..], if dead[0].made.Some? then replies[0].err else err);
      forall i: nat | LastMade(dead, i)
        ensures SweepError(dead, replies, err) == replies[i].err
      {
        if i > 0 {
          assert LastMade(dead[1..], i - 1);
        } else {
          assert forall k :: 0 <= k < |dead[1..]| ==> dead[1..][k] == dead[k + 1];
        }
      }
    }
  }

  /** The pass reports an error exactly when the last count of users failed. */
  lemma PassFails(dead: seq<Rec>, replies: seq<ReapReply>)
    requires |dead| == |replies|
    ensures SweepError(dead, replies, 0) != 0 <==> exists i: nat :: LastMade(dead, i) && replies[i].err != 0
  {
    ErrorExactly(dead, replies, 0);
    LastMadeExists(dead);
  }

  lemma {:induction false} LastMadeExists(dead: seq<Rec>)
    ensures (exists i: nat :: LastMade(dead, i)) || forall i :: 0 <= i < |dead| ==> dead[i].made.None?
  {
    if dead != [] {
      LastMadeExists(dead[1..]);
      if i: nat :| LastMade(dead[1..], i) {
        assert forall k :: i < k < |dead[1..]| ==> dead[1..][k] == dead[k + 1];
        assert LastMade(dead, i + 1);
      } else {
        assert forall k :: 0 <= k < |dead[1..]| ==> dead[1..][k] == dead[k + 1];
        assert dead[0].made.Some? ==> LastMade(dead, 0);
      }
    }
  }

  /** A failed count that the pass forgets: a later one goes well. */
  lemma EarlierErrorLost(a: Rec, b: Rec, err: int)
    requires a.made.Some? && b.made.Some? && err != 0
    ensures SweepError([a, b], [ReapReply(err, 0, 0), ReapReply(0, 2, 0)], 0) == 0
    ensures Survivors([a, b], [ReapReply(err, 0, 0), ReapReply(0, 2, 0)]) == [a, b]
  {
    var replies := [ReapReply(err, 0, 0), ReapReply(0, 2, 0)];
    ErrorExactly([a, b], replies, 0);
    assert LastMade([a, b], 1);
    assert [a, b][1..] == [b] && replies[1..] == [replies[1]];
    assert Survivors([b], [replies[1]]) == [b];
  }
}
