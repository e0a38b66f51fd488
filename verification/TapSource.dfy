/** What feeds a granted reserve, and who may draw from it. */
module TapSource {
  import opened Options
  import opened ArbiterSpec
  import opened ArbiterInvariant
  import opened ArbiterRuns
  import opened ReaperPass
  import opened Interference

  // --- One stat request ---

  /** A creation that goes through leaves a tap from the root reserve into the new one, and nothing else changed. */
  lemma MadeTap(s: State, k: nat, r: StatReplies)
    requires k < |s.active| && r.create >= 0 && r.tap >= 0 && r.rate == 0
    ensures var a := s.active[k];
            Make(s, k, r) == (s.(kernel := Kernel(s.kernel.reserves[r.create := {Arbiter}],
                                                  s.kernel.taps[r.tap := Tap(r.root, r.create, ToLong(a.tapType),
                                                                             ToLong(a.tapValue))]),
                                 active := s.active[k := a.(made := Some(Ids(r.create, r.tap)))]), 0)
  {
    hide ToLong;
    var a := s.active[k];
    var taps := s.kernel.taps;
    var made := Tap(r.root, r.create, ToLong(a.tapType), ToLong(a.tapValue));
    assert taps[r.tap := Tap(r.root, r.create, 0, 0)][r.tap := made] == taps[r.tap := made];
  }

  /** A granted stat adds the asking process to the users of the granted reserve, and to those of no other. */
  lemma GrantedUsers(s: State, uid: nat, pid: int, r: StatReplies)
    requires Inv(s) && FreshIds(s.kernel, r) && Stat(s, uid, pid, r).1.flags == 1
    ensures var (t, out) := Stat(s, uid, pid, r);
            var before := if Makes(s, uid, r) then s.kernel.reserves[r.create := {Arbiter}] else s.kernel.reserves;
            && out.rid in before
            && t.kernel.reserves == before[out.rid := before[out.rid] + {Process(pid)}]
            && (Makes(s, uid, r) ==> out.rid == r.create)
  {
    hide Coherent, UniqueUids, ToLong;
    var k := Find(s.active, uid);
    var a := s.active[k];
    if a.made.None? {
      MadeTap(s, k, r);
    } else {
      assert a in s.active && a in Records(s);
      RecordSound(Records(s), a, s.kernel, s.leaked);
    }
  }

  // --- Whole runs ---

  /** The stat that made a record's reserve and tap: whose record, and what the kernel replied. */
  datatype Maker = Maker(uid: nat, replies: StatReplies)

  /** Each made record has the tap and the reserve of the stat that made it, fed from the root reserve named then. */
  ghost predicate Fed(m: multiset<Rec>, k: Kernel, makers: map<int, Maker>) {
    forall a :: a in m && a.made.Some? ==> FedRecord(a, k, makers)
  }

  ghost predicate FedRecord(a: Rec, k: Kernel, makers: map<int, Maker>)
    requires a.made.Some?
  {
    var tid := a.made.value.tid;
    && tid in k.taps && tid in makers
    && makers[tid].uid == a.uid && makers[tid].replies.create == a.made.value.rid
    && k.taps[tid].src == makers[tid].replies.root
  }

  /** Taps go on drawing from where they did. */
  ghost predicate SameSources(m: multiset<Rec>, k: Kernel, k': Kernel) {
    forall a :: a in m && a.made.Some? && a.made.value.tid in k.taps ==>
      a.made.value.tid in k'.taps && k'.taps[a.made.value.tid].src == k.taps[a.made.value.tid].src
  }

  /** The record is in `m`, perhaps with other parameters. */
  ghost predicate Known(m: multiset<Rec>, b: Rec) {
    exists a :: a in m && a.made == b.made && a.uid == b.uid
  }

  lemma FedFrame(m: multiset<Rec>, n: multiset<Rec>, k: Kernel, k': Kernel, makers: map<int, Maker>)
    requires Fed(m, k, makers) && SameSources(m, k, k')
    requires forall b :: b in n && b.made.Some? ==> Known(m, b)
    ensures Fed(n, k', makers)
  {
    forall b | b in n && b.made.Some?
      ensures FedRecord(b, k', makers)
    {
      var a :| a in m && a.made == b.made && a.uid == b.uid;
      assert FedRecord(a, k, makers);
    }
  }

  lemma ReplacedKnown(m: multiset<Rec>, a: Rec, b: Rec)
    requires a in m && a.made == b.made && a.uid == b.uid
    ensures forall x :: x in m - multiset{a} + multiset{b} ==> Known(m, x)
  {
  }

  /** A stat that makes something is noted under its tap. */
  ghost function Note(s: State, uid: nat, r: StatReplies, makers: map<int, Maker>): map<int, Maker> {
    if Makes(s, uid, r) then makers[r.tap := Maker(uid, r)] else makers
  }

  ghost function NoteEvent(s: State, e: Event, makers: map<int, Maker>): map<int, Maker> {
    if e.StatReq? then Note(s, e.uid, e.replies, makers) else makers
  }

  /** The stats that made something in a run. */
  ghost function Makers(s: State, es: seq<Event>, t: State, makers: map<int, Maker>): map<int, Maker>
    requires Runs(s, es, t)
    decreases |es|
  {
    if es == [] then makers else Makers(Step(s, es[0]), es[1..], t, NoteEvent(s, es[0], makers))
  }

  /** No record has that tap. */
  ghost predicate NotYet(m: multiset<Rec>, tid: int) {
    forall a :: a in m && a.made.Some? ==> a.made.value.tid != tid
  }

  /** Record `a` gets its tap. */
  lemma FedMade(m: multiset<Rec>, a: Rec, k: Kernel, k': Kernel, makers: map<int, Maker>, r: StatReplies)
    requires Fed(m, k, makers) && SameSources(m, k, k') && NotYet(m, r.tap)
    requires r.tap in k'.taps && k'.taps[r.tap].src == r.root
    ensures var b := a.(made := Some(Ids(r.create, r.tap)));
            Fed(m - multiset{a} + multiset{b}, k', makers[r.tap := Maker(a.uid, r)])
  {
    var b := a.(made := Some(Ids(r.create, r.tap)));
    var n := m - multiset{a} + multiset{b};
    forall x | x in n && x.made.Some?
      ensures FedRecord(x, k', makers[r.tap := Maker(a.uid, r)])
    {
      if x != b {
        assert x in m && FedRecord(x, k, makers);
      }
    }
  }

  lemma MadeSources(m: multiset<Rec>, k: Kernel, k': Kernel, tid: int, makers: map<int, Maker>)
    requires Fed(m, k, makers) && tid !in k.taps && tid in k'.taps && k'.taps == k.taps[tid := k'.taps[tid]]
    ensures SameSources(m, k, k') && NotYet(m, tid)
  {
  }

  lemma FailedMakeFeeds(s: State, k: nat, r: StatReplies, makers: map<int, Maker>)
    requires Fed(Records(s), s.kernel, makers) && k < |s.active| && FreshIds(s.kernel, r) && Make(s, k, r).1 != 0
    ensures var t := Make(s, k, r).0; Fed(Records(t), t.kernel, makers)
  {
    hide Fed, SetRate;
    var t := Make(s, k, r).0;
    assert t.active == s.active && t.dead == s.dead;
    assert forall tid :: tid in s.kernel.taps ==> tid in t.kernel.taps && t.kernel.taps[tid] == s.kernel.taps[tid];
    FedFrame(Records(s), Records(t), s.kernel, t.kernel, makers);
  }

  lemma MakeFeeds(s: State, k: nat, r: StatReplies, makers: map<int, Maker>)
    requires Fed(Records(s), s.kernel, makers) && k < |s.active| && s.active[k].made.None? && FreshIds(s.kernel, r)
    ensures var (t, err) := Make(s, k, r);
            Fed(Records(t), t.kernel, if err == 0 then makers[r.tap := Maker(s.active[k].uid, r)] else makers)
  {
    hide Fed, Records, Known, Make;
    var (t, err) := Make(s, k, r);
    if err == 0 {
      MadeTap(s, k, r);
      ReplaceActive(s, k, s.active[k].(made := Some(Ids(r.create, r.tap))));
      SameRecords(t, s.(active := t.active));
      MadeSources(Records(s), s.kernel, t.kernel, r.tap, makers);
      FedMade(Records(s), s.active[k], s.kernel, t.kernel, makers, r);
    } else {
      FailedMakeFeeds(s, k, r, makers);
    }
  }

  lemma StatFeeds(s: State, uid: nat, pid: int, r: StatReplies, makers: map<int, Maker>)
    requires Fed(Records(s), s.kernel, makers) && FreshIds(s.kernel, r)
    ensures var t := Stat(s, uid, pid, r).0; Fed(Records(t), t.kernel, Note(s, uid, r, makers))
  {
    hide Fed, Make, Expose, Records;
    var k := Find(s.active, uid);
    if r.rootErr == 0 && k >= 0 {
      if s.active[k].made.None? {
        MakeFeeds(s, k, r, makers);
      }
      var (s1, err) := if s.active[k].made.Some? then (s, 0) else Make(s, k, r);
      if err == 0 {
        ExposeFeeds(s1, pid, s1.active[k].made.value.rid, Note(s, uid, r, makers));
      }
    }
  }

  lemma ExposeFeeds(s: State, pid: int, rid: int, makers: map<int, Maker>)
    requires Fed(Records(s), s.kernel, makers)
    ensures var t := s.(kernel := Expose(s.kernel, pid, rid, 0)); Fed(Records(t), t.kernel, makers)
  {
    FedFrame(Records(s), Records(s), s.kernel, Expose(s.kernel, pid, rid, 0), makers);
  }

  lemma WorldFeeds(m: multiset<Rec>, k: Kernel, k': Kernel, leaked: set<int>, makers: map<int, Maker>)
    requires Coherent(m, k, leaked) && Environment(k, k') && Fed(m, k, makers)
    ensures Fed(m, k', makers) && SameSources(m, k, k')
  {
    hide Coherent;
    forall a | a in m && a.made.Some?
      ensures a.made.value.tid in k'.taps && k'.taps[a.made.value.tid] == k.taps[a.made.value.tid]
    {
      assert FedRecord(a, k, makers);
      RecordSound(m, a, k, leaked);
    }
    FedFrame(m, m, k, k', makers);
  }

  lemma SetFeeds(s: State, uid: nat, t: int, v: int, reply: int, makers: map<int, Maker>)
    requires Fed(Records(s), s.kernel, makers)
    ensures var u := SetParams(s, uid, t, v, reply).0; Fed(Records(u), u.kernel, makers)
  {
    hide Fed, ParamsOk, ToLong, Records, Known;
    var u := SetParams(s, uid, t, v, reply).0;
    var k := Find(s.active, uid);
    if u != s {
      var a := s.active[k];
      assert a in s.active;
      InRecords(s, a);
      ReplaceActive(s, k, a.(tapType := t, tapValue := v));
      SameRecords(u, s.(active := u.active));
      ReplacedKnown(Records(s), a, a.(tapType := t, tapValue := v));
      FedFrame(Records(s), Records(u), s.kernel, u.kernel, makers);
    }
  }

  lemma SameRecords(s: State, t: State)
    requires s.active == t.active && s.dead == t.dead
    ensures Records(s) == Records(t)
  {
  }

  lemma InRecords(s: State, a: Rec)
    ensures a in Records(s) <==> a in s.active || a in s.dead
  {
  }

  lemma SweepFeeds(s: State, replies: seq<ReapReply>, makers: map<int, Maker>)
    requires Inv(s) && Fed(Records(s), s.kernel, makers) && |replies| == |s.dead|
    ensures var t := Sweep(s, 0, replies); Fed(Records(t), t.kernel, makers)
  {
    hide Fed, Inv;
    var t := Sweep(s, 0, replies);
    TapsOutliveRecords(s, replies);
    SweepKeeps(s, 0, replies);
    SweepDead(s, 0, replies);
    assert s.dead[0..] == s.dead && s.dead[..0] + Survivors(s.dead, replies) == Survivors(s.dead, replies);
    PassSplits(s.dead, replies);
    assert forall b :: b in Records(t) ==> b in Records(s);
    FedFrame(Records(s), Records(t), s.kernel, t.kernel, makers);
  }

  lemma StepFeeds(s: State, e: Event, makers: map<int, Maker>)
    requires Inv(s) && Enabled(s, e) && Fed(Records(s), s.kernel, makers)
    ensures var t := Step(s, e); Fed(Records(t), t.kernel, NoteEvent(s, e, makers))
  {
    hide Fed, Coherent, UniqueUids, SetParams, Stat, Sweep, Environment, FreshIds, Note;
    var t := Step(s, e);
    match e
    case Add(_, _, _) => FedFrame(Records(s), Records(t), s.kernel, t.kernel, makers);
    case Remove(uid) => RemoveKeeps(s, uid);
    case Set(uid, tt, v, reply) => SetFeeds(s, uid, tt, v, reply, makers);
    case StatReq(uid, pid, r) => StatFeeds(s, uid, pid, r, makers);
    case Reap(rs) => SweepFeeds(s, rs, makers);
    case EmptyAll => EmptyKeeps(s);
    case World(k) => WorldFeeds(Records(s), s.kernel, k, s.leaked, makers);
  }

  lemma {:induction false} RunFeeds(s: State, es: seq<Event>, t: State, makers: map<int, Maker>)
    requires Inv(s) && Runs(s, es, t) && Fed(Records(s), s.kernel, makers)
    ensures Fed(Records(t), t.kernel, Makers(s, es, t, makers))
    decreases |es|
  {
    hide Inv, Fed, Step, Enabled, NoteEvent;
    if es != [] {
      StepKeeps(s, es[0]);
      StepFeeds(s, es[0], makers);
      RunFeeds(Step(s, es[0]), es[1..], t, NoteEvent(s, es[0], makers));
    }
  }

  /**
   After any run, a made record has the reserve and the tap of the stat that made
   it, and the tap draws from the root reserve that the kernel named in that stat.
   */
  lemma TapDrawsFromRoot(s: State, es: seq<Event>, t: State, a: Rec)
    requires Initial(s) && Runs(s, es, t) && a in Records(t) && a.made.Some?
    ensures var made := Makers(s, es, t, map[]); var tid := a.made.value.tid;
            && tid in made && made[tid].uid == a.uid && made[tid].replies.create == a.made.value.rid
            && tid in t.kernel.taps && t.kernel.taps[tid].src == made[tid].replies.root
            && t.kernel.taps[tid].dst == made[tid].replies.create
  {
    hide Makers, Runs;
    InitialInv(s);
    RunFeeds(s, es, t, map[]);
    TapCoherence(s, es, t, a);
  }

  // --- With the rest of the system moving between the calls ---

  /** A creation that goes through leaves the kernel as its last call found it, but for the tap. */
  lemma MadeTapAmid(s: State, k: nat, r: StatReplies, w: StatMoves)
    requires k < |s.active| && MakeMet(s.kernel, r, w) && r.create >= 0 && r.tap >= 0 && r.rate == 0
    ensures var (t, err) := MakeAmid(s, k, r, w); var a := s.active[k];
            && err == 0 && t.active == s.active[k := a.(made := Some(Ids(r.create, r.tap)))] && t.dead == s.dead
            && t.kernel.reserves == w.rate.reserves
            && r.create in t.kernel.reserves && t.kernel.reserves[r.create] == {Arbiter}
            && t.kernel.taps ==
               w.rate.taps[r.tap := Tap(r.root, r.create, ToLong(a.tapType), ToLong(a.tapValue))]
  {
    hide ToLong;
    assert r.create in w.tap.reserves && w.tap.reserves[r.create] == {Arbiter};
    var k2 := CreateTap(w.tap, r.root, r.create, r.tap);
    assert r.create in Held(k2) && k2.taps[r.tap] == Tap(r.root, r.create, 0, 0);
    assert r.tap in w.rate.taps && w.rate.taps[r.tap] == k2.taps[r.tap];
  }

  /**
   A granted stat leaves the kernel as its last call found it, but for the asking process among the users of
   the granted reserve. The arbiter is one of them too.
   */
  lemma GrantedUsersAmid(s: State, uid: nat, pid: int, r: StatReplies, w: StatMoves)
    requires Inv(s) && StatMet(s, uid, r, w) && StatAmid(s, uid, pid, r, w).1.flags == 1
    ensures var (t, out) := StatAmid(s, uid, pid, r, w); var k := Find(s.active, uid);
            && k >= 0 && t.active[k].made.Some? && t.active[k].made.value.rid == out.rid && out.err == 0
            && out.rid in w.expose.reserves && t.kernel.taps == w.expose.taps
            && t.kernel.reserves == w.expose.reserves[out.rid := w.expose.reserves[out.rid] + {Process(pid)}]
            && {Process(pid), Arbiter} <= t.kernel.reserves[out.rid]
  {
    hide Coherent, MakeAmid, MakeMet, Environment, UniqueUids, Records;
    var k := Find(s.active, uid);
    if s.active[k].made.None? {
      MakeAmidKeeps(s, k, r, w);
    }
    var s1 := if s.active[k].made.Some? then s else MakeAmid(s, k, r, w).0;
    WorldKeeps(s1, w.expose);
    var a := s1.active[k];
    assert a in s1.active;
    InRecords(s1, a);
    SameRecords(s1, Meet(s1, w.expose));
    RecordSound(Records(s1), a, w.expose, s1.leaked);
  }

  lemma TapsFeed(m: multiset<Rec>, k: Kernel, k': Kernel, makers: map<int, Maker>)
    requires Fed(m, k, makers) && forall tid :: tid in k.taps ==> tid in k'.taps && k'.taps[tid].src == k.taps[tid].src
    ensures Fed(m, k', makers)
  {
    FedFrame(m, m, k, k', makers);
  }

  lemma UntappedFeeds(m: multiset<Rec>, k: Kernel, tid: int, reply: int, makers: map<int, Maker>)
    requires Fed(m, k, makers) && NotYet(m, tid)
    ensures Fed(m, DeleteTap(k, tid, reply), makers)
  {
    FedFrame(m, m, k, DeleteTap(k, tid, reply), makers);
  }

  lemma GivenUpFeeds(m: multiset<Rec>, s: State, rid: int, reply: int, makers: map<int, Maker>)
    requires Fed(m, s.kernel, makers)
    ensures Fed(m, GiveUp(s, rid, reply).kernel, makers)
  {
    TapsFeed(m, s.kernel, GiveUp(s, rid, reply).kernel, makers);
  }

  lemma PendingFeeds(m: multiset<Rec>, k: Kernel, k': Kernel, leaked: set<int>, rid: int, tap: Option<int>,
                     makers: map<int, Maker>)
    requires Pending(m, k, leaked, rid, tap) && Environment(k, k') && Fed(m, k, makers)
    ensures Pending(m, k', leaked, rid, tap) && Fed(m, k', makers)
    ensures forall tid :: tap == Some(tid) ==> NotYet(m, tid)
  {
    hide Coherent, Environment;
    WorldPending(m, k, k', leaked, rid, tap);
    WorldFeeds(m, k, k', leaked + {rid}, makers);
  }

  lemma MakeAmidFeeds(s: State, k: nat, r: StatReplies, w: StatMoves, makers: map<int, Maker>)
    requires Inv(s) && Fed(Records(s), s.kernel, makers)
    requires k < |s.active| && s.active[k].made.None? && MakeMet(s.kernel, r, w)
    ensures var (t, err) := MakeAmid(s, k, r, w);
            Fed(Records(t), t.kernel, if err == 0 then makers[r.tap := Maker(s.active[k].uid, r)] else makers)
  {
    hide Coherent, Environment, Pending, GiveUp, Fed, Records, NotYet;
    var m, l := Records(s), s.leaked;
    var (t, err) := MakeAmid(s, k, r, w);
    WorldFeeds(m, s.kernel, w.create, l, makers);
    WorldCoherent(m, s.kernel, w.create, l);
    if r.create < 0 {
      SameRecords(s, t);
    } else {
      var k1 := CreateReserve(w.create, r.create);
      CreatedPending(m, w.create, l, r.create);
      TapsFeed(m, w.create, k1, makers);
      PendingFeeds(m, k1, w.tap, l, r.create, None, makers);
      if r.tap < 0 {
        PendingFeeds(m, w.tap, w.put, l, r.create, None, makers);
        GivenUpFeeds(m, Meet(s, w.put), r.create, r.put, makers);
        GiveUpRecords(Meet(s, w.put), r.create, r.put);
        SameRecords(s, t);
      } else {
        TapAmidFeeds(s, k, r, w, makers);
      }
    }
  }

  lemma GiveUpRecords(s: State, rid: int, reply: int)
    ensures GiveUp(s, rid, reply).active == s.active && GiveUp(s, rid, reply).dead == s.dead
  {
  }

  /** From the creation of the tap on. */
  lemma TapAmidFeeds(s: State, k: nat, r: StatReplies, w: StatMoves, makers: map<int, Maker>)
    requires Fed(Records(s), w.tap, makers) && Pending(Records(s), w.tap, s.leaked, r.create, None)
    requires k < |s.active| && s.active[k].made.None? && MakeMet(s.kernel, r, w) && r.create >= 0 && r.tap >= 0
    ensures var (t, err) := MakeAmid(s, k, r, w);
            Fed(Records(t), t.kernel, if err == 0 then makers[r.tap := Maker(s.active[k].uid, r)] else makers)
  {
    hide Environment, Pending, GiveUp, Fed, Records, NotYet, Known;
    var m, l := Records(s), s.leaked;
    var (t, err) := MakeAmid(s, k, r, w);
    var k2 := CreateTap(w.tap, r.root, r.create, r.tap);
    TappedPending(m, w.tap, l, r.create, r.root, r.tap);
    TapsFeed(m, w.tap, k2, makers);
    PendingFeeds(m, k2, w.rate, l, r.create, Some(r.tap), makers);
    if r.rate != 0 {
      PendingFeeds(m, w.rate, w.delete, l, r.create, Some(r.tap), makers);
      UntappedPending(m, w.delete, l, r.create, r.tap, r.deleteTap);
      UntappedFeeds(m, w.delete, r.tap, r.deleteTap, makers);
      PendingFeeds(m, DeleteTap(w.delete, r.tap, r.deleteTap), w.put, l, r.create, None, makers);
      GivenUpFeeds(m, Meet(s, w.put), r.create, r.put, makers);
      GiveUpRecords(Meet(s, w.put), r.create, r.put);
      SameRecords(s, t);
    } else {
      MadeTapAmid(s, k, r, w);
      NotYetSources(m, w.rate, t.kernel, r.tap);
      FedMade(m, s.active[k], w.rate, t.kernel, makers, r);
      ReplaceActive(s, k, s.active[k].(made := Some(Ids(r.create, r.tap))));
      SameRecords(t, s.(active := t.active));
    }
  }

  lemma NotYetSources(m: multiset<Rec>, k: Kernel, k': Kernel, tid: int)
    requires NotYet(m, tid) && tid in k'.taps && k'.taps == k.taps[tid := k'.taps[tid]]
    ensures SameSources(m, k, k')
  {
  }

  lemma StatAmidFeeds(s: State, uid: nat, pid: int, r: StatReplies, w: StatMoves, makers: map<int, Maker>)
    requires Inv(s) && Fed(Records(s), s.kernel, makers) && StatMet(s, uid, r, w)
    ensures var t := StatAmid(s, uid, pid, r, w).0; Fed(Records(t), t.kernel, Note(s, uid, r, makers))
  {
    hide Inv, Fed, MakeAmid, MakeMet, Environment, Expose, Records;
    var k := Find(s.active, uid);
    if r.rootErr == 0 && k >= 0 {
      if s.active[k].made.None? {
        MakeAmidFeeds(s, k, r, w, makers);
        MakeAmidKeeps(s, k, r, w);
      }
      var (s1, err) := if s.active[k].made.Some? then (s, 0) else MakeAmid(s, k, r, w);
      if err == 0 {
        MeetFeeds(s1, w.expose, Note(s, uid, r, makers));
        ExposeFeeds(Meet(s1, w.expose), pid, s1.active[k].made.value.rid, Note(s, uid, r, makers));
      }
    }
  }

  lemma MeetFeeds(s: State, k: Kernel, makers: map<int, Maker>)
    requires Inv(s) && Fed(Records(s), s.kernel, makers) && Environment(s.kernel, k)
    ensures var t := Meet(s, k); Inv(t) && Fed(Records(t), t.kernel, makers)
  {
    hide Fed, Coherent, Environment;
    WorldKeeps(s, k);
    WorldFeeds(Records(s), s.kernel, k, s.leaked, makers);
  }

  lemma DropRecords(s: State, j: nat, t: State)
    requires j < |s.dead| && t.active == s.active && t.dead == s.dead[..j] + s.dead[j + 1..]
    ensures forall b :: b in Records(t) ==> b in Records(s)
  {
    SplitAt(s.dead, j);
  }

  lemma DropFeeds(s: State, j: nat, reply: ReapReply, makers: map<int, Maker>)
    requires Fed(Records(s), s.kernel, makers) && j < |s.dead|
    ensures var t := Destroy(s, s.dead[j], reply).(dead := s.dead[..j] + s.dead[j + 1..]);
            Fed(Records(t), t.kernel, makers)
  {
    hide Fed, Records;
    var t := Destroy(s, s.dead[j], reply).(dead := s.dead[..j] + s.dead[j + 1..]);
    DropRecords(s, j, t);
    FedFrame(Records(s), Records(t), s.kernel, t.kernel, makers);
  }

  lemma TurnFeeds(s: State, j: nat, reply: ReapReply, w: ReapMoves, makers: map<int, Maker>)
    requires Inv(s) && Fed(Records(s), s.kernel, makers) && j < |s.dead| && TurnMet(s, j, reply, w)
    ensures var t := TurnAmid(s, j, reply, w); Fed(Records(t), t.kernel, makers)
  {
    hide Inv, Fed, Environment, Destroyable, Destroy;
    MeetFeeds(s, w.count, makers);
    if Destroyable(s.dead[j], reply) {
      MeetFeeds(Meet(s, w.count), w.put, makers);
      DropFeeds(Meet(s, w.put), j, reply, makers);
    }
  }

  lemma {:induction false} SweepAmidFeeds(s: State, j: nat, replies: seq<ReapReply>, ws: seq<ReapMoves>,
                                          makers: map<int, Maker>)
    requires Inv(s) && Fed(Records(s), s.kernel, makers)
    requires j + |replies| == |s.dead| && |ws| == |replies| && SweepMet(s, j, replies, ws)
    ensures var t := SweepAmid(s, j, replies, ws); Fed(Records(t), t.kernel, makers)
    decreases |replies|
  {
    hide Inv, Fed, TurnMet, Destroy, Destroyable, Records;
    if replies != [] {
      TurnFeeds(s, j, replies[0], ws[0], makers);
      TurnKeeps(s, j, replies[0], ws[0]);
      SweepAmidFeeds(TurnAmid(s, j, replies[0], ws[0]), Ahead(s, j, replies[0]), replies[1..], ws[1..], makers);
    }
  }

  ghost function NoteHappening(s: State, h: Happening, makers: map<int, Maker>): map<int, Maker> {
    match h
    case Quiet(e) => NoteEvent(s, e, makers)
    case Statting(uid, _, r, _) => Note(s, uid, r, makers)
    case _ => makers
  }

  /** The stats that made something, in a run whose calls the rest of the system may come between. */
  ghost function MakersAmid(s: State, hs: seq<Happening>): map<int, Maker>
    requires Lead(s, hs).Some?
  {
    if hs == [] then map[]
    else NoteHappening(Lead(s, hs[..|hs| - 1]).value, hs[|hs| - 1], MakersAmid(s, hs[..|hs| - 1]))
  }

  lemma NextFeeds(s: State, h: Happening, makers: map<int, Maker>)
    requires Inv(s) && Possible(s, h) && Fed(Records(s), s.kernel, makers)
    ensures var t := Next(s, h); Fed(Records(t), t.kernel, NoteHappening(s, h, makers))
  {
    hide Inv, Fed, Enabled, Step, StatMet, StatAmid, SweepMet, SweepAmid, Records, Note, NoteEvent;
    match h
    case Quiet(e) => StepFeeds(s, e, makers);
    case Look(_) =>
    case Statting(uid, pid, r, w) => StatAmidFeeds(s, uid, pid, r, w, makers);
    case Reaping(rs, ws) => SweepAmidFeeds(s, 0, rs, ws, makers);
  }

  lemma {:induction false} LeadFeeds(s: State, hs: seq<Happening>)
    requires Inv(s) && Fed(Records(s), s.kernel, map[]) && Lead(s, hs).Some?
    ensures var t := Lead(s, hs).value; Fed(Records(t), t.kernel, MakersAmid(s, hs))
  {
    hide Inv, Fed, Possible, Next, Records, NoteHappening;
    if hs != [] {
      LeadFeeds(s, hs[..|hs| - 1]);
      EveryLeadInv(s, hs[..|hs| - 1]);
      NextFeeds(Lead(s, hs[..|hs| - 1]).value, hs[|hs| - 1], MakersAmid(s, hs[..|hs| - 1]));
    }
  }

  /** So also in every run with the rest of the system moving before any call. */
  lemma TapDrawsFromRootAmid(s: State, hs: seq<Happening>, a: Rec)
    requires Initial(s) && Lead(s, hs).Some? && a in Records(Lead(s, hs).value) && a.made.Some?
    ensures var k, made := Lead(s, hs).value.kernel, MakersAmid(s, hs); var tid := a.made.value.tid;
            && tid in made && made[tid].uid == a.uid && made[tid].replies.create == a.made.value.rid
            && tid in k.taps && k.taps[tid].src == made[tid].replies.root && k.taps[tid].dst == made[tid].replies.create
  {
    hide MakersAmid, Lead, Coherent;
    InitialInv(s);
    LeadFeeds(s, hs);
    EveryLeadInv(s, hs);
    var t := Lead(s, hs).value;
    RecordSound(Records(t), a, t.kernel, t.leaked);
  }
}
