/** The reserves the arbiter creates and gives back over a whole run, in order. */
module ReserveLog {
  import opened Options
  import opened ArbiterSpec
  import opened ArbiterInvariant
  import opened ArbiterRuns
  import opened ReaperPass

  /** A reserve the kernel created for the arbiter, or a call that gives one back. */
  datatype Mark = Created(rid: int) | PutBack(rid: int)

  /** The marks of a stat request: a creation that fails later puts its reserve at once. */
  ghost function StatMarks(s: State, uid: nat, r: StatReplies): seq<Mark> {
    var k := Find(s.active, uid);
    if r.rootErr != 0 || k < 0 || s.active[k].made.Some? || r.create < 0 then []
    else if r.tap < 0 || r.rate != 0 then [Created(r.create), PutBack(r.create)]
    else [Created(r.create)]
  }

  ghost function CallMark(c: Call): seq<Mark> {
    if c.rec.made.Some? then [PutBack(c.rec.made.value.rid)] else []
  }

  ghost function CallMarks(calls: seq<Call>): seq<Mark> {
    if calls == [] then [] else CallMark(calls[0]) + CallMarks(calls[1..])
  }

  ghost function Marks(s: State, e: Event): seq<Mark>
    requires Enabled(s, e)
  {
    match e
    case StatReq(uid, _, r) => StatMarks(s, uid, r)
    case Reap(rs) => CallMarks(Doomed(s.dead, rs))
    case _ => []
  }

  ghost function Log(s: State, es: seq<Event>, t: State): seq<Mark>
    requires Runs(s, es, t)
    decreases |es|
  {
    if es == [] then [] else Marks(s, es[0]) + Log(Step(s, es[0]), es[1..], t)
  }

  /** The last mark of a reserve id. */
  ghost function Last(log: seq<Mark>, rid: int): Option<Mark> {
    if log == [] then None
    else if log[|log| - 1].rid == rid then Some(log[|log| - 1])
    else Last(log[..|log| - 1], rid)
  }

  /** Created, and not given back since. */
  ghost predicate Open(log: seq<Mark>, rid: int) {
    Last(log, rid) == Some(Created(rid))
  }

  /** Whatever is given back was created by the arbiter and has not been given back since. */
  ghost predicate Answered(log: seq<Mark>) {
    forall i :: 0 <= i < |log| && log[i].PutBack? ==> Open(log[..i], log[i].rid)
  }

  lemma OpenSnoc(log: seq<Mark>, m: Mark, rid: int)
    ensures Open(log + [m], rid) <==> if m.rid == rid then m.Created? else Open(log, rid)
  {
    assert (log + [m])[..|log|] == log;
  }

  lemma AnsweredSnoc(log: seq<Mark>, m: Mark)
    requires Answered(log) && (m.PutBack? ==> Open(log, m.rid))
    ensures Answered(log + [m])
  {
    hide Open;
    var l := log + [m];
    forall i | 0 <= i < |l| && l[i].PutBack?
      ensures Open(l[..i], l[i].rid)
    {
      assert l[..i] == log[..i];
      if i == |log| {
        assert log[..i] == log;
      }
    }
  }

  // --- Which reserves the records have ---

  lemma HasReserveAdd(m: multiset<Rec>, r: Rec, rid: int)
    requires r.made.None?
    ensures HasReserve(m + multiset{r}, rid) <==> HasReserve(m, rid)
  {
    if HasReserve(m + multiset{r}, rid) {
      var a :| a in m + multiset{r} && a.made.Some? && a.made.value.rid == rid;
      assert a in m;
    }
    if HasReserve(m, rid) {
      var a :| a in m && a.made.Some? && a.made.value.rid == rid;
      assert a in m + multiset{r};
    }
  }

  lemma HasReserveMade(m: multiset<Rec>, a: Rec, b: Rec, rid: int)
    requires a in m && a.made.None? && b.made.Some?
    ensures HasReserve(m - multiset{a} + multiset{b}, rid) <==> HasReserve(m, rid) || rid == b.made.value.rid
  {
    var n := m - multiset{a} + multiset{b};
    assert b in n;
    if HasReserve(n, rid) {
      var x :| x in n && x.made.Some? && x.made.value.rid == rid;
      assert x == b || x in m;
    }
    if HasReserve(m, rid) {
      var x :| x in m && x.made.Some? && x.made.value.rid == rid;
      assert x in n;
    }
  }

  lemma HasReserveDrop(m: multiset<Rec>, a: Rec, k: Kernel, leaked: set<int>, rid: int)
    requires Coherent(m, k, leaked) && a in m
    ensures HasReserve(m - multiset{a}, rid) <==> HasReserve(m, rid) && !(a.made.Some? && a.made.value.rid == rid)
  {
    var n := m - multiset{a};
    if HasReserve(n, rid) {
      var x :| x in n && x.made.Some? && x.made.value.rid == rid;
      assert x in m && (a.made.Some? ==> x != a && OwnIds(x, a));
    }
    if HasReserve(m, rid) && !(a.made.Some? && a.made.value.rid == rid) {
      var x :| x in m && x.made.Some? && x.made.value.rid == rid;
      assert x in n;
    }
  }

  // --- The log and the records agree ---

  ghost predicate Ledger(s: State, log: seq<Mark>) {
    && Answered(log)
    && forall rid :: Open(log, rid) <==> HasReserve(Records(s), rid)
  }

  /** One call of the reaper: the record's reserve was open, and is closed. */
  lemma DestroyLedger(s: State, j: nat, reply: ReapReply, log: seq<Mark>)
    requires Inv(s) && Ledger(s, log) && j < |s.dead|
    ensures var t := Destroy(s, s.dead[j], reply).(dead := s.dead[..j] + s.dead[j + 1..]);
            Ledger(t, log + CallMark(Call(s.dead[j], reply)))
  {
    hide Coherent, UniqueUids, Answered, Open, HasReserve;
    var a := s.dead[j];
    var t := Destroy(s, a, reply).(dead := s.dead[..j] + s.dead[j + 1..]);
    var more := log + CallMark(Call(a, reply));
    assert a in s.dead && a in Records(s);
    SplitAt(s.dead, j);
    assert Records(t) == Records(s) - multiset{a};
    if a.made.Some? {
      ReserveOf(Records(s), a);
      AnsweredSnoc(log, PutBack(a.made.value.rid));
    } else {
      assert more == log;
    }
    forall rid
      ensures Open(more, rid) <==> HasReserve(Records(t), rid)
    {
      HasReserveDrop(Records(s), a, s.kernel, s.leaked, rid);
      if a.made.Some? {
        OpenSnoc(log, PutBack(a.made.value.rid), rid);
      }
    }
  }

  lemma ReserveOf(m: multiset<Rec>, a: Rec)
    requires a in m && a.made.Some?
    ensures HasReserve(m, a.made.value.rid)
  {
  }

  lemma {:induction false} SweepLedger(s: State, j: nat, replies: seq<ReapReply>, log: seq<Mark>)
    requires Inv(s) && Ledger(s, log) && j + |replies| == |s.dead|
    ensures Ledger(Sweep(s, j, replies), log + CallMarks(Doomed(s.dead[j..], replies)))
    decreases |replies|
  {
    hide Inv, Ledger, Destroy, Destroyable, CallMark;
    var d := s.dead;
    if replies == [] {
      assert log + [] == log;
    } else {
      assert d[j..][1..] == d[j + 1..] && d[j..][0] == d[j];
      var rest := Doomed(d[j + 1..], replies[1..]);
      if Destroyable(d[j], replies[0]) {
        var call := Call(d[j], replies[0]);
        var t := Destroy(s, d[j], replies[0]).(dead := d[..j] + d[j + 1..]);
        DestroyKeeps(s, j, replies[0]);
        DestroyLedger(s, j, replies[0], log);
        CutAt(d, j);
        SweepLedger(t, j, replies[1..], log + CallMark(call));
        assert ([call] + rest)[1..] == rest;
        assert (log + CallMark(call)) + CallMarks(rest) == log + (CallMark(call) + CallMarks(rest));
      } else {
        SweepLedger(s, j + 1, replies[1..], log);
        assert [] + rest == rest;
      }
    }
  }

  /** A reserve created and put at once leaves the open ones as they were. */
  lemma RolledBack(m: multiset<Rec>, log: seq<Mark>, rid: int)
    requires Answered(log) && !HasReserve(m, rid) && forall x :: Open(log, x) <==> HasReserve(m, x)
    ensures var more := log + [Created(rid), PutBack(rid)];
            Answered(more) && forall x :: Open(more, x) <==> HasReserve(m, x)
  {
    hide Answered, Open, HasReserve;
    var during, more := log + [Created(rid)], log + [Created(rid), PutBack(rid)];
    assert more == during + [PutBack(rid)];
    AnsweredSnoc(log, Created(rid));
    OpenSnoc(log, Created(rid), rid);
    AnsweredSnoc(during, PutBack(rid));
    forall x
      ensures Open(more, x) <==> HasReserve(m, x)
    {
      OpenSnoc(log, Created(rid), x);
      OpenSnoc(during, PutBack(rid), x);
    }
  }

  /** A reserve created for record `a` is open from then on. */
  lemma Recorded(m: multiset<Rec>, log: seq<Mark>, a: Rec, b: Rec)
    requires Answered(log) && a in m && a.made.None? && b.made.Some? && forall x :: Open(log, x) <==> HasReserve(m, x)
    ensures var more := log + [Created(b.made.value.rid)];
            Answered(more) && forall x :: Open(more, x) <==> HasReserve(m - multiset{a} + multiset{b}, x)
  {
    hide Answered, Open, HasReserve;
    var mark := Created(b.made.value.rid);
    AnsweredSnoc(log, mark);
    forall x
      ensures Open(log + [mark], x) <==> HasReserve(m - multiset{a} + multiset{b}, x)
    {
      OpenSnoc(log, mark, x);
      HasReserveMade(m, a, b, x);
    }
  }

  lemma MakeLedger(s: State, k: nat, r: StatReplies, log: seq<Mark>)
    requires Inv(s) && Ledger(s, log) && k < |s.active| && s.active[k].made.None? && FreshIds(s.kernel, r)
    ensures var marks := if r.create < 0 then []
                         else if r.tap < 0 || r.rate != 0 then [Created(r.create), PutBack(r.create)]
                         else [Created(r.create)];
            Ledger(Make(s, k, r).0, log + marks)
  {
    hide Coherent, UniqueUids, Answered, Open, HasReserve;
    if r.create < 0 {
      assert log + [] == log;
    } else if r.tap < 0 || r.rate != 0 {
      NoRecordHas(s, r.create);
      RolledBack(Records(s), log, r.create);
    } else {
      var b := s.active[k].(made := Some(Ids(r.create, r.tap)));
      assert s.active[k] in s.active && s.active[k] in Records(s);
      ReplaceActive(s, k, b);
      Recorded(Records(s), log, s.active[k], b);
    }
  }

  /** A fresh id is on no record. */
  lemma NoRecordHas(s: State, rid: int)
    requires Inv(s) && rid !in s.kernel.reserves
    ensures !HasReserve(Records(s), rid)
  {
  }

  lemma SetLedger(s: State, uid: nat, tapType: int, tapValue: int, reply: int, log: seq<Mark>)
    requires Ledger(s, log)
    ensures Ledger(SetParams(s, uid, tapType, tapValue, reply).0, log)
  {
    hide HasReserve, Answered, Open;
    var k := Find(s.active, uid);
    if ParamsOk(tapType, tapValue) && k >= 0 {
      var a := s.active[k];
      var b := a.(tapType := tapType, tapValue := tapValue);
      assert a in s.active && a in Records(s);
      ReplaceActive(s, k, b);
      SameReserves(Records(s), Records(s) - multiset{a} + multiset{b}, a, b);
    }
  }

  lemma AddLedger(s: State, uid: nat, tapType: int, tapValue: int, log: seq<Mark>)
    requires Ledger(s, log)
    ensures Ledger(AddParams(s, uid, tapType, tapValue).0, log)
  {
    hide HasReserve, Answered, Open;
    if ParamsOk(tapType, tapValue) && Find(s.active, uid) < 0 {
      var r := Rec(uid, None, tapType, tapValue);
      var t := AddParams(s, uid, tapType, tapValue).0;
      assert Records(t) == Records(s) + multiset{r};
      forall rid
        ensures Open(log, rid) <==> HasReserve(Records(t), rid)
      {
        HasReserveAdd(Records(s), r, rid);
      }
    }
  }

  lemma StatLedger(s: State, uid: nat, pid: int, r: StatReplies, log: seq<Mark>)
    requires Inv(s) && Ledger(s, log) && FreshIds(s.kernel, r)
    ensures Ledger(Stat(s, uid, pid, r).0, log + StatMarks(s, uid, r))
  {
    hide Inv, Make, Expose, Answered, Open, HasReserve, FreshIds;
    assert log + [] == log;
    var k := Find(s.active, uid);
    if r.rootErr == 0 && k >= 0 && s.active[k].made.None? {
      MakeLedger(s, k, r, log);
    }
  }

  /** The records change places only. */
  lemma SameRecords(s: State, t: State, log: seq<Mark>)
    requires Ledger(s, log) && Records(t) == Records(s)
    ensures Ledger(t, log)
  {
  }

  lemma RemoveRecords(s: State, uid: nat)
    ensures Records(RemoveParams(s, uid).0) == Records(s)
  {
    var k := Find(s.active, uid);
    if k >= 0 {
      SplitAt(s.active, k);
    }
  }

  lemma StepLedger(s: State, e: Event, log: seq<Mark>)
    requires Inv(s) && Ledger(s, log) && Enabled(s, e)
    ensures Ledger(Step(s, e), log + Marks(s, e))
  {
    hide Inv, Ledger, Sweep, Stat, SetParams, AddParams, RemoveParams, Empty, FreshIds, Environment, StatMarks;
    assert log + [] == log;
    match e
    case Add(uid, t, v) => AddLedger(s, uid, t, v, log);
    case Remove(uid) => RemoveRecords(s, uid); SameRecords(s, RemoveParams(s, uid).0, log);
    case Set(uid, t, v, reply) => SetLedger(s, uid, t, v, reply, log);
    case StatReq(uid, pid, r) => StatLedger(s, uid, pid, r, log);
    case Reap(rs) => assert s.dead[0..] == s.dead; SweepLedger(s, 0, rs, log);
    case EmptyAll => EmptyKeeps(s); SameRecords(s, Empty(s), log);
    case World(k) => SameRecords(s, s.(kernel := k), log);
  }

  lemma {:induction false} RunLedger(s: State, es: seq<Event>, t: State, log: seq<Mark>)
    requires Inv(s) && Ledger(s, log) && Runs(s, es, t)
    ensures Ledger(t, log + Log(s, es, t))
    decreases |es|
  {
    hide Inv, Ledger, Step, Enabled, Marks;
    if es == [] {
      assert log + [] == log;
    } else {
      var u, marks := Step(s, es[0]), Marks(s, es[0]);
      StepKeeps(s, es[0]);
      StepLedger(s, es[0], log);
      RunLedger(u, es[1..], t, log + marks);
      assert (log + marks) + Log(u, es[1..], t) == log + (marks + Log(u, es[1..], t));
    }
  }

  /**
   Over a whole run the arbiter gives back only reserves it created and has not
   given back since, and the reserves it holds, but for those whose put the
   kernel refused, are the ones created and not given back.
   */
  lemma PutOnce(s: State, es: seq<Event>, t: State)
    requires Initial(s) && Runs(s, es, t)
    ensures Answered(Log(s, es, t))
    ensures forall rid :: Open(Log(s, es, t), rid) <==> rid in Held(t.kernel) && rid !in t.leaked
  {
    hide Open, Answered, Runs;
    InitialInv(s);
    EveryRunInv(s, es, t);
    StartLedger(s);
    RunLedger(s, es, t, []);
    assert [] + Log(s, es, t) == Log(s, es, t);
  }

  lemma StartLedger(s: State)
    requires Initial(s)
    ensures Ledger(s, [])
  {
  }

  lemma {:induction false} OpenMeansCreatedLast(log: seq<Mark>, rid: int) returns (k: nat)
    requires Open(log, rid)
    ensures k < |log| && log[k] == Created(rid) && forall i :: k < i < |log| ==> log[i].rid != rid
  {
    k := |log| - 1;
    if log[k].rid != rid {
      k := OpenMeansCreatedLast(log[..|log| - 1], rid);
    }
  }

  /** No reserve is given back twice unless it is created again in between. */
  lemma NotPutTwice(s: State, es: seq<Event>, t: State, i: nat, j: nat, rid: int)
    requires Initial(s) && Runs(s, es, t)
    requires var log := Log(s, es, t); i < j < |log| && log[i] == log[j] == PutBack(rid)
    ensures exists k :: i < k < j && Log(s, es, t)[k] == Created(rid)
  {
    hide Runs, Open;
    PutOnce(s, es, t);
    var log := Log(s, es, t);
    var k := OpenMeansCreatedLast(log[..j], rid);
    assert log[..j][k] == log[k] && log[..j][i] == log[i];
  }
}
