/**
 Client threads and the reaper under the database mutex and the record mutexes,
 one step at a time. Every kernel call is one step, and its reply is whatever
 the schedule says.
 */
module Concurrency {
  import opened Options
  import opened ArbiterSpec

  /** What the mutexes protect. */
  datatype Db = Db(active: seq<Rec>, dead: seq<Rec>, leaked: set<int>)

  datatype Op =
    | OpAdd(uid: nat, tapType: int, tapValue: int)
    | OpRemove(uid: nat)
    | OpGet(uid: nat)
    | OpSet(uid: nat, tapType: int, tapValue: int)
    | OpStat(uid: nat, pid: int)
    | OpReap

  datatype Result =
    | Status(out: Outcome)
    | Removed(err: int)
    | Got(params: Option<(int, int)>)
    | Statted(stat: StatResult)
    | Reaped(err: int, isEmpty: bool)

  /** The kernel's replies to one operation. */
  datatype Replies = Replies(stat: StatReplies, reap: seq<ReapReply>)

  function DbOf(s: State): Db {
    Db(s.active, s.dead, s.leaked)
  }

  function InKernel(d: Db, k: Kernel): State {
    State(d.active, d.dead, k, d.leaked)
  }

  const NO_KERNEL := Kernel(map[], map[])

  predicate Suitable(d: Db, op: Op, r: Replies) {
    op.OpReap? ==> |r.reap| == |d.dead|
  }

  /** An operation done all at once. */
  function Atomic(d: Db, op: Op, r: Replies): (Db, Result)
    requires Suitable(d, op, r)
  {
    var s := InKernel(d, NO_KERNEL);
    match op
    case OpAdd(uid, t, v) =>
      var (s', out) := AddParams(s, uid, t, v);
      (DbOf(s'), Status(out))
    case OpRemove(uid) =>
      var (s', err) := RemoveParams(s, uid);
      (DbOf(s'), Removed(err))
    case OpGet(uid) => (d, Got(GetParams(s, uid)))
    case OpSet(uid, t, v) =>
      var (s', out) := SetParams(s, uid, t, v, r.stat.rate);
      (DbOf(s'), Status(out))
    case OpStat(uid, pid) =>
      var (s', res) := Stat(s, uid, pid, r.stat);
      (DbOf(s'), Statted(res))
    case OpReap =>
      var s' := Sweep(s, 0, r.reap);
      (DbOf(s'), Reaped(SweepError(d.dead, r.reap, 0), s'.dead == []))
  }

  /** Where a thread is in an operation. `r` holds the kernel replies it has had so far. */
  datatype Pc =
    | Idle
    | WantDb(op: Op, r: StatReplies)
    | HaveDb(op: Op, r: StatReplies)
    | Found(op: Op, k: nat, r: StatReplies)
    | HaveRec(op: Op, k: nat, r: StatReplies)
    | Created(op: Op, k: nat, r: StatReplies)
    | Tapped(op: Op, k: nat, r: StatReplies)
    | Rated(op: Op, k: nat, r: StatReplies)
    | RateRefused(op: Op, k: nat, r: StatReplies)
    | MustPut(op: Op, k: nat, r: StatReplies, err: int)
    | Exposing(op: Op, k: nat, r: StatReplies)
    | RateSet(op: Op, k: nat, r: StatReplies)
    | RecDone(op: Op, k: nat, r: StatReplies, result: Result)
    | Reaping(j: nat, reap: seq<ReapReply>, err: int)
    | DbDone(op: Op, all: Replies, result: Result)

  /** One finished operation. */
  datatype Entry = Entry(thread: nat, op: Op, r: Replies, result: Result)

  datatype Machine = Machine(
    db: Db,
    dbLock: Option<nat>,
    recLocks: map<nat, nat>,
    threads: map<nat, Pc>,
    base: Db,
    history: seq<Entry>)

  /** What the schedule supplies to a step: a new operation, and what kernel calls return and store. */
  datatype Input = Input(op: Op, reply: int, value: int, put: int)

  const NO_STAT := StatReplies(0, 0, 0, 0, 0, 0, 0, 0)
  const NO_REPLIES := Replies(NO_STAT, [])

  function Goto(m: Machine, t: nat, pc: Pc): Machine {
    m.(threads := m.threads[t := pc])
  }

  /** The requests that are refused before any mutex is taken. */
  predicate BadParams(op: Op) {
    (op.OpAdd? || op.OpSet?) && !ParamsOk(op.tapType, op.tapValue)
  }

  /** The replies to a stat that cannot learn the root reserve. */
  function NoRoot(err: int): Replies {
    Replies(NO_STAT.(rootErr := err), [])
  }

  /** One step of thread `t`; a thread whose mutex is taken stays where it is. */
  function Step(m: Machine, t: nat, x: Input): (n: Machine)
    requires t in m.threads
    ensures n.threads.Keys == m.threads.Keys
  {
    var d := m.db;
    match m.threads[t]
    case Idle =>
      if BadParams(x.op) then
        m.(history := m.history + [Entry(t, x.op, NO_REPLIES, Status(Outcome(-EINVAL, PA_INVALID_INPUT)))])
      else if x.op.OpStat? && x.reply != 0 then
        m.(history := m.history + [Entry(t, x.op, NoRoot(x.reply), Statted(StatResult(x.reply, 0, 0)))])
      else Goto(m, t, WantDb(x.op, NO_STAT.(root := x.value)))
    case WantDb(op, r) =>
      if m.dbLock.Some? then m
      else Goto(m.(dbLock := Some(t), base := d), t, if op.OpReap? then Reaping(0, [], 0) else HaveDb(op, r))
    case HaveDb(op, r) => StepHaveDb(m, t, op, r)
    case Found(op, k, r) =>
      if op.OpReap? || op.uid in m.recLocks then m
      else Goto(m.(recLocks := m.recLocks[op.uid := t]), t, HaveRec(op, k, r))
    case HaveRec(op, k, r) => if k < |d.active| then StepHaveRec(m, t, op, k, r, x) else m
    case Created(op, k, r) =>
      var r' := r.(tap := x.reply);
      if x.reply < 0 then Goto(m, t, MustPut(op, k, r', x.reply)) else Goto(m, t, Tapped(op, k, r'))
    case Tapped(op, k, r) =>
      var r' := r.(rate := x.reply);
      if x.reply != 0 then Goto(m, t, RateRefused(op, k, r')) else Goto(m, t, Rated(op, k, r'))
    case RateRefused(op, k, r) => Goto(m, t, MustPut(op, k, r.(deleteTap := x.reply), r.rate))
    case MustPut(op, k, r, err) =>
      Goto(m.(db := d.(leaked := if x.reply == 0 then d.leaked else d.leaked + {r.create})), t,
           RecDone(op, k, r.(put := x.reply), Statted(StatResult(err, 0, 0))))
    case Rated(op, k, r) =>
      if k >= |d.active| then m
      else
        var rec := d.active[k].(made := Some(Ids(r.create, r.tap)));
        Goto(m.(db := d.(active := d.active[k := rec])), t, Exposing(op, k, r))
    case Exposing(op, k, r) =>
      if k >= |d.active| || d.active[k].made.None? then m
      else
        var res := if x.reply != 0 then StatResult(x.reply, 0, 0)
                   else StatResult(0, PA_RESERVE_GRANTED, d.active[k].made.value.rid);
        Goto(m, t, RecDone(op, k, r.(expose := x.reply), Statted(res)))
    case RateSet(op, k, r) =>
      if !op.OpSet? || k >= |d.active| then m
      else
        var rec := d.active[k].(tapType := op.tapType, tapValue := op.tapValue);
        Goto(m.(db := d.(active := d.active[k := rec])), t, RecDone(op, k, r, Status(Outcome(0, 0))))
    case RecDone(op, k, r, result) =>
      if op.OpReap? then m
      else Goto(m.(recLocks := m.recLocks - {op.uid}), t, DbDone(op, Replies(r, []), result))
    case Reaping(j, rs, err) => StepReap(m, t, j, rs, err, x)
    case DbDone(op, r, result) =>
      Goto(m.(dbLock := None, history := m.history + [Entry(t, op, r, result)]), t, Idle)
  }

  /** With the database mutex held: the whole of an add or remove, or the lookup. */
  function StepHaveDb(m: Machine, t: nat, op: Op, r: StatReplies): (n: Machine)
    requires t in m.threads
    ensures n.threads.Keys == m.threads.Keys
  {
    var d := m.db;
    match op
    case OpAdd(uid, tt, tv) =>
      if Find(d.active, uid) >= 0 then Goto(m, t, DbDone(op, NO_REPLIES, Status(Outcome(-EEXIST, 0))))
      else Goto(m.(db := d.(active := d.active + [Rec(uid, None, tt, tv)])), t,
                DbDone(op, NO_REPLIES, Status(Outcome(0, 0))))
    case OpRemove(uid) =>
      var k := Find(d.active, uid);
      if k < 0 then Goto(m, t, DbDone(op, NO_REPLIES, Removed(-ENOENT)))
      else
        Goto(m.(db := d.(active := d.active[..k] + d.active[k + 1..], dead := d.dead + [d.active[k]])), t,
             DbDone(op, NO_REPLIES, Removed(0)))
    case OpGet(uid) =>
      var k := Find(d.active, uid);
      Goto(m, t, if k < 0 then DbDone(op, NO_REPLIES, Got(None)) else Found(op, k, r))
    case OpSet(uid, _, _) =>
      var k := Find(d.active, uid);
      Goto(m, t, if k < 0 then DbDone(op, NO_REPLIES, Status(Outcome(-ENOENT, 0))) else Found(op, k, r))
    case OpStat(uid, _) =>
      var k := Find(d.active, uid);
      if k < 0 then Goto(m, t, DbDone(op, Replies(r, []), Statted(StatResult(0, PA_USE_ROOT_RESERVE, r.root))))
      else Goto(m, t, Found(op, k, r))
    case OpReap => m
  }

  /** The first step with the record mutex held. */
  function StepHaveRec(m: Machine, t: nat, op: Op, k: nat, r: StatReplies, x: Input): (n: Machine)
    requires k < |m.db.active| && t in m.threads
    ensures n.threads.Keys == m.threads.Keys
  {
    var rec := m.db.active[k];
    match op
    case OpGet(_) => Goto(m, t, RecDone(op, k, r, Got(Some((rec.tapType, rec.tapValue)))))
    case OpSet(_, _, _) =>
      var r' := r.(rate := x.reply);
      if rec.made.Some? && x.reply != 0 then Goto(m, t, RecDone(op, k, r', Status(Outcome(x.reply, 0))))
      else Goto(m, t, RateSet(op, k, r'))
    case OpStat(_, _) =>
      var r' := r.(create := x.reply);
      if rec.made.Some? then Goto(m, t, Exposing(op, k, r))
      else if x.reply < 0 then Goto(m, t, RecDone(op, k, r', Statted(StatResult(x.reply, 0, 0))))
      else Goto(m, t, Created(op, k, r'))
    case _ => m
  }

  /** One turn of the reaper's loop over the dead list, or its end. */
  function StepReap(m: Machine, t: nat, j: nat, rs: seq<ReapReply>, err: int, x: Input): (n: Machine)
    requires t in m.threads
    ensures n.threads.Keys == m.threads.Keys
  {
    var d := m.db;
    if j >= |d.dead| then Goto(m, t, DbDone(OpReap, Replies(NO_STAT, rs), Reaped(err, d.dead == [])))
    else
      var rec := d.dead[j];
      var reply := ReapReply(x.reply, x.value, x.put);
      var err' := if rec.made.Some? then x.reply else err;
      if Destroyable(rec, reply) then
        var leaked := if rec.made.Some? && x.put != 0 then d.leaked + {rec.made.value.rid} else d.leaked;
        Goto(m.(db := Db(d.active, d.dead[..j] + d.dead[j + 1..], leaked)), t, Reaping(j, rs + [reply], err'))
      else Goto(m, t, Reaping(j + 1, rs + [reply], err'))
  }

  // --- What every schedule keeps ---

  /** The thread holds the database mutex. */
  predicate InDb(pc: Pc) {
    !pc.Idle? && !pc.WantDb?
  }

  /** The thread holds the mutex of the record of its operation's UID. */
  predicate InRec(pc: Pc) {
    || pc.HaveRec? || pc.Created? || pc.Tapped? || pc.Rated? || pc.RateRefused?
    || pc.MustPut? || pc.Exposing? || pc.RateSet? || pc.RecDone?
  }

  /** The operations done so far, one after the other. */
  function Replay(d: Db, h: seq<Entry>): Db {
    if h == [] then d
    else
      var e := h[|h| - 1];
      var d' := Replay(d, h[..|h| - 1]);
      if Suitable(d', e.op, e.r) then Atomic(d', e.op, e.r).0 else d'
  }

  /** Every result in the history is that of an atomic operation where it stands in the history. */
  ghost predicate Sequential(d: Db, h: seq<Entry>) {
    h != [] ==>
      && Sequential(d, h[..|h| - 1])
      && var e := h[|h| - 1]; var d' := Replay(d, h[..|h| - 1]);
         Suitable(d', e.op, e.r) && e.result == Atomic(d', e.op, e.r).1
  }

  /** The record an operation works on is the active record of its UID. */
  ghost predicate OnRecord(base: Db, op: Op, k: nat) {
    (op.OpGet? || op.OpSet? || op.OpStat?) && k < |base.active| && k == Find(base.active, op.uid)
  }

  ghost predicate MakingFor(base: Db, op: Op, k: nat, r: StatReplies) {
    op.OpStat? && OnRecord(base, op, k) && base.active[k].made.None? && r.rootErr == 0 && r.create >= 0
  }

  /** How the database stands when its holder is at `pc`, having found `base` when it took the mutex. */
  ghost predicate Mid(base: Db, d: Db, pc: Pc) {
    match pc
    case Idle => true
    case WantDb(_, _) => true
    case HaveDb(op, r) => d == base && !op.OpReap? && !BadParams(op) && r.rootErr == 0
    case Found(op, k, r) => d == base && OnRecord(base, op, k) && !BadParams(op) && r.rootErr == 0
    case HaveRec(op, k, r) => d == base && OnRecord(base, op, k) && !BadParams(op) && r.rootErr == 0
    case Created(op, k, r) => d == base && MakingFor(base, op, k, r)
    case Tapped(op, k, r) => d == base && MakingFor(base, op, k, r) && r.tap >= 0
    case Rated(op, k, r) => d == base && MakingFor(base, op, k, r) && r.tap >= 0 && r.rate == 0
    case RateRefused(op, k, r) => d == base && MakingFor(base, op, k, r) && r.tap >= 0 && r.rate != 0
    case MustPut(op, k, r, err) =>
      && d == base && MakingFor(base, op, k, r)
      && if r.tap < 0 then err == r.tap else r.rate != 0 && err == r.rate
    case Exposing(op, k, r) =>
      && op.OpStat? && OnRecord(base, op, k) && r.rootErr == 0
      && if base.active[k].made.Some? then d == base
         else
           && MakingFor(base, op, k, r) && r.tap >= 0 && r.rate == 0
           && d == base.(active := base.active[k := base.active[k].(made := Some(Ids(r.create, r.tap)))])
    case RateSet(op, k, r) =>
      d == base && op.OpSet? && OnRecord(base, op, k) && !BadParams(op) && (base.active[k].made.Some? ==> r.rate == 0)
    case RecDone(op, k, r, result) => OnRecord(base, op, k) && (d, result) == Atomic(base, op, Replies(r, []))
    case Reaping(j, rs, err) => SweepMid(base, d, j, rs, err)
    case DbDone(op, r, result) => Suitable(base, op, r) && (d, result) == Atomic(base, op, r)
  }

  /** In the middle of a pass: whatever replies come, it will end where the atomic pass does. */
  ghost predicate SweepMid(base: Db, d: Db, j: nat, rs: seq<ReapReply>, err: int) {
    && j <= |d.dead| && |rs| + |d.dead| - j == |base.dead|
    && base.dead[|rs|..] == d.dead[j..]
    && err == SweepError(base.dead[..|rs|], rs, 0)
    && forall rest: seq<ReapReply> :: |rest| == |d.dead| - j ==>
         DbOf(Sweep(InKernel(base, NO_KERNEL), 0, rs + rest)) == DbOf(Sweep(InKernel(d, NO_KERNEL), j, rest))
  }

  ghost predicate Safe(start: Db, m: Machine) {
    && (forall t :: t in m.threads ==> (InDb(m.threads[t]) <==> m.dbLock == Some(t)))
    && (forall t :: t in m.threads && m.threads[t].WantDb? ==>
          !BadParams(m.threads[t].op) && m.threads[t].r.rootErr == 0)
    && (forall t :: t in m.threads && InRec(m.threads[t]) ==>
          !m.threads[t].op.OpReap? && m.threads[t].op.uid in m.recLocks && m.recLocks[m.threads[t].op.uid] == t)
    && (forall u :: u in m.recLocks ==>
          var t := m.recLocks[u]; t in m.threads && InRec(m.threads[t]) && m.threads[t].op.uid == u)
    && Sequential(start, m.history)
    && match m.dbLock
       case None => m.db == Replay(start, m.history)
       case Some(t) => t in m.threads && m.base == Replay(start, m.history) && Mid(m.base, m.db, m.threads[t])
  }

  function Leak(d: Db, r: StatReplies): Db {
    if r.put == 0 then d else d.(leaked := d.leaked + {r.create})
  }

  /** The atomic stat of a UID with a record, case by case. */
  lemma AtomicStat(d: Db, op: Op, k: nat, r: StatReplies)
    requires op.OpStat? && OnRecord(d, op, k) && r.rootErr == 0
    ensures var rec := d.active[k];
            var granted := (rid: int) =>
              if r.expose != 0 then StatResult(r.expose, 0, 0) else StatResult(0, PA_RESERVE_GRANTED, rid);
            Atomic(d, op, Replies(r, [])) ==
            if rec.made.Some? then (d, Statted(granted(rec.made.value.rid)))
            else if r.create < 0 then (d, Statted(StatResult(r.create, 0, 0)))
            else if r.tap < 0 then (Leak(d, r), Statted(StatResult(r.tap, 0, 0)))
            else if r.rate != 0 then (Leak(d, r), Statted(StatResult(r.rate, 0, 0)))
            else (d.(active := d.active[k := rec.(made := Some(Ids(r.create, r.tap)))]), Statted(granted(r.create)))
  {
  }

  lemma AtomicSet(d: Db, op: Op, k: nat, r: StatReplies)
    requires op.OpSet? && OnRecord(d, op, k) && !BadParams(op)
    ensures var rec := d.active[k];
            Atomic(d, op, Replies(r, [])) ==
            if rec.made.Some? && r.rate != 0 then (d, Status(Outcome(r.rate, 0)))
            else (d.(active := d.active[k := rec.(tapType := op.tapType, tapValue := op.tapValue)]),
                  Status(Outcome(0, 0)))
  {
  }

  lemma AtomicGet(d: Db, op: Op, k: nat, r: StatReplies)
    requires op.OpGet? && OnRecord(d, op, k)
    ensures Atomic(d, op, Replies(r, [])) == (d, Got(Some((d.active[k].tapType, d.active[k].tapValue))))
  {
  }

  /** The next place of a thread inside its critical section. */
  function NextPc(m: Machine, t: nat, x: Input): Pc
    requires t in m.threads
  {
    Step(m, t, x).threads[t]
  }

  lemma MidHaveDb(m: Machine, t: nat, x: Input)
    requires t in m.threads && m.threads[t].HaveDb? && Mid(m.base, m.db, m.threads[t])
    ensures Mid(m.base, Step(m, t, x).db, NextPc(m, t, x))
  {
    hide Sweep, Stat, SweepError;
    var op := m.threads[t].op;
    if op.OpStat? && Find(m.base.active, op.uid) < 0 {
      AtomicNoRecord(m.base, op, m.threads[t].r);
    }
  }

  lemma AtomicNoRecord(d: Db, op: Op, r: StatReplies)
    requires op.OpStat? && Find(d.active, op.uid) < 0 && r.rootErr == 0
    ensures Atomic(d, op, Replies(r, [])) == (d, Statted(StatResult(0, PA_USE_ROOT_RESERVE, r.root)))
  {
  }

  lemma MidHaveRec(m: Machine, t: nat, x: Input)
    requires t in m.threads && m.threads[t].HaveRec? && Mid(m.base, m.db, m.threads[t])
    ensures Mid(m.base, Step(m, t, x).db, NextPc(m, t, x))
  {
    hide Atomic;
    var HaveRec(op, k, r) := m.threads[t];
    match op
    case OpGet(_) => AtomicGet(m.base, op, k, r);
    case OpSet(_, _, _) => AtomicSet(m.base, op, k, r.(rate := x.reply));
    case OpStat(_, _) => AtomicStat(m.base, op, k, r.(create := x.reply));
  }

  /** The steps of a stat between the creation of the reserve and the end. */
  lemma MidMaking(m: Machine, t: nat, x: Input)
    requires t in m.threads && Mid(m.base, m.db, m.threads[t])
    requires var pc := m.threads[t]; pc.Created? || pc.Tapped? || pc.RateRefused? || pc.Rated?
    ensures Mid(m.base, Step(m, t, x).db, NextPc(m, t, x))
  {
    hide Atomic;
  }

  lemma MidMustPut(m: Machine, t: nat, x: Input)
    requires t in m.threads && m.threads[t].MustPut? && Mid(m.base, m.db, m.threads[t])
    ensures Mid(m.base, Step(m, t, x).db, NextPc(m, t, x))
  {
    hide Atomic;
    var MustPut(op, k, r, _) := m.threads[t];
    AtomicStat(m.base, op, k, r.(put := x.reply));
  }

  lemma MidExposing(m: Machine, t: nat, x: Input)
    requires t in m.threads && m.threads[t].Exposing? && Mid(m.base, m.db, m.threads[t])
    ensures Mid(m.base, Step(m, t, x).db, NextPc(m, t, x))
  {
    hide Atomic;
    var Exposing(op, k, r) := m.threads[t];
    AtomicStat(m.base, op, k, r.(expose := x.reply));
  }

  lemma MidRateSet(m: Machine, t: nat, x: Input)
    requires t in m.threads && m.threads[t].RateSet? && Mid(m.base, m.db, m.threads[t])
    ensures Mid(m.base, Step(m, t, x).db, NextPc(m, t, x))
  {
    hide Atomic;
    var RateSet(op, k, r) := m.threads[t];
    AtomicSet(m.base, op, k, r);
  }

  lemma MidRecDone(m: Machine, t: nat, x: Input)
    requires t in m.threads && m.threads[t].RecDone? && Mid(m.base, m.db, m.threads[t])
    ensures Mid(m.base, Step(m, t, x).db, NextPc(m, t, x))
  {
    hide Atomic;
  }

  lemma {:induction false} SweepErrorSnoc(dead: seq<Rec>, rs: seq<ReapReply>, rec: Rec, reply: ReapReply, err: int)
    requires |dead| == |rs|
    ensures SweepError(dead + [rec], rs + [reply], err) == if rec.made.Some? then reply.err
          else SweepError(dead, rs, err)
  {
    if dead != [] {
      assert (dead + [rec])[1..] == dead[1..] + [rec] && (rs + [reply])[1..] == rs[1..] + [reply];
      SweepErrorSnoc(dead[1..], rs[1..], rec, reply, if dead[0].made.Some? then rs[0].err else err);
    }
  }

  lemma ReapStarts(d: Db)
    ensures SweepMid(d, d, 0, [], 0)
  {
    forall rest: seq<ReapReply>
      ensures [] + rest == rest
    {
    }
    assert d.dead[0..] == d.dead;
  }

  lemma ReapTurn(base: Db, d: Db, j: nat, rs: seq<ReapReply>, err: int, reply: ReapReply)
    requires SweepMid(base, d, j, rs, err) && j < |d.dead|
    ensures var rec := d.dead[j];
            var err' := if rec.made.Some? then reply.err else err;
            if Destroyable(rec, reply) then
              SweepMid(base, DbOf(Destroy(InKernel(d, NO_KERNEL), rec,
                                          reply)).(dead := d.dead[..j] + d.dead[j + 1..]), j, rs + [reply], err')
            else SweepMid(base, d, j + 1, rs + [reply], err')
  {
    hide SweepError, Destroyable, Destroy;
    var rec := d.dead[j];
    var s := InKernel(d, NO_KERNEL);
    var t := Destroy(s, rec, reply).(dead := d.dead[..j] + d.dead[j + 1..]);
    DestroyNoKernel(d, rec, reply);
    assert t == InKernel(DbOf(t), NO_KERNEL);
    ReapTurnDead(base, d, j, rs, err, reply);
    forall rest: seq<ReapReply> | |rest| == |d.dead| - j - 1
      ensures DbOf(Sweep(InKernel(base, NO_KERNEL), 0, (rs + [reply]) + rest)) ==
              if Destroyable(rec, reply) then DbOf(Sweep(t, j, rest)) else DbOf(Sweep(s, j + 1, rest))
    {
      assert (rs + [reply]) + rest == rs + ([reply] + rest);
      assert ([reply] + rest)[1..] == rest;
    }
  }

  lemma DestroyNoKernel(d: Db, rec: Rec, reply: ReapReply)
    ensures var t := Destroy(InKernel(d, NO_KERNEL), rec, reply);
            t.kernel == NO_KERNEL && t.active == d.active && t.dead == d.dead
  {
  }

  /** What a turn leaves of the dead list, and the error so far. */
  lemma ReapTurnDead(base: Db, d: Db, j: nat, rs: seq<ReapReply>, err: int, reply: ReapReply)
    requires SweepMid(base, d, j, rs, err) && j < |d.dead|
    ensures base.dead[|rs| + 1..] == d.dead[j + 1..] == (d.dead[..j] + d.dead[j + 1..])[j..]
    ensures (if d.dead[j].made.Some? then reply.err else err) == SweepError(base.dead[..|rs| + 1], rs + [reply], 0)
  {
    var n := |rs|;
    assert base.dead[n] == base.dead[n..][0] == d.dead[j];
    assert base.dead[n + 1..] == base.dead[n..][1..] == d.dead[j..][1..] == d.dead[j + 1..];
    assert base.dead[..n + 1] == base.dead[..n] + [d.dead[j]];
    SweepErrorSnoc(base.dead[..n], rs, d.dead[j], reply, 0);
  }

  lemma ReapEnds(base: Db, d: Db, j: nat, rs: seq<ReapReply>, err: int)
    requires SweepMid(base, d, j, rs, err) && j == |d.dead|
    ensures Suitable(base, OpReap, Replies(NO_STAT, rs))
    ensures Atomic(base, OpReap, Replies(NO_STAT, rs)) == (d, Reaped(err, d.dead == []))
  {
    assert rs + [] == rs;
    assert base.dead[..|rs|] == base.dead;
  }

  lemma MidReaping(m: Machine, t: nat, x: Input)
    requires t in m.threads && m.threads[t].Reaping? && Mid(m.base, m.db, m.threads[t])
    ensures Mid(m.base, Step(m, t, x).db, NextPc(m, t, x))
  {
    hide Atomic, SweepMid;
    var Reaping(j, rs, err) := m.threads[t];
    ReapBound(m.base, m.db, j, rs, err);
    if j < |m.db.dead| {
      ReapTurn(m.base, m.db, j, rs, err, ReapReply(x.reply, x.value, x.put));
    } else {
      ReapEnds(m.base, m.db, j, rs, err);
    }
  }

  lemma ReapBound(base: Db, d: Db, j: nat, rs: seq<ReapReply>, err: int)
    requires SweepMid(base, d, j, rs, err)
    ensures j <= |d.dead|
  {
  }

  lemma MidStep(m: Machine, t: nat, x: Input)
    requires t in m.threads && InDb(m.threads[t]) && !m.threads[t].DbDone? && Mid(m.base, m.db, m.threads[t])
    ensures Mid(m.base, Step(m, t, x).db, NextPc(m, t, x))
  {
    hide Mid, Step;
    var pc := m.threads[t];
    if pc.HaveDb? {
      MidHaveDb(m, t, x);
    } else if pc.Found? {
      MidFound(m, t, x);
    } else if pc.HaveRec? {
      MidHaveRec(m, t, x);
    } else if pc.Created? || pc.Tapped? || pc.RateRefused? || pc.Rated? {
      MidMaking(m, t, x);
    } else if pc.MustPut? {
      MidMustPut(m, t, x);
    } else if pc.Exposing? {
      MidExposing(m, t, x);
    } else if pc.RateSet? {
      MidRateSet(m, t, x);
    } else if pc.RecDone? {
      MidRecDone(m, t, x);
    } else {
      MidReaping(m, t, x);
    }
  }

  lemma MidFound(m: Machine, t: nat, x: Input)
    requires t in m.threads && m.threads[t].Found? && Mid(m.base, m.db, m.threads[t])
    ensures Mid(m.base, Step(m, t, x).db, NextPc(m, t, x))
  {
    hide Atomic;
  }

  /** What a step inside a critical section leaves alone, and what it does to the mutexes. */
  ghost predicate Framed(m: Machine, n: Machine, t: nat)
    requires t in m.threads
  {
    && n.dbLock == m.dbLock && n.base == m.base && n.history == m.history && t in n.threads
    && var pc, pc' := m.threads[t], n.threads[t];
       && n.threads == m.threads[t := pc'] && InDb(pc')
       && (InRec(pc) && InRec(pc') ==> n.recLocks == m.recLocks && pc'.op == pc.op)
       && (!InRec(pc) && InRec(pc') ==>
             !pc'.op.OpReap? && pc'.op.uid !in m.recLocks && n.recLocks == m.recLocks[pc'.op.uid := t])
       && (InRec(pc) && !InRec(pc') ==> !pc.op.OpReap? && n.recLocks == m.recLocks - {pc.op.uid})
       && (!InRec(pc) && !InRec(pc') ==> n.recLocks == m.recLocks)
  }

  lemma FrameWhole(m: Machine, t: nat, x: Input)
    requires t in m.threads && m.threads[t].HaveDb? && (m.threads[t].op.OpAdd? || m.threads[t].op.OpRemove?)
    ensures Framed(m, Step(m, t, x), t)
  {
    hide Find;
  }

  lemma FrameLookup(m: Machine, t: nat, x: Input)
    requires t in m.threads && m.threads[t].HaveDb? && !m.threads[t].op.OpAdd? && !m.threads[t].op.OpRemove?
    ensures Framed(m, Step(m, t, x), t)
  {
    hide Find;
  }

  lemma FrameHaveDb(m: Machine, t: nat, x: Input)
    requires t in m.threads && m.threads[t].HaveDb?
    ensures Framed(m, Step(m, t, x), t)
  {
    hide Framed, Step;
    if m.threads[t].op.OpAdd? || m.threads[t].op.OpRemove? {
      FrameWhole(m, t, x);
    } else {
      FrameLookup(m, t, x);
    }
  }

  lemma FrameRec(m: Machine, t: nat, x: Input)
    requires t in m.threads && Mid(m.base, m.db, m.threads[t])
    requires var pc := m.threads[t]; pc.Found? || pc.HaveRec? || pc.RecDone?
    ensures Framed(m, Step(m, t, x), t)
  {
    hide Atomic, SweepMid;
  }

  lemma FrameInRec(m: Machine, t: nat, x: Input)
    requires t in m.threads && InRec(m.threads[t]) && Mid(m.base, m.db, m.threads[t])
    requires !m.threads[t].HaveRec? && !m.threads[t].RecDone?
    ensures Framed(m, Step(m, t, x), t)
  {
    hide Atomic, SweepMid;
  }

  lemma FrameReaping(m: Machine, t: nat, x: Input)
    requires t in m.threads && m.threads[t].Reaping?
    ensures Framed(m, Step(m, t, x), t)
  {
  }

  lemma CriticalFramed(m: Machine, t: nat, x: Input)
    requires t in m.threads && InDb(m.threads[t]) && !m.threads[t].DbDone? && Mid(m.base, m.db, m.threads[t])
    ensures Framed(m, Step(m, t, x), t)
  {
    hide Mid, Step, Framed;
    if m.threads[t].HaveDb? {
      FrameHaveDb(m, t, x);
    } else if m.threads[t].Reaping? {
      FrameReaping(m, t, x);
    } else if m.threads[t].Found? || m.threads[t].HaveRec? || m.threads[t].RecDone? {
      FrameRec(m, t, x);
    } else {
      FrameInRec(m, t, x);
    }
  }

  /** A step inside a critical section keeps every schedule safe. */
  lemma CriticalSafe(start: Db, m: Machine, t: nat, x: Input)
    requires Safe(start, m) && t in m.threads && InDb(m.threads[t]) && !m.threads[t].DbDone?
    ensures Safe(start, Step(m, t, x))
  {
    hide Mid, Step, Sequential, Replay, InRec, BadParams;
    CriticalFramed(m, t, x);
    MidStep(m, t, x);
  }

  lemma ReplaySnoc(start: Db, h: seq<Entry>, e: Entry)
    requires Sequential(start, h)
    ensures var d := Replay(start, h);
            Suitable(d, e.op, e.r) && e.result == Atomic(d, e.op, e.r).1 ==>
              Sequential(start, h + [e]) && Replay(start, h + [e]) == Atomic(d, e.op, e.r).0
  {
    assert (h + [e])[..|h|] == h;
  }

  lemma ReleaseSafe(start: Db, m: Machine, t: nat, x: Input)
    requires Safe(start, m) && t in m.threads && m.threads[t].DbDone?
    ensures Safe(start, Step(m, t, x))
  {
    hide Atomic, Sequential, Replay;
    var DbDone(op, r, result) := m.threads[t];
    ReplaySnoc(start, m.history, Entry(t, op, r, result));
  }

  lemma AcquireSafe(start: Db, m: Machine, t: nat, x: Input)
    requires Safe(start, m) && t in m.threads && m.threads[t].WantDb? && !BadParams(m.threads[t].op)
          && m.threads[t].r.rootErr == 0
    ensures Safe(start, Step(m, t, x))
  {
    hide Atomic, Sequential, Replay, SweepMid;
    ReapStarts(m.db);
  }

  /** An operation that takes no mutex and changes nothing fits in anywhere. */
  lemma LogSafe(start: Db, m: Machine, e: Entry)
    requires Safe(start, m)
    requires var d := Replay(start, m.history); Suitable(d, e.op, e.r) && Atomic(d, e.op, e.r) == (d, e.result)
    ensures Safe(start, m.(history := m.history + [e]))
  {
    hide Sequential, Replay, Mid, Atomic, InRec, BadParams, Suitable;
    ReplaySnoc(start, m.history, e);
  }

  lemma WantSafe(start: Db, m: Machine, t: nat, op: Op, root: int)
    requires Safe(start, m) && t in m.threads && m.threads[t].Idle? && !BadParams(op)
    ensures Safe(start, Goto(m, t, WantDb(op, NO_STAT.(root := root))))
  {
    hide Sequential, Replay, Mid, Atomic, BadParams;
  }

  lemma BeginSafe(start: Db, m: Machine, t: nat, x: Input)
    requires Safe(start, m) && t in m.threads && m.threads[t].Idle?
    ensures Safe(start, Step(m, t, x))
  {
    hide Safe, Replay, Atomic, BadParams;
    var d := Replay(start, m.history);
    if BadParams(x.op) {
      RefusedIsAtomic(d, x.op);
      LogSafe(start, m, Entry(t, x.op, NO_REPLIES, Status(Outcome(-EINVAL, PA_INVALID_INPUT))));
    } else if x.op.OpStat? && x.reply != 0 {
      RootlessIsAtomic(d, x.op, x.reply);
      LogSafe(start, m, Entry(t, x.op, NoRoot(x.reply), Statted(StatResult(x.reply, 0, 0))));
    } else {
      WantSafe(start, m, t, x.op, x.value);
    }
  }

  lemma RootlessIsAtomic(d: Db, op: Op, err: int)
    requires op.OpStat? && err != 0
    ensures Suitable(d, op, NoRoot(err)) && Atomic(d, op, NoRoot(err)) == (d, Statted(StatResult(err, 0, 0)))
  {
  }

  /** A request with bad parameters is refused the same way wherever it falls. */
  lemma RefusedIsAtomic(d: Db, op: Op)
    requires BadParams(op)
    ensures Suitable(d, op, NO_REPLIES) && Atomic(d, op, NO_REPLIES) == (d, Status(Outcome(-EINVAL, PA_INVALID_INPUT)))
  {
  }

  /** Every step of every thread is safe. */
  lemma StepSafe(start: Db, m: Machine, t: nat, x: Input)
    requires Safe(start, m) && t in m.threads
    ensures Safe(start, Step(m, t, x))
  {
    if m.threads[t].Idle? {
      BeginSafe(start, m, t, x);
    } else if m.threads[t].WantDb? {
      AcquireSafe(start, m, t, x);
    } else if m.threads[t].DbDone? {
      ReleaseSafe(start, m, t, x);
    } else {
      CriticalSafe(start, m, t, x);
    }
  }

  datatype Turn = Turn(thread: nat, input: Input)

  /** A schedule: which thread moves, and what the kernel and the clients supply. */
  function Execute(m: Machine, turns: seq<Turn>): Machine
    decreases |turns|
  {
    if turns == [] then m
    else if turns[0].thread !in m.threads then Execute(m, turns[1..])
    else Execute(Step(m, turns[0].thread, turns[0].input), turns[1..])
  }

  ghost predicate StartsIdle(m: Machine) {
    m.dbLock == None && m.recLocks == map[] && m.history == [] && forall t :: t in m.threads ==> m.threads[t].Idle?
  }

  lemma StartSafe(m: Machine)
    requires StartsIdle(m)
    ensures Safe(m.db, m)
  {
  }

  lemma {:induction false} ExecuteSafe(start: Db, m: Machine, turns: seq<Turn>)
    requires Safe(start, m)
    ensures Safe(start, Execute(m, turns))
    decreases |turns|
  {
    hide Safe, Step;
    if turns != [] {
      if turns[0].thread in m.threads {
        StepSafe(start, m, turns[0].thread, turns[0].input);
        ExecuteSafe(start, Step(m, turns[0].thread, turns[0].input), turns[1..]);
      } else {
        ExecuteSafe(start, m, turns[1..]);
      }
    }
  }

  /**
   Linearizability: under every schedule, the results the threads have had are
   those of atomic operations done one after the other in the order of the
   history, and whenever the database mutex is free the database is what those
   operations leave.
   */
  lemma Linearizable(m: Machine, turns: seq<Turn>)
    requires StartsIdle(m)
    ensures var n := Execute(m, turns);
            && Sequential(m.db, n.history)
            && (n.dbLock == None ==> n.db == Replay(m.db, n.history))
  {
    StartSafe(m);
    ExecuteSafe(m.db, m, turns);
  }

  /** The database mutex is held by at most one thread, and a record mutex only by that thread, for a UID it found. */
  lemma LockDiscipline(m: Machine, turns: seq<Turn>, t: nat, u: nat)
    requires StartsIdle(m)
    requires var n := Execute(m, turns); t in n.threads && u in n.threads && InDb(n.threads[t])
    ensures var n := Execute(m, turns);
            && (InDb(n.threads[u]) ==> u == t)
            && (InRec(n.threads[u]) ==> u == t && OnRecord(n.base, n.threads[u].op, n.threads[u].k))
            && (forall uid :: uid in n.recLocks ==> n.recLocks[uid] == t)
  {
    StartSafe(m);
    ExecuteSafe(m.db, m, turns);
  }

  /** When the database mutex is free so is every record mutex. */
  lemma AllReleased(m: Machine, turns: seq<Turn>)
    requires StartsIdle(m) && Execute(m, turns).dbLock == None
    ensures Execute(m, turns).recLocks == map[]
  {
    StartSafe(m);
    ExecuteSafe(m.db, m, turns);
  }

  /** How many turns of its own a thread is away from releasing the database mutex. */
  function TurnsLeft(m: Machine, t: nat): nat
    requires t in m.threads
  {
    match m.threads[t]
    case Idle => 0
    case WantDb(_, _) => 0
    case HaveDb(_, _) => 9
    case Found(_, _, _) => 8
    case HaveRec(_, _, _) => 7
    case Created(_, _, _) => 6
    case Tapped(_, _, _) => 5
    case Rated(_, _, _) => 4
    case RateRefused(_, _, _) => 4
    case MustPut(_, _, _, _) => 3
    case Exposing(_, _, _) => 3
    case RateSet(_, _, _) => 3
    case RecDone(_, _, _, _) => 2
    case Reaping(j, _, _) => if j <= |m.db.dead| then 2 + |m.db.dead| - j else 2
    case DbDone(_, _, _) => 1
  }

  lemma CloserToRelease(m: Machine, t: nat, x: Input)
    requires t in m.threads && InDb(m.threads[t]) && !m.threads[t].DbDone? && Mid(m.base, m.db, m.threads[t])
    requires m.threads[t].Found? ==> m.threads[t].op.uid !in m.recLocks
    ensures TurnsLeft(Step(m, t, x), t) < TurnsLeft(m, t)
  {
    hide Mid, Step, TurnsLeft;
    if m.threads[t].Reaping? {
      CloserReaping(m, t, x);
    } else if m.threads[t].HaveDb? || m.threads[t].Found? || m.threads[t].HaveRec? {
      CloserEarly(m, t, x);
    } else {
      CloserLate(m, t, x);
    }
  }

  lemma CloserReaping(m: Machine, t: nat, x: Input)
    requires t in m.threads && m.threads[t].Reaping? && Mid(m.base, m.db, m.threads[t])
    ensures TurnsLeft(Step(m, t, x), t) < TurnsLeft(m, t)
  {
    hide SweepMid;
    var Reaping(j, rs, err) := m.threads[t];
    ReapBound(m.base, m.db, j, rs, err);
  }

  lemma CloserEarly(m: Machine, t: nat, x: Input)
    requires t in m.threads && Mid(m.base, m.db, m.threads[t])
    requires m.threads[t].HaveDb? || m.threads[t].HaveRec?
          || (m.threads[t].Found? && m.threads[t].op.uid !in m.recLocks)
    ensures TurnsLeft(Step(m, t, x), t) < TurnsLeft(m, t)
  {
    hide Find;
  }

  lemma CloserLate(m: Machine, t: nat, x: Input)
    requires t in m.threads && InRec(m.threads[t]) && !m.threads[t].HaveRec? && Mid(m.base, m.db, m.threads[t])
    ensures TurnsLeft(Step(m, t, x), t) < TurnsLeft(m, t)
  {
    hide Atomic, Find;
  }

  lemma HolderFacts(start: Db, m: Machine, t: nat)
    requires Safe(start, m) && t in m.threads && InDb(m.threads[t])
    ensures Mid(m.base, m.db, m.threads[t])
    ensures m.threads[t].Found? ==> m.threads[t].op.uid !in m.recLocks
    ensures m.threads[t].DbDone? ==> m.recLocks == map[]
  {
    hide Mid, Sequential, Replay;
    assert m.threads[t].DbDone? ==> m.recLocks.Keys == {};
  }

  /** A thread's own turn inside its critical section releases everything, or brings it nearer to that. */
  lemma OwnTurn(start: Db, m: Machine, t: nat, x: Input)
    requires Safe(start, m) && t in m.threads && InDb(m.threads[t])
    ensures var n := Step(m, t, x);
            if m.threads[t].DbDone? then n.dbLock == None && n.recLocks == map[] && n.threads[t].Idle?
            else InDb(n.threads[t]) && TurnsLeft(n, t) < TurnsLeft(m, t)
  {
    hide Mid, Safe, Step, TurnsLeft;
    HolderFacts(start, m, t);
    if m.threads[t].DbDone? {
      Release(m, t, x);
    } else {
      CriticalFramed(m, t, x);
      CloserToRelease(m, t, x);
    }
  }

  lemma Release(m: Machine, t: nat, x: Input)
    requires t in m.threads && m.threads[t].DbDone?
    ensures var n := Step(m, t, x); n.dbLock == None && n.recLocks == m.recLocks && n.threads[t].Idle?
  {
  }

  /** Turns of one thread only. */
  function Alone(m: Machine, t: nat, xs: seq<Input>): (n: Machine)
    requires t in m.threads
    ensures n.threads.Keys == m.threads.Keys
    decreases |xs|
  {
    if xs == [] then m else Alone(Step(m, t, xs[0]), t, xs[1..])
  }

  lemma {:induction false} HolderReleases(start: Db, m: Machine, t: nat, xs: seq<Input>) returns (k: nat)
    requires Safe(start, m) && t in m.threads && InDb(m.threads[t]) && TurnsLeft(m, t) <= |xs|
    ensures 0 < k <= TurnsLeft(m, t)
    ensures var n := Alone(m, t, xs[..k]); n.dbLock == None && n.recLocks == map[] && n.threads[t].Idle?
    decreases |xs|
  {
    hide Safe, Step;
    HolderFacts(start, m, t);
    var n := Step(m, t, xs[0]);
    StepSafe(start, m, t, xs[0]);
    OwnTurn(start, m, t, xs[0]);
    if m.threads[t].DbDone? {
      k := 1;
      assert xs[..1][1..] == [];
    } else {
      var rest := HolderReleases(start, n, t, xs[1..]);
      k := rest + 1;
      assert xs[..k][1..] == xs[1..][..rest];
    }
  }

  /**
   On every path all mutexes are released: wherever a schedule stops, the thread
   that holds the database mutex gives up every mutex within `TurnsLeft` turns of
   its own, whatever the kernel replies.
   */
  lemma Releases(m: Machine, turns: seq<Turn>, t: nat, xs: seq<Input>) returns (k: nat)
    requires StartsIdle(m)
    requires var n := Execute(m, turns); t in n.threads && InDb(n.threads[t]) && TurnsLeft(n, t) <= |xs|
    ensures 0 < k <= TurnsLeft(Execute(m, turns), t)
    ensures var n := Alone(Execute(m, turns), t, xs[..k]);
            n.dbLock == None && n.recLocks == map[] && n.threads[t].Idle?
  {
    hide TurnsLeft, Alone;
    StartSafe(m);
    ExecuteSafe(m.db, m, turns);
    k := HolderReleases(m.db, Execute(m, turns), t, xs);
  }

  /** No one ever waits for a record mutex, so taking it second cannot deadlock. */
  lemma RecordMutexFree(m: Machine, turns: seq<Turn>, t: nat, x: Input)
    requires StartsIdle(m)
    requires var n := Execute(m, turns); t in n.threads && n.threads[t].Found?
    ensures Step(Execute(m, turns), t, x).threads[t].HaveRec?
  {
    StartSafe(m);
    ExecuteSafe(m.db, m, turns);
  }

  /** A step of a client never changes a dead record: it can only add one at the end. */
  lemma ClientsLeaveTheDead(m: Machine, turns: seq<Turn>, t: nat, x: Input)
    requires StartsIdle(m)
    requires var n := Execute(m, turns); t in n.threads && !n.threads[t].Reaping?
    ensures var n := Execute(m, turns); n.db.dead <= Step(n, t, x).db.dead
  {
  }

  /** The record a client is about to read or write is the active record of its UID. */
  lemma ClientsTouchActiveRecords(m: Machine, turns: seq<Turn>, t: nat)
    requires StartsIdle(m)
    requires var n := Execute(m, turns); t in n.threads && InRec(n.threads[t]) && !n.threads[t].RecDone?
    ensures var n := Execute(m, turns); var pc := n.threads[t];
            && !pc.op.OpReap? && pc.k < |n.db.active| && n.db.active[pc.k].uid == pc.op.uid
  {
    hide Execute, Atomic, Sequential, Replay, SweepMid;
    StartSafe(m);
    ExecuteSafe(m.db, m, turns);
    var n := Execute(m, turns);
    assert Mid(n.base, n.db, n.threads[t]);
  }

  // --- The operations do not depend on what else the kernel holds ---

  lemma {:induction false} SweepAnyKernel(s: State, t: State, j: nat, rs: seq<ReapReply>)
    requires DbOf(s) == DbOf(t) && j + |rs| == |s.dead|
    ensures DbOf(Sweep(s, j, rs)) == DbOf(Sweep(t, j, rs))
    decreases |rs|
  {
    if rs != [] {
      if Destroyable(s.dead[j], rs[0]) {
        SweepAnyKernel(Destroy(s, s.dead[j], rs[0]).(dead := s.dead[..j] + s.dead[j + 1..]),
                       Destroy(t, t.dead[j], rs[0]).(dead := t.dead[..j] + t.dead[j + 1..]), j, rs[1..]);
      } else {
        SweepAnyKernel(s, t, j + 1, rs[1..]);
      }
    }
  }

  /** The request that an operation stands for, on a state with its kernel. */
  ghost function Request(s: State, op: Op, r: Replies): (State, Result)
    requires Suitable(DbOf(s), op, r)
  {
    match op
    case OpAdd(uid, t, v) => (AddParams(s, uid, t, v).0, Status(AddParams(s, uid, t, v).1))
    case OpRemove(uid) => (RemoveParams(s, uid).0, Removed(RemoveParams(s, uid).1))
    case OpGet(uid) => (s, Got(GetParams(s, uid)))
    case OpSet(uid, t, v) => (SetParams(s, uid, t, v, r.stat.rate).0, Status(SetParams(s, uid, t, v, r.stat.rate).1))
    case OpStat(uid, pid) => (Stat(s, uid, pid, r.stat).0, Statted(Stat(s, uid, pid, r.stat).1))
    case OpReap =>
      var s' := Sweep(s, 0, r.reap);
      (s', Reaped(SweepError(s.dead, r.reap, 0), s'.dead == []))
  }

  /** The atomic operations are the arbiter's requests, seen without the kernel. */
  lemma AtomicIsRequest(s: State, op: Op, r: Replies)
    requires Suitable(DbOf(s), op, r)
    ensures Atomic(DbOf(s), op, r) == (DbOf(Request(s, op, r).0), Request(s, op, r).1)
  {
    if op.OpReap? {
      SweepAnyKernel(InKernel(DbOf(s), NO_KERNEL), s, 0, r.reap);
    }
  }
}
