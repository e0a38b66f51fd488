/** Runs of the arbiter on its own data structures. */
module Arbiter {
  import opened Options
  import opened BucketTable
  import opened CircularList
  import opened ArbiterSpec
  import opened ArbiterInvariant
  import opened ArbiterRuns
  import opened ReaperPass
  import opened Sequences
  import opened Dbase
  import opened Controller

  /** An addition: at most one new record. */
  method Enter(db: Database, e: Event)
    requires db.Valid() && e.Add?
    modifies db, db.data.Repr
    ensures db.Valid() && db.View() == Step(old(db.View()), e)
    ensures fresh(db.data.Repr - old(db.data.Repr)) && db.dead == old(db.dead) && db.destroyed == old(db.destroyed)
    ensures forall r :: r in db.active ==> r in old(db.active) || (fresh(r) && fresh(r.deadLink))
  {
    hide Database.Valid, AddParams;
    db.Parts();
    var _ := AddReserveParams(db, e.uid, e.tapType, e.tapValue);
  }

  /** A removal, or the emptying at shutdown: records only join the dead list. */
  method Leave(db: Database, e: Event)
    requires db.Valid() && (e.Remove? || e.EmptyAll?)
    modifies db, db.data.Repr, db.deadList, Links(db.active), Links(db.dead)
    ensures db.Valid() && db.View() == Step(old(db.View()), e)
    ensures db.data.Repr == old(db.data.Repr) && db.destroyed == old(db.destroyed)
    ensures forall r :: r in db.active || r in db.dead ==> r in old(db.active) || r in old(db.dead)
    ensures forall r :: r in old(db.dead) ==> r in db.dead
  {
    hide Database.Valid, RemoveParams, ArbiterSpec.Empty, Ring, Views;
    db.Parts();
    match e
    case Remove(uid) =>
      var _ := db.RemoveEntry(uid);
    case EmptyAll => db.Empty();
  }

  /** A request that changes a record, a pass of the reaper, or a move of the rest of the system. */
  method Update(db: Database, e: Event)
    requires db.Valid() && Enabled(db.View(), e) && !e.Add? && !e.Remove? && !e.EmptyAll?
    modifies db, db.deadList, db.active, Links(db.dead)
    ensures db.Valid() && db.View() == Step(old(db.View()), e)
    ensures db.data.Repr == old(db.data.Repr) && db.active == old(db.active)
          && forall r :: r in db.dead ==> r in old(db.dead)
    ensures !e.Reap? ==> db.dead == old(db.dead) && db.destroyed == old(db.destroyed)
    ensures e.Reap? ==>
              db.destroyed == old(db.destroyed) + Picked(old(db.dead), old(Views(db.dead)), e.counts, |e.counts|)
    ensures e.Reap? ==> forall i :: 0 <= i < |e.counts| ==>
                          (old(db.dead)[i] in db.dead <==> !Destroyable(old(db.dead[i].View()), e.counts[i]))
  {
    hide Database.Valid, SetParams, Stat, Sweep, Environment, FreshIds, Ring, Views, SweepError, GetParams, Picked;
    db.Parts();
    match e
    case Set(uid, t, v, reply) =>
      var _ := SetTapParams(db, uid, t, v, reply);
    case StatReq(uid, pid, r) =>
      var _ := StatReserve(db, uid, pid, r);
    case Reap(rs) =>
      var _, _ := db.ClearUnused(rs);
    case World(k) => db.SetKernel(k);
  }

  /** The calls of reserveRecordDestroy that an event makes. */
  ghost function DestroyedBy(s: State, e: Event): seq<Call>
    requires Enabled(s, e)
  {
    if e.Reap? then Doomed(s.dead, e.counts) else []
  }

  /** Those of a whole run, in order. */
  ghost function RunCalls(s: State, es: seq<Event>, t: State): seq<Call>
    requires Runs(s, es, t)
    decreases |es|
  {
    if es == [] then [] else DestroyedBy(s, es[0]) + RunCalls(Step(s, es[0]), es[1..], t)
  }

  lemma CallUidsAppend(a: seq<Call>, b: seq<Call>)
    ensures CallUids(a + b) == CallUids(a) + CallUids(b)
  {
  }

  lemma UidsAppend(a: seq<Record>, b: seq<Record>)
    ensures Uids(a + b) == Uids(a) + Uids(b)
  {
  }

  lemma {:induction false} PickedWhich(all: seq<Record>, views: seq<Rec>, replies: seq<ReapReply>, n: nat)
    requires n <= |all| == |views| == |replies| && Distinct(all)
    ensures forall i :: 0 <= i < |all| ==> (all[i] in Picked(all, views, replies, n)
                                            <==> i < n && Destroyable(views[i], replies[i]))
    ensures forall r :: r in Picked(all, views, replies, n) ==> r in all
  {
    hide Destroyable;
    if n > 0 {
      PickedWhich(all, views, replies, n - 1);
    }
  }

  /** One event. What it destroys is appended to the log of the database. */
  method Handle(db: Database, e: Event) returns (ghost gone: seq<Record>)
    requires db.Valid() && Enabled(db.View(), e)
    modifies db, db.data.Repr, db.deadList, db.active, Links(db.active), Links(db.dead)
    ensures db.Valid() && db.View() == Step(old(db.View()), e)
    ensures fresh(db.data.Repr - old(db.data.Repr))
    ensures forall r :: r in db.active || r in db.dead ==>
                          r in old(db.active) || r in old(db.dead) || (fresh(r) && fresh(r.deadLink))
    ensures db.destroyed == old(db.destroyed) + gone && Uids(gone) == CallUids(DestroyedBy(old(db.View()), e))
    ensures forall r :: r in gone ==> r in old(db.dead) && r !in db.active && r !in db.dead
    ensures if e.Reap? then forall i :: 0 <= i < |e.counts| ==>
                              (old(db.dead)[i] in gone <==> Destroyable(old(db.dead[i].View()), e.counts[i]))
            else gone == []
  {
    hide Database.Valid, Step, Enabled, Destroyable, Distinct, Doomed, Picked;
    DeadDistinct(db);
    ghost var before, views := db.dead, Views(db.dead);
    CountsFit(db, e);
    if e.Add? {
      Enter(db, e);
    } else if e.Remove? || e.EmptyAll? {
      Leave(db, e);
    } else {
      Update(db, e);
    }
    gone := if e.Reap? then Picked(before, views, e.counts, |e.counts|) else [];
    if e.Reap? {
      PickedWhich(before, views, e.counts, |e.counts|);
      PickedDoomed(before, views, e.counts, |e.counts|);
      assert views[..|e.counts|] == views && e.counts[..|e.counts|] == e.counts;
    }
    BuriedNow(db);
  }

  lemma CountsFit(db: Database, e: Event)
    requires Enabled(db.View(), e)
    ensures e.Reap? ==> |e.counts| == |db.dead|
  {
  }

  lemma DeadDistinct(db: Database)
    requires db.Valid()
    ensures Distinct(db.dead)
  {
  }

  lemma BuriedNow(db: Database)
    requires db.Valid()
    ensures forall r :: r in db.destroyed ==> r !in db.active && r !in db.dead
  {
  }

  lemma RunOver(s: State, es: seq<Event>, t: State)
    requires Runs(s, es, t)
    ensures es == [] ==> s == t && RunCalls(s, es, t) == []
  {
  }

  /** The next event of a run. */
  method Proceed(db: Database, rest: seq<Event>, ghost t: State)
    requires db.Valid() && rest != [] && Runs(db.View(), rest, t)
    modifies db, db.data.Repr, db.deadList, db.active, Links(db.active), Links(db.dead)
    ensures db.Valid() && Runs(db.View(), rest[1..], t)
    ensures Uids(db.destroyed) + CallUids(RunCalls(db.View(), rest[1..], t)) ==
            old(Uids(db.destroyed) + CallUids(RunCalls(db.View(), rest, t)))
    ensures fresh(db.data.Repr - old(db.data.Repr))
    ensures forall r :: r in db.active || r in db.dead ==>
                          r in old(db.active) || r in old(db.dead) || (fresh(r) && fresh(r.deadLink))
  {
    hide Database.Valid, Enabled, Step, DestroyedBy, Uids, CallUids;
    ghost var now, had := DestroyedBy(db.View(), rest[0]), db.destroyed;
    ghost var gone := Handle(db, rest[0]);
    ghost var later := RunCalls(db.View(), rest[1..], t);
    UidsAppend(had, gone);
    CallUidsAppend(now, later);
    Assoc(Uids(had), CallUids(now), CallUids(later));
  }

  /**
   Every run from start-up leaves the tables and lists in a state that satisfies
   the invariant, and is the state that the requests lead to as values. The log of
   the database has the records of exactly the calls of reserveRecordDestroy that
   the run makes, in order; none is in it twice, and none is still in the database.
   */
  method RunAll(fcn: HashFcn, bloomBits: Option<nat>, kernel: Kernel, es: seq<Event>, ghost t: State)
    returns (db: Database)
    requires Held(kernel) == {} && Runs(State([], [], kernel, {}), es, t)
    ensures db.Valid() && db.View() == t && Inv(t)
    ensures Uids(db.destroyed) == CallUids(RunCalls(State([], [], kernel, {}), es, t))
    ensures Buried(db.destroyed, db.active, db.dead)
  {
    hide Database.Valid, Inv, Enabled, Step, DestroyedBy, RunCalls, Runs, Buried;
    db := new Database(fcn, bloomBits, kernel);
    ghost var uids := CallUids(RunCalls(db.View(), es, t));
    InitialInv(db.View());
    EveryRunInv(db.View(), es, t);
    assert Uids([]) + uids == uids;
    var i := 0;
    while i < |es|
      invariant i <= |es| && db.Valid() && Runs(db.View(), es[i..], t)
      invariant fresh(db) && fresh(db.data.Repr) && fresh(db.deadList)
      invariant forall r :: r in db.active || r in db.dead ==> fresh(r) && fresh(r.deadLink)
      invariant Uids(db.destroyed) + CallUids(RunCalls(db.View(), es[i..], t)) == uids
    {
      assert forall k {:trigger Links(db.active)[k]} :: 0 <= k < |db.active| ==> fresh(Links(db.active)[k]);
      assert forall k {:trigger Links(db.dead)[k]} :: 0 <= k < |db.dead| ==> fresh(Links(db.dead)[k]);
      Proceed(db, es[i..], t);
      assert es[i..][1..] == es[i + 1..];
      i := i + 1;
    }
    RunOver(db.View(), es[i..], t);
    assert Uids(db.destroyed) + [] == Uids(db.destroyed);
    LogIsBuried(db);
  }

  lemma LogIsBuried(db: Database)
    requires db.Valid()
    ensures Buried(db.destroyed, db.active, db.dead)
  {
  }
}
