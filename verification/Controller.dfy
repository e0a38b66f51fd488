/** The requests of controller.c, step by step on the database, given the kernel's replies. */
module Controller {
  import opened Sequences
  import opened Options
  import opened UtHash
  import opened CircularList
  import opened ArbiterSpec
  import opened Dbase

  /** cinder_put_reserve on the way out of a failed stat */
  method PutNewReserve(db: Database, rid: int, reply: int)
    requires db.Valid()
    modifies db`kernel, db`leaked
    ensures db.Valid() && db.View() == GiveUp(old(db.View()), rid, reply)
  {
    hide Hash.Valid, Ring, UidKey, Contained, OutsideOf, Distinct;
    db.Parts();
    if reply == 0 {
      db.SetKernel(PutReserve(db.kernel, rid, 0));
    } else {
      db.leaked := db.leaked + {rid};
    }
  }

  lemma ViewAt(db: Database, k: nat)
    requires db.Valid() && k < |db.active|
    ensures |db.View().active| == |db.active| && db.View().active[k] == db.active[k].View()
  {
  }

  /** The update of a record whose reserve and tap are made. */
  method SetIds(db: Database, record: Record, ghost k: nat, ids: Ids)
    requires db.Valid() && k < |db.active| && record == db.active[k]
    modifies record`made
    ensures db.Valid()
    ensures var s := old(db.View()); db.View() == s.(active := s.active[k := s.active[k].(made := Some(ids))])
  {
    hide Hash.Valid, Ring, UidKey, Contained, OutsideOf, Distinct;
    db.ActiveRecord(k);
    record.made := Some(ids);
    assert Views(db.active) == old(Views(db.active))[k := record.View()];
  }

  /** The update of a record's parameters. */
  method SetData(db: Database, record: Record, ghost k: nat, tapType: int, tapValue: int)
    requires db.Valid() && k < |db.active| && record == db.active[k]
    modifies record`tapType, record`tapValue
    ensures db.Valid()
    ensures var s := old(db.View());
            db.View() == s.(active := s.active[k := s.active[k].(tapType := tapType, tapValue := tapValue)])
  {
    hide Hash.Valid, Ring, UidKey, Contained, OutsideOf, Distinct;
    db.ActiveRecord(k);
    record.tapType := tapType;
    record.tapValue := tapValue;
    assert Views(db.active) == old(Views(db.active))[k := record.View()];
  }

  /** The part of statReserve that creates the reserve and the tap of a record, or undoes what it created. */
  method MakeReserve(db: Database, record: Record, ghost k: nat, r: StatReplies) returns (err: int)
    requires db.Valid() && k < |db.active| && record == db.active[k]
    modifies db`kernel, db`leaked, record`made
    ensures db.Valid() && (db.View(), err) == Make(old(db.View()), k, r)
  {
    hide Database.Valid, Views;
    ViewAt(db, k);
    if r.create < 0 {
      return r.create;
    }
    db.SetKernel(CreateReserve(db.kernel, r.create));
    if r.tap < 0 {
      PutNewReserve(db, r.create, r.put);
      return r.tap;
    }
    db.SetKernel(CreateTap(db.kernel, r.root, r.create, r.tap));
    if r.rate != 0 {
      db.SetKernel(DeleteTap(db.kernel, r.tap, r.deleteTap));
      PutNewReserve(db, r.create, r.put);
      return r.rate;
    }
    db.SetKernel(SetRate(db.kernel, r.tap, record.tapType, record.tapValue, 0));
    SetIds(db, record, k, Ids(r.create, r.tap));
    err := 0;
  }

  /** statReserve */
  method StatReserve(db: Database, uid: nat, pid: int, r: StatReplies) returns (result: StatResult)
    requires db.Valid()
    modifies db`kernel, db`leaked, db.active`made
    ensures db.Valid() && (db.View(), result) == Stat(old(db.View()), uid, pid, r)
  {
    hide Hash.Valid, Ring, UidKey, Contained, OutsideOf, Distinct, Make, Find, Views;
    if r.rootErr != 0 {
      return StatResult(r.rootErr, 0, 0);
    }
    var record := db.Lookup(uid);
    if record == null {
      return StatResult(0, PA_USE_ROOT_RESERVE, r.root);
    }
    ghost var k := Find(Views(db.active), uid);
    if record.made.None? {
      var err := MakeReserve(db, record, k, r);
      if err != 0 {
        return StatResult(err, 0, 0);
      }
    }
    assert db.View().active[k] == record.View();
    if r.expose != 0 {
      return StatResult(r.expose, 0, 0);
    }
    db.SetKernel(Expose(db.kernel, pid, record.made.value.rid, 0));
    result := StatResult(0, PA_RESERVE_GRANTED, record.made.value.rid);
  }

  /** getTapParams */
  method GetTapParams(db: Database, uid: nat) returns (err: int, tapType: int, tapValue: int)
    requires db.Valid()
    ensures match GetParams(db.View(), uid)
            case None => err == -ENOENT
            case Some(p) => err == 0 && (tapType, tapValue) == p
  {
    var record := db.Lookup(uid);
    if record == null {
      err, tapType, tapValue := -ENOENT, 0, 0;
    } else {
      ghost var k := Find(Views(db.active), uid);
      assert db.View().active[k] == record.View();
      err, tapType, tapValue := 0, record.tapType, record.tapValue;
    }
  }

  /** setTapParams */
  method SetTapParams(db: Database, uid: nat, tapType: int, tapValue: int, rateReply: int) returns (out: Outcome)
    requires db.Valid()
    modifies db`kernel, db.active`tapType, db.active`tapValue
    ensures db.Valid() && (db.View(), out) == SetParams(old(db.View()), uid, tapType, tapValue, rateReply)
    ensures out.error == 3 <==> (tapType != 1 && tapType != 2) || tapValue < 0 || (tapType == 2 && tapValue > 100)
    ensures out.error == 3 ==> out.err == -22 && db.View() == old(db.View())
  {
    hide Hash.Valid, Ring, UidKey, Contained, OutsideOf, Distinct, SetRate, Find;
    if (tapType != CONSTANT && tapType != PROPORTIONAL) || tapValue < 0 {
      return Outcome(-EINVAL, PA_INVALID_INPUT);
    }
    if tapType == PROPORTIONAL && tapValue > 100 {
      return Outcome(-EINVAL, PA_INVALID_INPUT);
    }
    var record := db.Lookup(uid);
    if record == null {
      return Outcome(-ENOENT, 0);
    }
    ghost var k := Find(Views(db.active), uid);
    db.ActiveRecord(k);
    assert db.View().active[k] == record.View();
    if record.made.Some? {
      if rateReply != 0 {
        return Outcome(rateReply, 0);
      }
      db.SetKernel(SetRate(db.kernel, record.made.value.tid, tapType, tapValue, 0));
    }
    SetData(db, record, k, tapType, tapValue);
    out := Outcome(0, 0);
  }

  /** addReserveParamsForUID */
  method AddReserveParams(db: Database, uid: nat, tapType: int, tapValue: int) returns (out: Outcome)
    requires db.Valid()
    modifies db`ofHandle, db`ofLink, db`active, db.data.Repr
    ensures db.Valid() && (db.View(), out) == AddParams(old(db.View()), uid, tapType, tapValue)
    ensures out.error == 3 <==> (tapType != 1 && tapType != 2) || tapValue < 0 || (tapType == 2 && tapValue > 100)
    ensures out.error == 3 ==> out.err == -22 && db.View() == old(db.View())
    ensures fresh(db.data.Repr - old(db.data.Repr))
    ensures forall r :: r in db.active ==> r in old(db.active) || (fresh(r) && fresh(r.deadLink))
  {
    if (tapType != CONSTANT && tapType != PROPORTIONAL) || tapValue < 0 {
      return Outcome(-EINVAL, PA_INVALID_INPUT);
    }
    if tapType == PROPORTIONAL && tapValue > 100 {
      return Outcome(-EINVAL, PA_INVALID_INPUT);
    }
    var err := db.AddEntry(uid, tapType, tapValue);
    out := Outcome(err, 0);
  }
}
