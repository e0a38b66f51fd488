/** What clients may rely on: the requests are operations on a map from UID to tap parameters. */
module UidMap {
  import opened Options
  import opened ArbiterSpec
  import opened ArbiterInvariant

  ghost function AsMap(s: seq<Rec>): map<nat, (int, int)> {
    if s == [] then map[]
    else
      var r := s[|s| - 1];
      AsMap(s[..|s| - 1])[r.uid := (r.tapType, r.tapValue)]
  }

  lemma {:induction false} MapFinds(s: seq<Rec>, uid: nat)
    ensures uid in AsMap(s) <==> Find(s, uid) >= 0
    ensures Find(s, uid) >= 0 ==> AsMap(s)[uid] == (s[Find(s, uid)].tapType, s[Find(s, uid)].tapValue)
  {
    if s != [] {
      MapFinds(s[..|s| - 1], uid);
    }
  }

  /** With one record a UID, any position of the UID is the one found. */
  lemma FindUnique(s: seq<Rec>, k: nat)
    requires UniqueUids(s) && k < |s|
    ensures Find(s, s[k].uid) == k
  {
  }

  /** Two record sequences with the same UIDs and parameters give the same map. */
  lemma SameMap(m: map<nat, (int, int)>, n: map<nat, (int, int)>)
    requires forall u :: u in m <==> u in n
    requires forall u :: u in m && u in n ==> m[u] == n[u]
    ensures m == n
  {
  }

  lemma AddIsMapAdd(s: State, uid: nat, t: int, v: int)
    ensures var m := AsMap(s.active); var (s', out) := AddParams(s, uid, t, v); var m' := AsMap(s'.active);
            if (t != 1 && t != 2) || v < 0 || (t == 2 && v > 100) then out == Outcome(-22, 3) && m' == m
            else if uid in m then out == Outcome(-17, 0) && m' == m
            else out == Outcome(0, 0) && m' == m[uid := (t, v)]
  {
    MapFinds(s.active, uid);
    var r := Rec(uid, None, t, v);
    assert (s.active + [r])[..|s.active|] == s.active;
  }

  lemma GetIsMapGet(s: State, uid: nat)
    ensures var m := AsMap(s.active); GetParams(s, uid) == if uid in m then Some(m[uid]) else None
  {
    MapFinds(s.active, uid);
  }

  lemma RemovedUid(s: seq<Rec>, k: nat, u: nat)
    requires UniqueUids(s) && k < |s|
    ensures var t := s[..k] + s[k + 1..];
            && (u in AsMap(t) <==> u in AsMap(s) && u != s[k].uid)
            && (u in AsMap(t) ==> AsMap(t)[u] == AsMap(s)[u])
  {
    var t := s[..k] + s[k + 1..];
    MapFinds(s, u);
    MapFinds(t, u);
    UniqueRemove(s, k);
    var i := Find(s, u);
    if i >= 0 && i != k {
      var j := if i < k then i else i - 1;
      assert t[j] == s[i];
      FindUnique(t, j);
    }
    if Find(t, u) >= 0 {
      var j := Find(t, u);
      assert t[j] == s[if j < k then j else j + 1];
    }
  }

  lemma RemoveIsMapRemove(s: State, uid: nat)
    requires UniqueUids(s.active)
    ensures var m := AsMap(s.active); var (s', err) := RemoveParams(s, uid); var m' := AsMap(s'.active);
            if uid in m then err == 0 && m' == m - {uid} else err == -2 && m' == m
  {
    MapFinds(s.active, uid);
    var k := Find(s.active, uid);
    if k >= 0 {
      forall u
        ensures var t := s.active[..k] + s.active[k + 1..];
                && (u in AsMap(t) <==> u in AsMap(s.active) && u != uid)
                && (u in AsMap(t) ==> AsMap(t)[u] == AsMap(s.active)[u])
      {
        RemovedUid(s.active, k, u);
      }
      SameMap(AsMap(s.active[..k] + s.active[k + 1..]), AsMap(s.active) - {uid});
    }
  }

  lemma ReplacedUid(s: seq<Rec>, k: nat, r: Rec, u: nat)
    requires UniqueUids(s) && k < |s| && r.uid == s[k].uid
    ensures var t := s[k := r];
            && (u in AsMap(t) <==> u in AsMap(s))
            && (u in AsMap(t) ==> AsMap(t)[u] == if u == r.uid then (r.tapType, r.tapValue) else AsMap(s)[u])
  {
    var t := s[k := r];
    MapFinds(s, u);
    MapFinds(t, u);
    assert UniqueUids(t);
    if Find(s, u) >= 0 {
      FindUnique(t, Find(s, u));
      FindUnique(t, k);
    }
    if Find(t, u) >= 0 {
      FindUnique(s, Find(t, u));
    }
  }

  lemma ReplaceIsMapUpdate(s: seq<Rec>, k: nat, r: Rec)
    requires UniqueUids(s) && k < |s| && r.uid == s[k].uid
    ensures AsMap(s[k := r]) == AsMap(s)[r.uid := (r.tapType, r.tapValue)]
  {
    forall u
      ensures var t := s[k := r];
              && (u in AsMap(t) <==> u in AsMap(s))
              && (u in AsMap(t) ==> AsMap(t)[u] == if u == r.uid then (r.tapType, r.tapValue) else AsMap(s)[u])
    {
      ReplacedUid(s, k, r, u);
    }
    MapFinds(s, r.uid);
    FindUnique(s, k);
    SameMap(AsMap(s[k := r]), AsMap(s)[r.uid := (r.tapType, r.tapValue)]);
  }

  /** A set changes the map unless the kernel refuses the rate of a made record. */
  lemma SetIsMapUpdate(s: State, uid: nat, t: int, v: int, reply: int)
    requires UniqueUids(s.active)
    ensures var m := AsMap(s.active); var (s', out) := SetParams(s, uid, t, v, reply); var m' := AsMap(s'.active);
            if (t != 1 && t != 2) || v < 0 || (t == 2 && v > 100) then out == Outcome(-22, 3) && m' == m
            else if uid !in m then out == Outcome(-2, 0) && m' == m
            else if Find(s.active, uid) >= 0 && s.active[Find(s.active, uid)].made.Some? && reply != 0 then
              out == Outcome(reply, 0) && m' == m
            else out == Outcome(0, 0) && m' == m[uid := (t, v)]
  {
    MapFinds(s.active, uid);
    var k := Find(s.active, uid);
    if k >= 0 {
      ReplaceIsMapUpdate(s.active, k, s.active[k].(tapType := t, tapValue := v));
    }
  }

  /**
   A stat never changes the map, and once the root reserve is known sends to it exactly the UIDs that
   have no entry.
   */
  lemma StatKeepsMap(s: State, uid: nat, pid: int, r: StatReplies)
    requires UniqueUids(s.active)
    ensures var m := AsMap(s.active); var (s', out) := Stat(s, uid, pid, r);
            && AsMap(s'.active) == m
            && (out.flags == 2 <==> r.rootErr == 0 && uid !in m)
            && (out.flags == 2 ==> out == StatResult(0, 2, r.root) && s' == s)
  {
    MapFinds(s.active, uid);
    var k := Find(s.active, uid);
    if k >= 0 {
      var rec := s.active[k];
      ReplaceIsMapUpdate(s.active, k, rec.(made := Some(Ids(r.create, r.tap))));
      assert AsMap(s.active)[uid := (rec.tapType, rec.tapValue)] == AsMap(s.active);
    }
  }

  /** A granted reserve is one the arbiter and the asking process both use, and that the UID's record names. */
  lemma GrantIsUsable(s: State, uid: nat, pid: int, r: StatReplies)
    requires Inv(s)
    ensures var (s', out) := Stat(s, uid, pid, r);
            out.flags == 1 ==>
              && out.err == 0 && out.rid in s'.kernel.reserves
              && Process(pid) in s'.kernel.reserves[out.rid] && Arbiter in s'.kernel.reserves[out.rid]
              && Find(s'.active, uid) >= 0 && s'.active[Find(s'.active, uid)].made.Some?
              && s'.active[Find(s'.active, uid)].made.value.rid == out.rid
  {
    hide Coherent;
    var k := Find(s.active, uid);
    if k >= 0 {
      var rec := s.active[k];
      assert rec in s.active && rec in Records(s);
      RecordSound(Records(s), rec, s.kernel, s.leaked);
      FindUnique(s.active[k := rec.(made := Some(Ids(r.create, r.tap)))], k);
    }
  }
}
