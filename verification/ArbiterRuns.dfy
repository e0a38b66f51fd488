/** Whole runs of the arbiter, one atomic request after another, with the rest of the system moving in between. */
module ArbiterRuns {
  import opened Options
  import opened ArbiterSpec
  import opened ArbiterInvariant

  datatype Event =
    | Add(uid: nat, tapType: int, tapValue: int)
    | Remove(uid: nat)
    | Set(uid: nat, tapType: int, tapValue: int, rateReply: int)
    | StatReq(uid: nat, pid: int, replies: StatReplies)
    | Reap(counts: seq<ReapReply>)
    | EmptyAll
    | World(kernel: Kernel)

  /** What other processes may do to the kernel: they cannot touch what is the arbiter's alone. */
  ghost predicate Environment(k: Kernel, k': Kernel) {
    && Held(k') == Held(k)
    && (forall r :: r in k.reserves && k.reserves[r] == {Arbiter} ==> r in k'.reserves && k'.reserves[r] == {Arbiter})
    && (forall t :: t in k.taps && k.taps[t].dst in Held(k) ==> t in k'.taps && k'.taps[t] == k.taps[t])
  }

  ghost predicate Enabled(s: State, e: Event) {
    match e
    case StatReq(_, _, r) => FreshIds(s.kernel, r)
    case Reap(rs) => |rs| == |s.dead|
    case World(k) => Environment(s.kernel, k)
    case _ => true
  }

  ghost function Step(s: State, e: Event): State
    requires Enabled(s, e)
  {
    match e
    case Add(uid, t, v) => AddParams(s, uid, t, v).0
    case Remove(uid) => RemoveParams(s, uid).0
    case Set(uid, t, v, reply) => SetParams(s, uid, t, v, reply).0
    case StatReq(uid, pid, r) => Stat(s, uid, pid, r).0
    case Reap(rs) => Sweep(s, 0, rs)
    case EmptyAll => Empty(s)
    case World(k) => s.(kernel := k)
  }

  ghost predicate Runs(s: State, es: seq<Event>, t: State)
    decreases |es|
  {
    if es == [] then t == s else Enabled(s, es[0]) && Runs(Step(s, es[0]), es[1..], t)
  }

  /** The record of `uid` gets a reserve and a tap. */
  predicate Makes(s: State, uid: nat, r: StatReplies) {
    var k := Find(s.active, uid);
    r.rootErr == 0 && k >= 0 && s.active[k].made.None? && r.create >= 0 && r.tap >= 0 && r.rate == 0
  }

  /** The arbiter at start-up, in a kernel where it uses nothing. */
  ghost predicate Initial(s: State) {
    s.active == [] && s.dead == [] && s.leaked == {} && Held(s.kernel) == {}
  }

  lemma InitialInv(s: State)
    requires Initial(s)
    ensures Inv(s)
  {
    assert forall rid :: !HasReserve(Records(s), rid);
  }

  lemma WorldKeeps(s: State, k: Kernel)
    requires Inv(s) && Environment(s.kernel, k)
    ensures Inv(s.(kernel := k))
  {
    var m := Records(s);
    forall a | a in m && TapOk(a, s.kernel)
      ensures TapOk(a, k)
    {
      RecordSound(m, a, s.kernel, s.leaked);
    }
    CoherentFrame(m, s.kernel, k, s.leaked, s.leaked);
  }

  lemma StepKeeps(s: State, e: Event)
    requires Inv(s) && Enabled(s, e)
    ensures Inv(Step(s, e))
  {
    hide Inv, AddParams, RemoveParams, SetParams, Stat, Sweep, Empty, Environment, FreshIds;
    match e
    case Add(uid, t, v) => AddKeeps(s, uid, t, v);
    case Remove(uid) => RemoveKeeps(s, uid);
    case Set(uid, t, v, reply) => SetKeeps(s, uid, t, v, reply);
    case StatReq(uid, pid, r) => StatKeeps(s, uid, pid, r);
    case Reap(rs) => SweepKeeps(s, 0, rs);
    case EmptyAll => EmptyKeeps(s);
    case World(k) => WorldKeeps(s, k);
  }

  /** Every run keeps the invariant. */
  lemma {:induction false} EveryRunInv(s: State, es: seq<Event>, t: State)
    requires Inv(s) && Runs(s, es, t)
    ensures Inv(t)
    decreases |es|
  {
    hide Inv, Step, Enabled;
    if es != [] {
      StepKeeps(s, es[0]);
      EveryRunInv(Step(s, es[0]), es[1..], t);
    }
  }

  /** No call that gives a reserve back is refused. */
  predicate PutsSucceed(e: Event) {
    match e
    case StatReq(_, _, r) => r.put == 0
    case Reap(rs) => forall i :: 0 <= i < |rs| ==> rs[i].put == 0
    case _ => true
  }

  lemma {:induction false} SweepLeaks(s: State, j: nat, rs: seq<ReapReply>)
    requires j + |rs| == |s.dead| && forall i :: 0 <= i < |rs| ==> rs[i].put == 0
    ensures Sweep(s, j, rs).leaked == s.leaked
    decreases |rs|
  {
    if rs != [] {
      if Destroyable(s.dead[j], rs[0]) {
        SweepLeaks(Destroy(s, s.dead[j], rs[0]).(dead := s.dead[..j] + s.dead[j + 1..]), j, rs[1..]);
      } else {
        SweepLeaks(s, j + 1, rs[1..]);
      }
    }
  }

  lemma StepLeaks(s: State, e: Event)
    requires Enabled(s, e) && PutsSucceed(e)
    ensures Step(s, e).leaked == s.leaked
  {
    if e.Reap? {
      SweepLeaks(s, 0, e.counts);
    }
  }

  lemma {:induction false} RunLeaks(s: State, es: seq<Event>, t: State)
    requires Runs(s, es, t) && forall i :: 0 <= i < |es| ==> PutsSucceed(es[i])
    ensures t.leaked == s.leaked
    decreases |es|
  {
    hide Step, Enabled, PutsSucceed;
    if es != [] {
      StepLeaks(s, es[0]);
      RunLeaks(Step(s, es[0]), es[1..], t);
    }
  }

  /**
   Reserve conservation: after any run in which the kernel takes back what it is
   given back, the arbiter uses exactly the reserves of its records.
   */
  lemma ReservesConserved(s: State, es: seq<Event>, t: State)
    requires Initial(s) && Runs(s, es, t) && forall i :: 0 <= i < |es| ==> PutsSucceed(es[i])
    ensures forall rid :: rid in Held(t.kernel) <==> HasReserve(Records(t), rid)
    ensures forall a, b :: a in Records(t) && b in Records(t) && a != b ==> OwnIds(a, b)
    ensures forall a :: a in Records(t) && a.made.Some? ==> Records(t)[a] == 1
  {
    InitialInv(s);
    EveryRunInv(s, es, t);
    RunLeaks(s, es, t);
  }

  lemma ToLongFits(v: nat)
    ensures ToLong(v) == v <==> v < 0x8000_0000
    ensures (ToLong(v) - v) % 0x1_0000_0000 == 0 && -0x8000_0000 <= ToLong(v) < 0x8000_0000
  {
  }

  /** The kernel's rate is the recorded value exactly when that value fits the target's `long`. */
  lemma TapCoherence(s: State, es: seq<Event>, t: State, r: Rec)
    requires Initial(s) && Runs(s, es, t) && r in Records(t) && r.made.Some?
    ensures r.made.value.tid in t.kernel.taps
    ensures var tap := t.kernel.taps[r.made.value.tid];
            && tap.rateType == r.tapType && tap.dst == r.made.value.rid
            && (tap.rate == r.tapValue <==> r.tapValue < 0x8000_0000)
            && (tap.rate - r.tapValue) % 0x1_0000_0000 == 0 && -0x8000_0000 <= tap.rate < 0x8000_0000
    ensures (r.tapType == 1 || r.tapType == 2) && 0 <= r.tapValue && (r.tapType == 2 ==> r.tapValue <= 100)
  {
    hide Initial, Runs, Coherent, ToLong;
    InitialInv(s);
    EveryRunInv(s, es, t);
    RecordSound(Records(t), r, t.kernel, t.leaked);
    ToLongFits(r.tapType);
    ToLongFits(r.tapValue);
  }

  /** A run after which a record says 2^32 and its tap lets nothing through: the 32-bit call truncated the value. */
  lemma TruncatedRate(k: Kernel, uid: nat, pid: int, rid: int, tid: int) returns (es: seq<Event>, t: State)
    requires Held(k) == {} && 0 <= rid && rid !in k.reserves && 0 <= tid && tid !in k.taps
    ensures var s := State([], [], k, {}); Initial(s) && Runs(s, es, t)
    ensures t.active == [Rec(uid, Some(Ids(rid, tid)), CONSTANT, 0x1_0000_0000)]
    ensures tid in t.kernel.taps && t.kernel.taps[tid].dst == rid && t.kernel.taps[tid].rate == 0
  {
    var s := State([], [], k, {});
    var r := StatReplies(0, 0, rid, tid, 0, 0, 0, 0);
    var u := Step(s, Add(uid, CONSTANT, 0x1_0000_0000));
    assert u.active == [Rec(uid, None, CONSTANT, 0x1_0000_0000)];
    t := Step(u, StatReq(uid, pid, r));
    es := [Add(uid, CONSTANT, 0x1_0000_0000), StatReq(uid, pid, r)];
    assert es[1..] == [StatReq(uid, pid, r)] && es[1..][1..] == [];
    assert Runs(t, [], t) && Runs(u, es[1..], t);
  }
}
