/**
 The arbiter's database and the kernel objects it owns, as values: what each
 request does to them, given the replies of the kernel calls it makes.
 */
module ArbiterSpec {
  import opened Options

  const ENOENT: int := 2
  const EEXIST: int := 17
  const EINVAL: int := 22

  const PA_INVALID_INPUT: int := 3
  const PA_RESERVE_GRANTED: int := 1
  const PA_USE_ROOT_RESERVE: int := 2

  const CONSTANT: int := 1
  const PROPORTIONAL: int := 2

  datatype User = Arbiter | Process(pid: int)
  datatype Tap = Tap(src: int, dst: int, rateType: int, rate: int)
  datatype Kernel = Kernel(reserves: map<int, set<User>>, taps: map<int, Tap>)

  datatype Ids = Ids(rid: int, tid: int)
  datatype Rec = Rec(uid: nat, made: Option<Ids>, tapType: int, tapValue: int)
  datatype State = State(active: seq<Rec>, dead: seq<Rec>, kernel: Kernel, leaked: set<int>)

  // --- The kernel calls. A failing call changes nothing. ---

  /** A 64-bit value passed as the 32-bit `long` of the target. */
  function ToLong(v: int): int {
    var m := v % 0x1_0000_0000;
    if m < 0x8000_0000 then m else m - 0x1_0000_0000
  }

  function CreateReserve(k: Kernel, reply: int): Kernel {
    if reply < 0 then k else k.(reserves := k.reserves[reply := {Arbiter}])
  }

  function CreateTap(k: Kernel, src: int, dst: int, reply: int): Kernel {
    if reply < 0 then k else k.(taps := k.taps[reply := Tap(src, dst, 0, 0)])
  }

  function SetRate(k: Kernel, tid: int, rateType: int, rate: int, reply: int): Kernel {
    if reply != 0 || tid !in k.taps then k
    else k.(taps := k.taps[tid := k.taps[tid].(rateType := ToLong(rateType), rate := ToLong(rate))])
  }

  function DeleteTap(k: Kernel, tid: int, reply: int): Kernel {
    if reply != 0 then k else k.(taps := k.taps - {tid})
  }

  /** The arbiter gives up its use of a reserve, which goes with its last user. */
  function PutReserve(k: Kernel, rid: int, reply: int): Kernel {
    if reply != 0 || rid !in k.reserves then k
    else if k.reserves[rid] - {Arbiter} == {} then k.(reserves := k.reserves - {rid})
    else k.(reserves := k.reserves[rid := k.reserves[rid] - {Arbiter}])
  }

  function Expose(k: Kernel, pid: int, rid: int, reply: int): Kernel {
    if reply != 0 || rid !in k.reserves then k
    else k.(reserves := k.reserves[rid := k.reserves[rid] + {Process(pid)}])
  }

  /** The reserves the arbiter is a user of. */
  ghost function Held(k: Kernel): set<int> {
    set r | r in k.reserves && Arbiter in k.reserves[r]
  }

  // --- The requests ---

  predicate ParamsOk(tapType: int, tapValue: int) {
    && (tapType == CONSTANT || tapType == PROPORTIONAL)
    && tapValue >= 0
    && (tapType == PROPORTIONAL ==> tapValue <= 100)
  }

  function Find(s: seq<Rec>, uid: nat): (k: int)
    ensures -1 <= k < |s|
    ensures k >= 0 ==> s[k].uid == uid
    ensures k < 0 ==> forall i :: 0 <= i < |s| ==> s[i].uid != uid
  {
    if s == [] then -1
    else if s[|s| - 1].uid == uid then |s| - 1
    else Find(s[..|s| - 1], uid)
  }

  datatype Outcome = Outcome(err: int, error: int)

  function AddParams(s: State, uid: nat, tapType: int, tapValue: int): (State, Outcome) {
    if !ParamsOk(tapType, tapValue) then (s, Outcome(-EINVAL, PA_INVALID_INPUT))
    else if Find(s.active, uid) >= 0 then (s, Outcome(-EEXIST, 0))
    else (s.(active := s.active + [Rec(uid, None, tapType, tapValue)]), Outcome(0, 0))
  }

  function RemoveParams(s: State, uid: nat): (State, int) {
    var k := Find(s.active, uid);
    if k < 0 then (s, -ENOENT)
    else (s.(active := s.active[..k] + s.active[k + 1..], dead := s.dead + [s.active[k]]), 0)
  }

  function GetParams(s: State, uid: nat): Option<(int, int)> {
    var k := Find(s.active, uid);
    if k < 0 then None else Some((s.active[k].tapType, s.active[k].tapValue))
  }

  function SetParams(s: State, uid: nat, tapType: int, tapValue: int, rateReply: int): (State, Outcome) {
    if !ParamsOk(tapType, tapValue) then (s, Outcome(-EINVAL, PA_INVALID_INPUT))
    else
      var k := Find(s.active, uid);
      if k < 0 then (s, Outcome(-ENOENT, 0))
      else
        var r := s.active[k];
        if r.made.Some? && rateReply != 0 then (s, Outcome(rateReply, 0))
        else
          var kernel := if r.made.Some? then SetRate(s.kernel, r.made.value.tid, tapType, tapValue, 0) else s.kernel;
          (s.(active := s.active[k := r.(tapType := tapType, tapValue := tapValue)], kernel := kernel), Outcome(0, 0))
  }

  /** The kernel's replies to the calls that a stat request may make; the first call has an error and a value. */
  datatype StatReplies = StatReplies(rootErr: int, root: int, create: int, tap: int, rate: int, deleteTap: int,
                                     put: int, expose: int)
  datatype StatResult = StatResult(err: int, flags: int, rid: int)

  /** A reserve given up, or leaked when the kernel refuses. */
  function GiveUp(s: State, rid: int, reply: int): State {
    if reply == 0 then s.(kernel := PutReserve(s.kernel, rid, 0)) else s.(leaked := s.leaked + {rid})
  }

  /** Create reserve and tap for record `k`, or undo what was created; 0 when made. */
  function Make(s: State, k: nat, r: StatReplies): (result: (State, int))
    requires k < |s.active|
    ensures |result.0.active| == |s.active|
    ensures result.1 == 0 <==> r.create >= 0 && r.tap >= 0 && r.rate == 0
    ensures result.1 == 0 ==> result.0.active[k].made == Some(Ids(r.create, r.tap))
  {
    var rec := s.active[k];
    if r.create < 0 then (s, r.create)
    else
      var s1 := s.(kernel := CreateReserve(s.kernel, r.create));
      if r.tap < 0 then (GiveUp(s1, r.create, r.put), r.tap)
      else
        var s2 := s1.(kernel := CreateTap(s1.kernel, r.root, r.create, r.tap));
        if r.rate != 0 then
          (GiveUp(s2.(kernel := DeleteTap(s2.kernel, r.tap, r.deleteTap)), r.create, r.put), r.rate)
        else
          (s2.(kernel := SetRate(s2.kernel, r.tap, rec.tapType, rec.tapValue, 0),
               active := s2.active[k := rec.(made := Some(Ids(r.create, r.tap)))]), 0)
  }

  function Stat(s: State, uid: nat, pid: int, r: StatReplies): (State, StatResult) {
    var k := Find(s.active, uid);
    if r.rootErr != 0 then (s, StatResult(r.rootErr, 0, 0))
    else if k < 0 then (s, StatResult(0, PA_USE_ROOT_RESERVE, r.root))
    else
      var (s1, err) := if s.active[k].made.Some? then (s, 0) else Make(s, k, r);
      if err != 0 then (s1, StatResult(err, 0, 0))
      else
        var rid := s1.active[k].made.value.rid;
        if r.expose != 0 then (s1, StatResult(r.expose, 0, 0))
        else (s1.(kernel := Expose(s1.kernel, pid, rid, 0)), StatResult(0, PA_RESERVE_GRANTED, rid))
  }

  /** reserveDataDBEmpty: every record, in application order, joins the dead list. */
  function Empty(s: State): State {
    s.(active := [], dead := s.dead + s.active)
  }

  // --- The reaper's pass, with dead records unlinked as they are destroyed ---

  /** The kernel's replies about one dead record: error and value of the user count, and of the put. */
  datatype ReapReply = ReapReply(err: int, users: int, put: int)

  predicate Destroyable(r: Rec, reply: ReapReply) {
    r.made.None? || (reply.err == 0 && reply.users == 1)
  }

  function Destroy(s: State, r: Rec, reply: ReapReply): State {
    if r.made.Some? then GiveUp(s, r.made.value.rid, reply.put) else s
  }

  /** The pass from dead record `j` on, one reply for each record met. */
  function Sweep(s: State, j: nat, replies: seq<ReapReply>): State
    requires j + |replies| == |s.dead|
    decreases |replies|
  {
    if replies == [] then s
    else if Destroyable(s.dead[j], replies[0]) then
      Sweep(Destroy(s, s.dead[j], replies[0]).(dead := s.dead[..j] + s.dead[j + 1..]), j, replies[1..])
    else Sweep(s, j + 1, replies[1..])
  }

  /** What the pass returns: the error of its last user count, whatever came before it. */
  function SweepError(dead: seq<Rec>, replies: seq<ReapReply>, err: int): int
    requires |dead| == |replies|
  {
    if dead == [] then err
    else SweepError(dead[1..], replies[1..], if dead[0].made.Some? then replies[0].err else err)
  }
}
