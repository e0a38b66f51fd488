/**
 The reaper thread and the shutdown thread, step by step. Dead records are
 unlinked as they are destroyed. `waits` says whether the wait for clients
 really waits: in the code it does not, because nothing ever counts a client.
 */
module Shutdown {
  import opened Options
  import opened ArbiterSpec
  import Spec = ArbiterSpec

  datatype ReaperPc =
    | LoopTop
    | Iterate(quit: bool, j: nat, err: int)
    | Body(quit: bool, j: nat, last: bool, err: int)
    | CheckEmpty(quit: bool, err: int)
    | Decide(quit: bool, err: int, isEmpty: bool)
    | Sleeping
    | Leaving(viaEmpty: bool)
    | Exited(viaEmpty: bool)

  datatype ShutdownPc = Serving | Inactive | WaitClients | Emptying | SetExitFlag | WaitReaper | AtDestroy

  datatype State = State(
    active: seq<Rec>,
    dead: seq<Rec>,
    waits: bool,
    clientsGone: bool,
    reaperShouldExit: bool,
    reaperPosted: bool,
    reaper: ReaperPc,
    shutdown: ShutdownPc)

  datatype Action =
    | Reap(reply: ReapReply)
    | Shut
    | ClientAdds(r: Rec)
    | ClientRemoves(k: nat)
    | ClientsLeave

  function ReaperStep(s: State, reply: ReapReply): State {
    match s.reaper
    case LoopTop => s.(reaper := Iterate(s.reaperShouldExit, 0, 0))
    case Iterate(quit, j, err) =>
      if j >= |s.dead| then s.(reaper := CheckEmpty(quit, err))
      else s.(reaper := Body(quit, j, j + 1 == |s.dead|, err))
    case Body(quit, j, last, err) =>
      if j >= |s.dead| then s
      else
        var r := s.dead[j];
        var err' := if r.made.Some? then reply.err else err;
        var gone := Destroyable(r, reply);
        var next := if last then CheckEmpty(quit, err') else Iterate(quit, if gone then j else j + 1, err');
        s.(reaper := next, dead := if gone then s.dead[..j] + s.dead[j + 1..] else s.dead)
    case CheckEmpty(quit, err) => s.(reaper := Decide(quit, err, s.dead == []))
    case Decide(quit, err, isEmpty) =>
      s.(reaper := if quit && err != 0 then Leaving(false)
                   else if quit && isEmpty then Leaving(true)
                   else Sleeping)
    case Sleeping => s.(reaper := LoopTop)
    case Leaving(viaEmpty) => s.(reaper := Exited(viaEmpty), reaperPosted := true)
    case Exited(_) => s
  }

  /** powerArbiterDestroy; emptying moves one record a step, under no mutex. */
  function ShutdownStep(s: State): State {
    match s.shutdown
    case Serving => s.(shutdown := Inactive)
    case Inactive => s.(shutdown := WaitClients)
    case WaitClients => if s.clientsGone || !s.waits then s.(shutdown := Emptying) else s
    case Emptying =>
      if s.active == [] then s.(shutdown := SetExitFlag)
      else s.(active := s.active[1..], dead := s.dead + [s.active[0]])
    case SetExitFlag => s.(reaperShouldExit := true, shutdown := WaitReaper)
    case WaitReaper => if s.reaperPosted then s.(shutdown := AtDestroy) else s
    case AtDestroy => s
  }

  function Step(s: State, a: Action): (t: State)
    ensures t.waits == s.waits
  {
    match a
    case Reap(reply) => ReaperStep(s, reply)
    case Shut => ShutdownStep(s)
    case ClientAdds(r) => if s.clientsGone then s else s.(active := s.active + [r])
    case ClientRemoves(k) =>
      if s.clientsGone || k >= |s.active| then s
      else s.(active := s.active[..k] + s.active[k + 1..], dead := s.dead + [s.active[k]])
    case ClientsLeave => s.(clientsGone := true)
  }

  function Execute(s: State, actions: seq<Action>): State
    decreases |actions|
  {
    if actions == [] then s else Execute(Step(s, actions[0]), actions[1..])
  }

  predicate Starts(s: State) {
    && s.active == [] && s.dead == [] && !s.clientsGone && !s.reaperShouldExit && !s.reaperPosted
    && s.reaper == LoopTop && s.shutdown == Serving
  }

  /** The reaper read the exit flag as set before the pass it is in. */
  predicate Quitting(r: ReaperPc) {
    match r
    case Iterate(quit, _, _) => quit
    case Body(quit, _, _, _) => quit
    case CheckEmpty(quit, _) => quit
    case Decide(quit, _, _) => quit
    case Leaving(_) => true
    case Exited(_) => true
    case _ => false
  }

  /**
   What the reaper knows of the dead list. It keeps the records before its place;
   an error stands for one it kept; and nothing joins the list once it is quitting.
   */
  ghost predicate Found(r: ReaperPc, dead: seq<Rec>) {
    match r
    case Iterate(_, j, err) => j <= |dead| && (err != 0 ==> j > 0)
    case Body(_, j, _, err) => j < |dead| && (err != 0 ==> j > 0)
    case CheckEmpty(_, err) => err != 0 ==> dead != []
    case Decide(quit, err, isEmpty) => (err != 0 ==> dead != []) && (quit && isEmpty ==> dead == [])
    case Leaving(viaEmpty) => viaEmpty <==> dead == []
    case Exited(viaEmpty) => viaEmpty <==> dead == []
    case _ => true
  }

  /** What holds whether or not clients are still there. */
  ghost predicate Base(s: State) {
    && (s.reaperShouldExit <==> s.shutdown in {WaitReaper, AtDestroy})
    && (Quitting(s.reaper) ==> s.reaperShouldExit)
    && (!s.reaperShouldExit ==> Found(s.reaper, s.dead))
    && (s.reaperPosted <==> s.reaper.Exited?)
    && (s.shutdown == AtDestroy ==> s.reaperPosted)
  }

  /** The emptying is over. */
  predicate Late(s: State) {
    s.shutdown in {SetExitFlag, WaitReaper, AtDestroy}
  }

  /** What the reaper concludes is right, and the emptying has left nothing. */
  ghost predicate Drained(s: State) {
    Found(s.reaper, s.dead) && (Late(s) ==> s.active == [])
  }

  ghost predicate Inv(s: State) {
    Base(s) && (s.waits && s.shutdown in {Emptying, SetExitFlag, WaitReaper, AtDestroy} ==> s.clientsGone && Drained(s))
  }

  /** The action adds a record after the emptying. */
  predicate LateAdd(s: State, a: Action) {
    a.ClientAdds? && !s.clientsGone && Late(s)
  }

  lemma BaseReap(s: State, reply: ReapReply)
    requires Base(s)
    ensures Base(ReaperStep(s, reply))
  {
  }

  lemma BaseShut(s: State)
    requires Base(s)
    ensures Base(ShutdownStep(s))
  {
  }

  lemma BaseClients(s: State, a: Action)
    requires Base(s) && !a.Reap? && !a.Shut?
    ensures Base(Step(s, a))
  {
  }

  lemma StepKeepsBase(s: State, a: Action)
    requires Base(s)
    ensures Base(Step(s, a))
  {
    hide Base, ReaperStep, ShutdownStep;
    match a
    case Reap(reply) => BaseReap(s, reply);
    case Shut => BaseShut(s);
    case _ => BaseClients(s, a);
  }

  lemma DrainedBody(s: State, reply: ReapReply)
    requires Drained(s) && s.reaper.Body?
    ensures Drained(ReaperStep(s, reply))
  {
  }

  lemma DrainedBetween(s: State, reply: ReapReply)
    requires Drained(s) && !s.reaper.Body?
    ensures Drained(ReaperStep(s, reply))
  {
    hide Destroyable;
  }

  lemma DrainedReap(s: State, reply: ReapReply)
    requires Drained(s)
    ensures Drained(ReaperStep(s, reply))
  {
    hide Drained, ReaperStep;
    if s.reaper.Body? {
      DrainedBody(s, reply);
    } else {
      DrainedBetween(s, reply);
    }
  }

  lemma DrainedShut(s: State)
    requires Base(s) && Drained(s)
    ensures Drained(ShutdownStep(s))
  {
  }

  lemma DrainedClients(s: State, a: Action)
    requires Base(s) && Drained(s) && !a.Reap? && !a.Shut? && !LateAdd(s, a)
    ensures Drained(Step(s, a))
  {
  }

  /** Only a late addition can undo the emptying. */
  lemma StepKeepsDrained(s: State, a: Action)
    requires Base(s) && Drained(s) && !LateAdd(s, a)
    ensures Drained(Step(s, a))
  {
    hide Base, Drained, ReaperStep, ShutdownStep;
    match a
    case Reap(reply) => DrainedReap(s, reply);
    case Shut => DrainedShut(s);
    case _ => DrainedClients(s, a);
  }

  /** With the wait waiting, the clients are gone when the emptying begins. */
  lemma WaitEnds(s: State)
    requires Base(s) && s.waits && s.shutdown == WaitClients && ShutdownStep(s).shutdown == Emptying
    ensures s.clientsGone && Drained(s)
  {
  }

  lemma StepStage(s: State, a: Action)
    ensures Step(s, a).waits == s.waits && (s.clientsGone ==> Step(s, a).clientsGone)
    ensures a != Shut ==> Step(s, a).shutdown == s.shutdown
    ensures s.shutdown !in {WaitClients, Emptying, SetExitFlag, WaitReaper, AtDestroy} ==>
              Step(s, a).shutdown !in {Emptying, SetExitFlag, WaitReaper, AtDestroy}
    ensures s.shutdown == WaitClients ==> Step(s, a).shutdown in {WaitClients, Emptying}
  {
  }

  lemma StepKeeps(s: State, a: Action)
    requires Inv(s)
    ensures Inv(Step(s, a))
  {
    hide Base, Drained, Step, ShutdownStep;
    StepKeepsBase(s, a);
    StepStage(s, a);
    if s.waits && Step(s, a).shutdown in {Emptying, SetExitFlag, WaitReaper, AtDestroy} {
      if s.shutdown == WaitClients {
        ShutIs(s);
        WaitEnds(s);
      }
      StepKeepsDrained(s, a);
    }
  }

  lemma ShutIs(s: State)
    ensures Step(s, Shut) == ShutdownStep(s)
  {
  }

  lemma {:induction false} ExecuteKeeps(s: State, actions: seq<Action>)
    requires Inv(s)
    ensures Inv(Execute(s, actions))
    decreases |actions|
  {
    hide Inv, Step;
    if actions != [] {
      StepKeeps(s, actions[0]);
      ExecuteKeeps(Step(s, actions[0]), actions[1..]);
    }
  }

  /** The assertions of reserveDataDBDestroy. */
  predicate DestroyAsserts(s: State) {
    s.active == [] && s.dead == []
  }

  lemma {:induction false} ExecuteWaits(s: State, actions: seq<Action>)
    ensures Execute(s, actions).waits == s.waits
    decreases |actions|
  {
    hide Step;
    if actions != [] {
      ExecuteWaits(Step(s, actions[0]), actions[1..]);
    }
  }

  /** No action of the run adds a record after the emptying. */
  predicate NoLateAdds(s: State, actions: seq<Action>)
    decreases |actions|
  {
    actions != [] ==> !LateAdd(s, actions[0]) && NoLateAdds(Step(s, actions[0]), actions[1..])
  }

  lemma {:induction false} ExecuteDrained(s: State, actions: seq<Action>)
    requires Base(s) && Drained(s) && NoLateAdds(s, actions)
    ensures Base(Execute(s, actions)) && Drained(Execute(s, actions))
    decreases |actions|
  {
    hide Base, Drained, Step, LateAdd;
    if actions != [] {
      StepKeepsBase(s, actions[0]);
      StepKeepsDrained(s, actions[0]);
      ExecuteDrained(Step(s, actions[0]), actions[1..]);
    }
  }

  /** The emptying is not over, or it is and there is nothing active. */
  predicate NotTooLate(s: State) {
    s.shutdown in {Serving, Inactive, WaitClients, Emptying} || (s.shutdown == SetExitFlag && s.active == [])
  }

  /**
   In every run in which, from some moment that is not too late, no client adds a
   record after the emptying, the assertions of the final destroy hold exactly when
   the reaper left because it found nothing more. Clients may stay, and the
   shutdown thread need not wait for them.
   */
  lemma CleanWithoutLateAdds(s: State, before: seq<Action>, after: seq<Action>)
    requires Starts(s)
    requires var u := Execute(s, before); NotTooLate(u) && NoLateAdds(u, after)
    requires Execute(Execute(s, before), after).shutdown == AtDestroy
    ensures var t := Execute(Execute(s, before), after);
            t.reaper.Exited? && (DestroyAsserts(t) <==> t.reaper.viaEmpty)
  {
    hide Execute, NoLateAdds;
    var u := Execute(s, before);
    ExecuteKeeps(s, before);
    ExecuteDrained(u, after);
  }

  lemma {:induction false} GoneAddNothing(s: State, actions: seq<Action>)
    requires s.clientsGone
    ensures NoLateAdds(s, actions)
    decreases |actions|
  {
    hide ReaperStep, ShutdownStep;
    if actions != [] {
      StepStage(s, actions[0]);
      GoneAddNothing(Step(s, actions[0]), actions[1..]);
    }
  }

  /** In particular, when the clients leave while that is not too late. */
  lemma CleanShutdown(s: State, before: seq<Action>, after: seq<Action>)
    requires Starts(s)
    requires var u := Execute(s, before); u.clientsGone && NotTooLate(u)
    requires Execute(Execute(s, before), after).shutdown == AtDestroy
    ensures var t := Execute(Execute(s, before), after);
            t.reaper.Exited? && (DestroyAsserts(t) <==> t.reaper.viaEmpty)
  {
    GoneAddNothing(Execute(s, before), after);
    CleanWithoutLateAdds(s, before, after);
  }

  /** Had the wait waited, that would be every run that gets to the destroy. */
  lemma CleanIfWaited(s: State, actions: seq<Action>)
    requires Starts(s) && s.waits && Execute(s, actions).shutdown == AtDestroy
    ensures var t := Execute(s, actions);
            t.reaper.Exited? && (DestroyAsserts(t) <==> t.reaper.viaEmpty)
  {
    ExecuteKeeps(s, actions);
    ExecuteWaits(s, actions);
  }

  /** The database is destroyed only after the reaper is done, whether or not the wait waits. */
  lemma DestroyAfterReaper(s: State, actions: seq<Action>)
    requires Starts(s) && Execute(s, actions).shutdown == AtDestroy
    ensures Execute(s, actions).reaper.Exited?
  {
    ExecuteKeeps(s, actions);
  }

  // --- The reaper gets done ---

  /** The arbiter is the one user of the reserve asked about. */
  predicate SoleUse(reply: ReapReply) {
    reply.err == 0 && reply.users == 1
  }

  /** The reaper has been told to leave and is not on its way out with an error. */
  predicate Hopeful(s: State) {
    && s.reaperShouldExit
    && match s.reaper
       case Iterate(quit, _, err) => quit ==> err == 0
       case Body(quit, _, _, err) => quit ==> err == 0
       case CheckEmpty(quit, err) => quit ==> err == 0
       case Decide(quit, err, _) => quit ==> err == 0
       case Leaving(viaEmpty) => viaEmpty
       case Exited(viaEmpty) => viaEmpty
       case _ => true
  }

  /** The pass under way will be the last one, if every count answers one user. */
  predicate LastPass(s: State) {
    match s.reaper
    case Iterate(quit, j, _) => quit && j == 0
    case Body(quit, j, last, _) => quit && j == 0 && (last <==> |s.dead| == 1)
    case CheckEmpty(quit, _) => quit && s.dead == []
    case Decide(quit, _, isEmpty) => quit && isEmpty
    case _ => true
  }

  /** How many steps of its own the reaper is away from having left, if every count answers one user. */
  function StepsLeft(s: State): nat {
    var n := |s.dead|;
    var again := if LastPass(s) then 0 else 2 * n + 5;
    match s.reaper
    case Exited(_) => 0
    case Leaving(_) => 1
    case Decide(_, _, _) => 2 + again
    case CheckEmpty(_, _) => 3 + again
    case Body(_, j, _, _) => (if j <= n then 2 * (n - j) else 0) + 3 + again
    case Iterate(_, j, _) => (if j <= n then 2 * (n - j) else 0) + 4 + again
    case LoopTop => 2 * n + 5
    case Sleeping => 2 * n + 6
  }

  lemma CloserToExit(s: State, reply: ReapReply)
    requires Base(s) && Drained(s) && Hopeful(s) && SoleUse(reply) && !s.reaper.Exited?
    ensures Hopeful(ReaperStep(s, reply)) && StepsLeft(ReaperStep(s, reply)) < StepsLeft(s)
  {
  }

  predicate AllSoleUse(replies: seq<ReapReply>) {
    forall i :: 0 <= i < |replies| ==> SoleUse(replies[i])
  }

  function ReaperAlone(s: State, replies: seq<ReapReply>): State
    decreases |replies|
  {
    if replies == [] then s else ReaperAlone(ReaperStep(s, replies[0]), replies[1..])
  }

  lemma {:induction false} ReaperAloneLeaves(s: State, replies: seq<ReapReply>)
    requires Base(s) && Drained(s) && Hopeful(s) && AllSoleUse(replies) && |replies| >= StepsLeft(s)
    ensures var t := ReaperAlone(s, replies);
            t.reaper == Exited(true) && t.dead == [] && t.reaperPosted && t.shutdown == s.shutdown
    decreases |replies|
  {
    hide Base, Hopeful, StepsLeft, LastPass;
    if s.reaper.Exited? {
      ExitedStays(s, replies);
      ExitedFound(s);
    } else {
      Unfinished(s);
      CloserToExit(s, replies[0]);
      BaseReap(s, replies[0]);
      DrainedReap(s, replies[0]);
      ReaperKeepsStage(s, replies[0]);
      ReaperAloneLeaves(ReaperStep(s, replies[0]), replies[1..]);
    }
  }

  lemma Unfinished(s: State)
    requires !s.reaper.Exited?
    ensures StepsLeft(s) > 0
  {
  }

  lemma ReaperKeepsStage(s: State, reply: ReapReply)
    ensures ReaperStep(s, reply).shutdown == s.shutdown
  {
  }

  lemma ExitedFound(s: State)
    requires Base(s) && Drained(s) && Hopeful(s) && s.reaper.Exited?
    ensures s.reaper == Exited(true) && s.dead == [] && s.reaperPosted
  {
  }

  lemma {:induction false} ExitedStays(s: State, replies: seq<ReapReply>)
    requires s.reaper.Exited?
    ensures ReaperAlone(s, replies) == s
    decreases |replies|
  {
    if replies != [] {
      ExitedStays(s, replies[1..]);
    }
  }

  /**
   Once told to leave, the reaper does leave through is_empty, within a bounded
   number of its own steps, when every count answers one user: unless a count had
   already failed in the pass that is to be its last.
   */
  lemma ReaperLeaves(s: State, before: seq<Action>, after: seq<Action>, replies: seq<ReapReply>)
    requires Starts(s)
    requires var u := Execute(s, before); NotTooLate(u) && NoLateAdds(u, after)
    requires var t := Execute(Execute(s, before), after);
             Hopeful(t) && AllSoleUse(replies) && |replies| >= StepsLeft(t)
    ensures var v := ReaperAlone(Execute(Execute(s, before), after), replies);
            v.reaper == Exited(true) && v.dead == [] && v.reaperPosted
  {
    hide Execute, NoLateAdds, Hopeful, StepsLeft;
    var u := Execute(s, before);
    ExecuteKeeps(s, before);
    ExecuteDrained(u, after);
    ReaperAloneLeaves(Execute(u, after), replies);
  }

  // --- The steps of a thread that is left alone are the operations of the database ---

  /** The turns of one pass: what the kernel replies is asked in the body of the loop, once a dead record. */
  function PassTurns(replies: seq<ReapReply>, idle: ReapReply): seq<ReapReply> {
    [idle] + LoopTurns(replies, idle) + [idle]
  }

  function LoopTurns(replies: seq<ReapReply>, idle: ReapReply): seq<ReapReply> {
    if |replies| == 0 then [idle]
    else if |replies| == 1 then [idle, replies[0]]
    else [idle, replies[0]] + LoopTurns(replies[1..], idle)
  }

  lemma {:induction false} AloneAppend(s: State, a: seq<ReapReply>, b: seq<ReapReply>)
    ensures ReaperAlone(s, a + b) == ReaperAlone(ReaperAlone(s, a), b)
    decreases |a|
  {
    hide ReaperStep;
    if a == [] {
      assert a + b == b;
    } else {
      assert (a + b)[1..] == a[1..] + b;
      AloneAppend(ReaperStep(s, a[0]), a[1..], b);
    }
  }

  lemma AloneOne(s: State, x: ReapReply)
    ensures ReaperAlone(s, [x]) == ReaperStep(s, x)
  {
    hide ReaperStep;
    assert [x][1..] == [];
  }

  lemma AloneTwo(s: State, x: ReapReply, y: ReapReply)
    ensures ReaperAlone(s, [x, y]) == ReaperStep(ReaperStep(s, x), y)
  {
    hide ReaperStep;
    assert [x, y][1..] == [y];
    AloneOne(ReaperStep(s, x), y);
  }

  /** One record's turn in the loop. */
  lemma BodyTurn(s: State, z: Spec.State, idle: ReapReply, reply: ReapReply)
    requires s.reaper.Iterate? && s.reaper.j < |s.dead| && z.dead == s.dead
    ensures var Iterate(quit, j, err) := s.reaper; var a := s.dead[j];
            var err' := if a.made.Some? then reply.err else err;
            var gone := Destroyable(a, reply);
            var dead := if gone then s.dead[..j] + s.dead[j + 1..] else s.dead;
            ReaperStep(ReaperStep(s, idle), reply) ==
            s.(dead := dead, reaper := if j + 1 == |s.dead| then CheckEmpty(quit, err')
                                       else Iterate(quit, if gone then j else j + 1, err'))
  {
    hide Destroyable;
  }

  /** The loop, left alone, is the rest of the pass on values. */
  lemma {:induction false} LoopIsSweep(s: State, z: Spec.State, replies: seq<ReapReply>, idle: ReapReply)
    requires s.reaper.Iterate? && s.reaper.j + |replies| == |s.dead| && z.dead == s.dead
    ensures var Iterate(quit, j, err) := s.reaper;
            ReaperAlone(s, LoopTurns(replies, idle)) ==
            s.(dead := Sweep(z, j, replies).dead,
               reaper := CheckEmpty(quit, SweepError(s.dead[j..], replies, err)))
    decreases |replies|
  {
    hide ReaperStep, ReaperAlone, Destroyable, Destroy, Sweep, SweepError;
    SweepTurn(z, s.reaper.j, replies, s.reaper.err);
    var Iterate(quit, j, err) := s.reaper;
    if replies == [] {
      AloneOne(s, idle);
      NoneLeft(s, idle);
    } else {
      var a := s.dead[j];
      var err' := if a.made.Some? then replies[0].err else err;
      var gone := Destroyable(a, replies[0]);
      var z' := if gone then Destroy(z, a, replies[0]).(dead := s.dead[..j] + s.dead[j + 1..]) else z;
      var j' := if gone then j else j + 1;
      AloneTwo(s, idle, replies[0]);
      BodyTurn(s, z, idle, replies[0]);
      Remaining(s.dead, j, gone);
      if |replies| > 1 {
        var u := ReaperStep(ReaperStep(s, idle), replies[0]);
        AloneAppend(s, [idle, replies[0]], LoopTurns(replies[1..], idle));
        LoopIsSweep(u, z', replies[1..], idle);
      } else {
        assert replies[1..] == [];
        SweepTurn(z', j', [], err');
      }
    }
  }

  /** One record's turn on values. */
  lemma SweepTurn(z: Spec.State, j: nat, replies: seq<ReapReply>, err: int)
    requires j + |replies| == |z.dead|
    ensures replies == [] ==> Sweep(z, j, replies) == z && SweepError(z.dead[j..], replies, err) == err
    ensures replies != [] ==>
              var a := z.dead[j];
              && Destroy(z, a, replies[0]).dead == z.dead
              && Sweep(z, j, replies) ==
                 (if Destroyable(a, replies[0]) then
                    Sweep(Destroy(z, a, replies[0]).(dead := z.dead[..j] + z.dead[j + 1..]), j, replies[1..])
                  else Sweep(z, j + 1, replies[1..]))
              && SweepError(z.dead[j..], replies, err) ==
                 SweepError(z.dead[j..][1..], replies[1..], if a.made.Some? then replies[0].err else err)
  {
    hide Destroyable;
  }

  lemma NoneLeft(s: State, idle: ReapReply)
    requires s.reaper.Iterate? && s.reaper.j == |s.dead|
    ensures ReaperStep(s, idle) == s.(reaper := CheckEmpty(s.reaper.quit, s.reaper.err))
  {
  }

  lemma Remaining(dead: seq<Rec>, j: nat, gone: bool)
    requires j < |dead|
    ensures var d := if gone then dead[..j] + dead[j + 1..] else dead;
            d[if gone then j else j + 1..] == dead[j..][1..] && dead[j..][0] == dead[j]
  {
  }

  /**
   Left alone, the reaper makes one pass exactly as Sweep and SweepError have it,
   whether or not it is to quit, finds out whether anything is dead, and then
   leaves or sleeps as its loop says.
   */
  lemma PassIsSweep(s: State, z: Spec.State, replies: seq<ReapReply>, idle: ReapReply)
    requires s.reaper == LoopTop && |replies| == |s.dead| && z.dead == s.dead
    ensures var dead, err := Sweep(z, 0, replies).dead, SweepError(s.dead, replies, 0);
            var t := s.(dead := dead, reaper := Decide(s.reaperShouldExit, err, dead == []));
            && ReaperAlone(s, PassTurns(replies, idle)) == t
            && ReaperStep(t, idle) == t.(reaper := if !s.reaperShouldExit then Sleeping
                                                   else if err != 0 then Leaving(false)
                                                   else if dead == [] then Leaving(true)
                                                   else Sleeping)
  {
    hide ReaperAlone, LoopTurns, Sweep, SweepError;
    var u := s.(reaper := Iterate(s.reaperShouldExit, 0, 0));
    AloneAppend(s, [idle] + LoopTurns(replies, idle), [idle]);
    AloneAppend(s, [idle], LoopTurns(replies, idle));
    AloneOne(s, idle);
    LoopIsSweep(u, z, replies, idle);
    assert s.dead[0..] == s.dead;
    AloneOne(ReaperAlone(u, LoopTurns(replies, idle)), idle);
  }

  function ShutdownAlone(s: State, n: nat): State {
    if n == 0 then s else ShutdownStep(ShutdownAlone(s, n - 1))
  }

  /** Left alone, the emptying is reserveDataDBEmpty on values. */
  lemma EmptyingIsEmpty(s: State, z: Spec.State)
    requires s.shutdown == Emptying && z.active == s.active && z.dead == s.dead
    ensures var e := Empty(z);
            ShutdownAlone(s, |s.active| + 1) == s.(active := e.active, dead := e.dead, shutdown := SetExitFlag)
  {
    EmptyingSteps(s, |s.active|);
    assert s.active[|s.active|..] == [] && s.active[..|s.active|] == s.active;
  }

  lemma {:induction false} EmptyingSteps(s: State, n: nat)
    requires s.shutdown == Emptying && n <= |s.active|
    ensures ShutdownAlone(s, n) == s.(active := s.active[n..], dead := s.dead + s.active[..n])
  {
    if n == 0 {
      assert s.active[0..] == s.active && s.dead + s.active[..0] == s.dead;
    } else {
      EmptyingSteps(s, n - 1);
      assert s.active[n - 1..][1..] == s.active[n..] && s.active[n - 1..][0] == s.active[n - 1];
      assert (s.dead + s.active[..n - 1]) + [s.active[n - 1]] == s.dead + s.active[..n];
    }
  }

  /** What clients do here is what their requests do on values. */
  lemma ClientsRequest(s: State, z: Spec.State, uid: nat, tapType: int, tapValue: int)
    requires !s.clientsGone && z.active == s.active && z.dead == s.dead
    ensures var (u, out) := AddParams(z, uid, tapType, tapValue);
            out.err == 0 ==>
              Step(s, ClientAdds(Rec(uid, None, tapType, tapValue))) == s.(active := u.active, dead := u.dead)
    ensures var (u, err) := RemoveParams(z, uid);
            err == 0 ==> Step(s, ClientRemoves(Find(s.active, uid))) == s.(active := u.active, dead := u.dead)
  {
    hide ParamsOk;
  }

  ghost predicate Reachable(s: State, t: State) {
    exists actions :: Execute(s, actions) == t
  }

  lemma {:induction false} ExecuteSnoc(s: State, actions: seq<Action>, a: Action)
    ensures Execute(s, actions + [a]) == Step(Execute(s, actions), a)
    decreases |actions|
  {
    if actions == [] {
      assert [] + [a] == [a] && [a][1..] == [];
    } else {
      assert (actions + [a])[1..] == actions[1..] + [a];
      ExecuteSnoc(Step(s, actions[0]), actions[1..], a);
    }
  }

  lemma Then(s: State, t: State, a: Action) returns (u: State)
    requires Reachable(s, t)
    ensures u == Step(t, a) && Reachable(s, u)
  {
    var actions :| Execute(s, actions) == t;
    ExecuteSnoc(s, actions, a);
    u := Step(t, a);
  }

  lemma Stay(s: State)
    ensures Reachable(s, s)
  {
    assert Execute(s, []) == s;
  }

  /** The way out by error: the users of one last record cannot be counted. */
  lemma ErrorExitIsUnclean(s: State, r: Rec)
    requires Starts(s) && s.waits && r.made.Some?
    ensures exists t :: Reachable(s, t) && t.shutdown == AtDestroy && !DestroyAsserts(t)
  {
    hide Reachable;
    var bad := Reap(ReapReply(-EINVAL, 0, 0));
    Stay(s);
    var t := Then(s, s, ClientAdds(r));
    t := Then(s, t, ClientsLeave);
    t := Then(s, t, Shut);
    t := Then(s, t, Shut);
    t := Then(s, t, Shut);
    t := Then(s, t, Shut);
    t := Then(s, t, Shut);
    t := Then(s, t, Shut);
    assert t.shutdown == WaitReaper && t.dead == [r];
    t := Then(s, t, bad);
    t := Then(s, t, bad);
    t := Then(s, t, bad);
    assert t.reaper == CheckEmpty(true, -EINVAL) && t.dead == [r];
    t := Then(s, t, bad);
    t := Then(s, t, bad);
    t := Then(s, t, bad);
    t := Then(s, t, Shut);
    assert t.shutdown == AtDestroy && t.dead == [r];
  }

  /** The wait as it is: a client that adds a record after the emptying finds it still there at the destroy. */
  lemma UnwaitedClientIsUnclean(s: State, r: Rec)
    requires Starts(s) && !s.waits
    ensures exists t :: Reachable(s, t) && t.shutdown == AtDestroy && t.reaper == Exited(true) && !DestroyAsserts(t)
  {
    hide Reachable;
    var ok := Reap(ReapReply(0, 0, 0));
    Stay(s);
    var t := Then(s, s, Shut);
    t := Then(s, t, Shut);
    t := Then(s, t, Shut);
    t := Then(s, t, Shut);
    t := Then(s, t, ClientAdds(r));
    t := Then(s, t, Shut);
    assert t.shutdown == WaitReaper && t.active == [r] && t.dead == [];
    t := Then(s, t, ok);
    t := Then(s, t, ok);
    t := Then(s, t, ok);
    assert t.reaper == Decide(true, 0, true) && t.active == [r];
    t := Then(s, t, ok);
    t := Then(s, t, ok);
    t := Then(s, t, Shut);
    assert t.shutdown == AtDestroy && t.active == [r];
  }
}
