/** What a client learns from the answers: the map from UID to parameters, and when an error means what it says. */
module Protocol {
  import opened ArbiterSpec
  import opened ArbiterInvariant
  import opened UidMap
  import opened Session
  import opened Frames

  /** The kernel refuses the rate of a record that has its tap. */
  predicate RateRefused(s: State, uid: nat, r: StatReplies) {
    var k := Find(s.active, uid);
    k >= 0 && s.active[k].made.Some? && r.rate != 0
  }

  /** An add, answered byte by byte. */
  lemma AddAnswered(s: State, pid: int, uid: nat, t: nat, v: int, r: StatReplies, pad: Padding)
    ensures var m := AsMap(s.active); var (s', answer) := Serve(s, pid, AddUid(uid, t, v), r);
            var illegal := (t != 1 && t != 2) || v < 0 || (t == 2 && v > 100);
            var code := if illegal then 3 else if uid in m then 5 else 0;
            && answer == ErrorResponse(code) && Wire(answer, pad) == [code, 0, 0, 0]
            && AsMap(s'.active) == if code == 0 then m[uid := (t, v)] else m
  {
    hide AsMap, Find, AddParams, Encode;
    AddIsMapAdd(s, uid, t, v);
    var (s', answer) := Serve(s, pid, AddUid(uid, t, v), r);
    CodeBytes(answer.error);
  }

  /** A remove, answered byte by byte. */
  lemma RemoveAnswered(s: State, pid: int, uid: nat, r: StatReplies, pad: Padding)
    requires UniqueUids(s.active)
    ensures var m := AsMap(s.active); var (s', answer) := Serve(s, pid, RemoveUid(uid), r);
            var code := if uid in m then 0 else 2;
            && answer == ErrorResponse(code) && Wire(answer, pad) == [code, 0, 0, 0]
            && AsMap(s'.active) == m - {uid}
  {
    hide AsMap, Find, RemoveParams, UniqueUids, Encode;
    RemoveIsMapRemove(s, uid);
    MapFinds(s.active, uid);
    CodeBytes(0);
    CodeBytes(2);
    if uid !in AsMap(s.active) {
      assert AsMap(s.active) - {uid} == AsMap(s.active);
    }
  }

  /** A get, answered byte by byte: the type, the value, the error, and padding. */
  lemma GetAnswered(s: State, pid: int, uid: nat, r: StatReplies, pad: Padding)
    ensures var m := AsMap(s.active); var (s', answer) := Serve(s, pid, GetTap(uid), r); var b := Wire(answer, pad);
            && s' == s && answer == (if uid in m then GetResponse(m[uid].0, m[uid].1, 0) else GetResponse(0, 0, 2))
            && |b| == 24 && b[20..] == pad
            && Le32(b, 16) == (if uid in m then 0 else 2)
            && Le64(b, 0) == (if uid in m then m[uid].0 % 0x1_0000_0000_0000_0000 else 0)
            && Le64(b, 8) == (if uid in m then m[uid].1 % 0x1_0000_0000_0000_0000 else 0)
  {
    hide AsMap, Find, GetParams, Wire, Le32, Le64;
    GetIsMapGet(s, uid);
    var answer := Serve(s, pid, GetTap(uid), r).1;
    GetBytes(answer.tapType, answer.tapValue, answer.error, pad);
  }

  /**
   What the error of a set is, for every reply of the kernel. PA_UID_NOT_FOUND (2)
   is not only for absent UIDs: a kernel that refuses the rate with -ENOENT (-2)
   looks the same to the client.
   */
  lemma SetAnswered(s: State, pid: int, uid: nat, t: nat, v: int, r: StatReplies, pad: Padding)
    requires UniqueUids(s.active)
    ensures var m := AsMap(s.active); var (s', answer) := Serve(s, pid, SetTap(uid, t, v), r);
            var code := if (t != 1 && t != 2) || v < 0 || (t == 2 && v > 100) then 3
                        else if uid !in m then 2
                        else if !RateRefused(s, uid, r) then 0
                        else if r.rate == -1 then 1
                        else if r.rate == -2 then 2
                        else 4;
            && answer == ErrorResponse(code) && Wire(answer, pad) == [code, 0, 0, 0]
            && AsMap(s'.active) == if code == 0 then m[uid := (t, v)] else m
  {
    hide AsMap, SetParams, UniqueUids, Encode;
    SetIsMapUpdate(s, uid, t, v, r.rate);
    MapFinds(s.active, uid);
    var (s', answer) := Serve(s, pid, SetTap(uid, t, v), r);
    CodeBytes(answer.error);
  }

  /** The kernel refuses to make what the UID's record still lacks. */
  predicate MakeRefused(s: State, uid: nat, r: StatReplies) {
    var k := Find(s.active, uid);
    k >= 0 && s.active[k].made.None? && (r.create < 0 || r.tap < 0 || r.rate != 0)
  }

  /**
   A stat, answered byte by byte. It fails exactly when a kernel call that it needs
   fails. Else it names the root reserve to a UID without an entry, and a reserve
   that client and arbiter both use to any other.
   */
  lemma StatAnswered(s: State, pid: int, uid: nat, r: StatReplies, pad: Padding)
    requires Inv(s)
    ensures var m := AsMap(s.active); var (s', answer) := Serve(s, pid, StatReserve(uid), r);
            var failed := r.rootErr != 0 || (uid in m && (MakeRefused(s, uid, r) || r.expose != 0));
            var b := Wire(answer, pad);
            && AsMap(s'.active) == m && |b| == 12 && Le32(b, 8) == (if failed then 4 else 0)
            && (failed ==> answer == StatResponse(0, 0, 4) && Le32(b, 0) == 0 && Le32(b, 4) == 0)
            && (!failed && uid !in m ==>
                  answer == StatResponse(r.root, 2, 0) && Le32(b, 0) == r.root % 0x1_0000_0000 && Le32(b, 4) == 2)
            && (!failed && uid in m ==>
                  && answer.StatResponse? && answer == StatResponse(answer.rid, 1, 0)
                  && Le32(b, 0) == answer.rid % 0x1_0000_0000 && Le32(b, 4) == 1
                  && answer.rid in s'.kernel.reserves
                  && {Process(pid), Arbiter} <= s'.kernel.reserves[answer.rid])
  {
    hide Coherent, Make, Serve, Wire, Le32;
    ServeStat(s, pid, uid, r);
    StatKeepsMap(s, uid, pid, r);
    GrantIsUsable(s, uid, pid, r);
    MapFinds(s.active, uid);
    var answer := Serve(s, pid, StatReserve(uid), r).1;
    StatBytes(answer.rid, answer.flags, answer.error, pad);
  }

  /**
   The replies that come through the system call wrappers: a refused call returns
   -1, and the wrapper that asks for the root reserve always reports success.
   */
  predicate Wrapped(r: StatReplies) {
    && r.rootErr == 0
    && r.create >= -1 && r.tap >= -1
    && -1 <= r.rate <= 0 && -1 <= r.deleteTap <= 0 && -1 <= r.put <= 0 && -1 <= r.expose <= 0
  }

  /** Then a refused rate is always answered PA_BAD_PERMISSIONS (1), and PA_UID_NOT_FOUND (2) means what it says. */
  lemma SetAnsweredWrapped(s: State, pid: int, uid: nat, t: nat, v: int, r: StatReplies, pad: Padding)
    requires UniqueUids(s.active) && Wrapped(r)
    ensures var m := AsMap(s.active); var (s', answer) := Serve(s, pid, SetTap(uid, t, v), r);
            var legal := (t == 1 || t == 2) && v >= 0 && (t == 2 ==> v <= 100);
            && (Wire(answer, pad) == [2, 0, 0, 0] <==> legal && uid !in m)
            && (Wire(answer, pad) == [1, 0, 0, 0] <==> legal && RateRefused(s, uid, r))
  {
    hide AsMap, Serve, UniqueUids, Find, Wire;
    SetAnswered(s, pid, uid, t, v, r, pad);
    MapFinds(s.active, uid);
  }

  /** And a client without an entry is told to use reserve -1, without an error, when the root reserve cannot be had. */
  lemma RootRefusedIsAnswered(s: State, pid: int, uid: nat, r: StatReplies, pad: Padding)
    requires Wrapped(r) && r.root == -1 && uid !in AsMap(s.active)
    ensures var (s', answer) := Serve(s, pid, StatReserve(uid), r);
            && s' == s && answer == StatResponse(-1, 2, 0)
            && Wire(answer, pad) == [255, 255, 255, 255, 2, 0, 0, 0, 0, 0, 0, 0]
  {
    hide Encode;
    MapFinds(s.active, uid);
    CodeBytes(0);
    CodeBytes(2);
    AllOnes();
  }

  lemma AllOnes()
    ensures Encode(0xffff_ffff, 4) == [255, 255, 255, 255]
  {
    hide Encode;
    EncodeFour(0xffff_ffff);
    var b := Encode(0xffff_ffff, 4);
    assert b[3] == 255 && b[2] == 255 && b[1] == 255 && b[0] == 255;
  }

  lemma ServeStat(s: State, pid: int, uid: nat, r: StatReplies)
    ensures var (s', out) := Stat(s, uid, pid, r);
            Serve(s, pid, StatReserve(uid), r) ==
            (s', if out.err != 0 then StatResponse(0, 0, PA_FAILURE) else StatResponse(out.rid, out.flags, PA_NO_ERROR))
  {
  }

  // --- The client's reading of a response ---

  function Signed32(n: nat): int {
    if n < 0x8000_0000 then n else n - TWO32
  }

  /** The fields of a response structure, for the kind of request it answers. */
  function ReadResponse(kind: nat, b: seq<Byte>): Response
    requires |b| == ResponseSize(kind)
  {
    if kind == PA_STAT_RESERVE then
      StatResponse(Signed32(Decode(b[..4])), Decode(b[4..8]), Decode(b[8..12]))
    else if kind == PA_GET_TAP_PARAMS then
      GetResponse(Decode(b[..8]), Signed64(Decode(b[8..16])), Decode(b[16..20]))
    else ErrorResponse(Decode(b[..4]))
  }

  function ResponseSize(kind: nat): nat {
    if kind == PA_STAT_RESERVE then 12 else if kind == PA_GET_TAP_PARAMS then 24 else 4
  }

  predicate Answers(kind: nat, a: Response) {
    match a
    case StatResponse(_, _, _) => kind == PA_STAT_RESERVE
    case GetResponse(_, _, _) => kind == PA_GET_TAP_PARAMS
    case ErrorResponse(_) => kind != PA_STAT_RESERVE && kind != PA_GET_TAP_PARAMS
  }

  predicate FitsResponse(a: Response) {
    && 0 <= a.error < TWO32
    && (a.StatResponse? ==> -0x8000_0000 <= a.rid < 0x8000_0000 && 0 <= a.flags < TWO32)
    && (a.GetResponse? ==> 0 <= a.tapType < TWO64 && -TWO63 <= a.tapValue < TWO63)
  }

  /** The client reads back every field the server wrote, whatever the padding. */
  lemma ResponseReadBack(kind: nat, a: Response, pad: Padding)
    requires Answers(kind, a) && FitsResponse(a)
    ensures |Wire(a, pad)| == ResponseSize(kind) && ReadResponse(kind, Wire(a, pad)) == a
  {
    hide Encode, Decode, Pow256;
    Pow256Eight();
    var b := Wire(a, pad);
    DecodeEncode(a.error, 4);
    match a
    case StatResponse(rid, flags, error) =>
      DecodeEncode(rid % TWO32, 4);
      DecodeEncode(flags, 4);
      assert b[..4] == Encode(rid % TWO32, 4) && b[4..8] == Encode(flags, 4) && b[8..12] == Encode(error, 4);
    case GetResponse(t, v, error) =>
      DecodeEncode(t, 8);
      DecodeEncode(v % TWO64, 8);
      assert b[..8] == Encode(t, 8) && b[8..16] == Encode(v % TWO64, 8) && b[16..20] == Encode(error, 4);
    case ErrorResponse(error) =>
      assert b[..4] == Encode(error, 4);
  }
}
