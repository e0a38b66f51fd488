/**
 A client's session: frames in, operations applied, responses out, however the
 socket cuts the byte stream.
 */
module Session {
  import opened Sequences
  import opened ArbiterSpec

  type Byte = b: nat | b < 256

  // --- The socket loops ---

  /** What the system does with the next transfer: move at most `n` bytes, or fail. */
  datatype Transfer = Bytes(n: nat) | Broken(errno: int)

  /** No transfer fails. */
  predicate Sound(cuts: seq<Transfer>) {
    forall i :: 0 <= i < |cuts| ==> cuts[i].Bytes?
  }

  /** A connected stream socket. `cuts` is how the system happens to cut and break the transfers. */
  class Socket {
    var input: seq<Byte>
    var output: seq<Byte>
    var cuts: seq<Transfer>

    /** How many of `most` bytes the next transfer moves, at least one, or its error. */
    method Cut(most: nat) returns (n: nat, err: int)
      requires most > 0
      modifies this`cuts
      ensures err == 0 ==> 0 < n <= most
      ensures Sound(old(cuts)) ==> err == 0 && Sound(cuts)
    {
      n, err := most, 0;
      if cuts != [] {
        match cuts[0] {
          case Bytes(k) => n := if 0 < k <= most then k else most;
          case Broken(e) => err := e;
        }
        cuts := cuts[1..];
      }
    }

    /** recv: some of the bytes to come, none at an orderly shutdown */
    method Recv(want: nat) returns (data: seq<Byte>, err: int)
      requires want > 0
      modifies this`input, this`cuts
      ensures old(input) == data + input && |data| <= want
      ensures err == 0 ==> (data == [] <==> old(input) == [])
      ensures err != 0 ==> data == []
      ensures Sound(old(cuts)) ==> err == 0 && Sound(cuts)
    {
      var n;
      n, err := Cut(want);
      data := [];
      if err == 0 {
        var m := if n <= |input| then n else |input|;
        data, input := input[..m], input[m..];
      }
    }

    /** send: some of the bytes offered */
    method Send(data: seq<Byte>) returns (n: nat, err: int)
      requires data != []
      modifies this`output, this`cuts
      ensures n <= |data| && output == old(output) + data[..n] && (err == 0 ==> n > 0)
      ensures Sound(old(cuts)) ==> err == 0 && Sound(cuts)
    {
      n, err := Cut(|data|);
      if err != 0 {
        n := 0;
      }
      output := output + data[..n];
    }

    /** streamsock_read: all of `toRead` bytes, or what there was before the shutdown or the error */
    method Read(toRead: nat) returns (buf: seq<Byte>, err: int)
      modifies this`input, this`cuts
      ensures old(input) == buf + input && |buf| <= toRead
      ensures err == 0 ==> buf == Take(old(input), toRead) && input == Drop(old(input), toRead)
      ensures Sound(old(cuts)) ==> err == 0 && Sound(cuts)
    {
      buf, err := [], 0;
      var remaining := toRead;
      while |buf| < toRead
        invariant |buf| <= toRead && remaining == toRead - |buf| && old(input) == buf + input && err == 0
        invariant Sound(old(cuts)) ==> Sound(cuts)
        decreases remaining
      {
        var data;
        data, err := Recv(remaining);
        if err != 0 {
          return;
        }
        if data == [] {
          assert buf == old(input);
          break;
        }
        buf := buf + data;
        remaining := remaining - |data|;
      }
    }

    /** streamsock_send */
    method SendAll(data: seq<Byte>) returns (err: int, ghost done: nat)
      modifies this`output, this`cuts
      ensures done <= |data| && output == old(output) + data[..done] && (err == 0 ==> done == |data|)
      ensures Sound(old(cuts)) ==> err == 0 && Sound(cuts)
    {
      var sent, remaining := 0, |data|;
      err, done := 0, 0;
      while sent < |data|
        invariant sent <= |data| && remaining == |data| - sent && done == sent && err == 0
        invariant output == old(output) + data[..sent]
        invariant Sound(old(cuts)) ==> Sound(cuts)
        decreases remaining
      {
        var n;
        n, err := Send(data[sent..]);
        assert data[..sent] + data[sent..][..n] == data[..sent + n];
        done := sent + n;
        if err != 0 {
          return;
        }
        sent, remaining := sent + n, remaining - n;
      }
    }
  }

  // --- Integers in frames, low byte first ---

  function Pow256(k: nat): (p: nat)
    ensures p > 0
  {
    if k == 0 then 1 else 256 * Pow256(k - 1)
  }

  function Encode(n: nat, k: nat): (b: seq<Byte>)
    ensures |b| == k
  {
    if k == 0 then [] else [n % 256] + Encode(n / 256, k - 1)
  }

  function Decode(b: seq<Byte>): nat {
    if b == [] then 0 else b[0] + 256 * Decode(b[1..])
  }

  lemma {:induction false} DecodeEncode(n: nat, k: nat)
    requires n < Pow256(k)
    ensures Decode(Encode(n, k)) == n
  {
    if k > 0 {
      DecodeEncode(n / 256, k - 1);
      assert Encode(n, k)[1..] == Encode(n / 256, k - 1);
    }
  }

  lemma {:induction false} EncodeDecode(b: seq<Byte>)
    ensures Encode(Decode(b), |b|) == b && Decode(b) < Pow256(|b|)
  {
    hide Pow256;
    Pow256Step(|b|);
    if b != [] {
      EncodeDecode(b[1..]);
      LowByte(b[0], Decode(b[1..]), Pow256(|b| - 1));
    }
  }

  lemma Pow256Step(k: nat)
    ensures Pow256(k) == if k == 0 then 1 else 256 * Pow256(k - 1)
  {
  }

  lemma LowByte(b: Byte, d: nat, p: nat)
    requires d < p
    ensures (b + 256 * d) % 256 == b && (b + 256 * d) / 256 == d && b + 256 * d < 256 * p
  {
  }

  const TWO32: nat := 0x1_0000_0000
  const TWO63: int := 0x8000_0000_0000_0000
  const TWO64: nat := 0x1_0000_0000_0000_0000

  function Signed64(n: nat): int {
    if n < TWO63 then n else n - TWO64
  }

  // --- Requests and responses ---

  const EPERM: int := 1
  const EPROTO: int := 71

  const PA_STAT_RESERVE: nat := 1
  const PA_GET_TAP_PARAMS: nat := 2
  const PA_SET_TAP_PARAMS: nat := 3
  const PA_ADD_UID_PARAMS: nat := 4
  const PA_REMOVE_UID_PARAMS: nat := 5
  const PA_GOODBYE: nat := 6

  const PA_NO_ERROR: int := 0
  const PA_BAD_PERMISSIONS: int := 1
  const PA_UID_NOT_FOUND: int := 2
  const PA_FAILURE: int := 4
  const PA_UID_EXISTS: int := 5

  datatype Request =
    | StatReserve(uid: nat)
    | GetTap(uid: nat)
    | SetTap(uid: nat, tapType: nat, tapValue: int)
    | AddUid(uid: nat, tapType: nat, tapValue: int)
    | RemoveUid(uid: nat)

  datatype Response =
    | StatResponse(rid: int, flags: int, error: int)
    | GetResponse(tapType: int, tapValue: int, error: int)
    | ErrorResponse(error: int)

  /** The size of the query that follows a request type; 0 for no such type. */
  function QuerySize(kind: nat): nat {
    if kind == PA_STAT_RESERVE || kind == PA_GET_TAP_PARAMS || kind == PA_REMOVE_UID_PARAMS then 8
    else if kind == PA_SET_TAP_PARAMS || kind == PA_ADD_UID_PARAMS then 24
    else 0
  }

  /** The fields of a query. The set and add queries hold type and value in opposite orders. */
  function Parse(kind: nat, q: seq<Byte>): Request
    requires QuerySize(kind) > 0 && |q| == QuerySize(kind)
  {
    var uid := Decode(q[..8]) % TWO32;
    if kind == PA_STAT_RESERVE then StatReserve(uid)
    else if kind == PA_GET_TAP_PARAMS then GetTap(uid)
    else if kind == PA_SET_TAP_PARAMS then SetTap(uid, Decode(q[8..16]), Signed64(Decode(q[16..24])))
    else if kind == PA_ADD_UID_PARAMS then AddUid(uid, Decode(q[16..24]), Signed64(Decode(q[8..16])))
    else RemoveUid(uid)
  }

  function SetError(out: Outcome): int {
    if out.err == -EPERM then PA_BAD_PERMISSIONS
    else if out.err == -EINVAL && out.error == PA_INVALID_INPUT then PA_INVALID_INPUT
    else if out.err == -ENOENT then PA_UID_NOT_FOUND
    else if out.err != 0 then PA_FAILURE
    else PA_NO_ERROR
  }

  function AddError(out: Outcome): int {
    if out.err == -EEXIST then PA_UID_EXISTS
    else if out.err == -EINVAL && out.error == PA_INVALID_INPUT then PA_INVALID_INPUT
    else if out.err == -EPERM then PA_BAD_PERMISSIONS
    else if out.err != 0 then PA_FAILURE
    else PA_NO_ERROR
  }

  function RemoveError(err: int): int {
    if err == -EPERM then PA_BAD_PERMISSIONS
    else if err == -ENOENT then PA_UID_NOT_FOUND
    else if err != 0 then PA_FAILURE
    else PA_NO_ERROR
  }

  /** One request, applied and answered. `r` holds the kernel's replies to it. */
  function Serve(s: State, pid: int, q: Request, r: StatReplies): (State, Response) {
    match q
    case StatReserve(uid) =>
      var (s', out) := Stat(s, uid, pid, r);
      (s', if out.err != 0 then StatResponse(0, 0, PA_FAILURE) else StatResponse(out.rid, out.flags, PA_NO_ERROR))
    case GetTap(uid) =>
      (s, match GetParams(s, uid)
          case None => GetResponse(0, 0, PA_UID_NOT_FOUND)
          case Some(p) => GetResponse(p.0, p.1, PA_NO_ERROR))
    case SetTap(uid, t, v) =>
      var (s', out) := SetParams(s, uid, t, v, r.rate);
      (s', ErrorResponse(SetError(out)))
    case AddUid(uid, t, v) =>
      var (s', out) := AddParams(s, uid, t, v);
      (s', ErrorResponse(AddError(out)))
    case RemoveUid(uid) =>
      var (s', err) := RemoveParams(s, uid);
      (s', ErrorResponse(RemoveError(err)))
  }

  // --- Responses on the wire ---

  /** Bytes the compiler pads a response with, never set. */
  type Padding = p: seq<Byte> | |p| == 4 witness [0, 0, 0, 0]

  function Wire(r: Response, pad: Padding): seq<Byte> {
    match r
    case StatResponse(rid, flags, error) => Encode(rid % TWO32, 4) + Encode(flags % TWO32, 4) + Encode(error % TWO32, 4)
    case GetResponse(t, v, error) => Encode(t % TWO64, 8) + Encode(v % TWO64, 8) + Encode(error % TWO32, 4) + pad
    case ErrorResponse(error) => Encode(error % TWO32, 4)
  }

  // --- The session ---

  /** How a session ends: the state, the responses sent, and the thread's result. */
  datatype Ending = Ending(state: State, sent: seq<Response>, err: int)

  /**
   What the n-th request of a session meets: the kernel's replies, and what other
   threads did to the database before it.
   */
  datatype World = World(replies: nat -> StatReplies, others: (nat, State) -> State, padding: nat -> Padding)

  /** The whole session, as a function of the bytes received. */
  function Run(s: State, pid: int, bytes: seq<Byte>, w: World, n: nat): Ending
    decreases |bytes|
  {
    if |bytes| < 4 then Ending(s, [], -EPROTO)
    else
      var kind := Decode(bytes[..4]);
      var rest := bytes[4..];
      if kind == PA_GOODBYE then Ending(s, [], 0)
      else if QuerySize(kind) == 0 then Ending(s, [], -EINVAL)
      else if |rest| < QuerySize(kind) then Ending(s, [], -EPROTO)
      else
        var (s', response) := Serve(w.others(n, s), pid, Parse(kind, rest[..QuerySize(kind)]), w.replies(n));
        var e := Run(s', pid, rest[QuerySize(kind)..], w, n + 1);
        e.(sent := [response] + e.sent)
  }

  function WireAll(sent: seq<Response>, w: World, n: nat): seq<Byte> {
    if sent == [] then [] else WireAll(sent[..|sent| - 1], w, n) + Wire(sent[|sent| - 1], w.padding(n + |sent| - 1))
  }

  /** The database that sessions work on. */
  class Server {
    var state: State
    constructor (s: State)
      ensures state == s
    {
      state := s;
    }
  }

  /**
   __do_handle_client: whatever way the socket cuts the stream, the operations
   applied and the bytes answered are those of the session as a function of the
   bytes received. When a transfer fails the session stops in the middle of that:
   the session of the bytes in `rest`, from the state reached, is what is missing,
   and only the last of the operations applied may not have been answered in full.
   */
  method HandleClient(sock: Socket, server: Server, pid: int, w: World)
    returns (ghost sent: seq<Response>, err: int, ghost broken: bool, ghost rest: seq<Byte>, ghost part: nat)
    modifies sock, server
    ensures Sound(old(sock.cuts)) ==> !broken
    ensures SentPart(old(sock.output), sock.output, sent, w, part)
    ensures !broken ==>
              && Ending(server.state, sent, err) == Run(old(server.state), pid, old(sock.input), w, 0)
              && part == |WireAll(sent, w, 0)|
    ensures broken ==>
              && err != 0 && IsSuffix(rest, old(sock.input))
              && Continues(Run(old(server.state), pid, old(sock.input), w, 0), sent,
                           Run(server.state, pid, rest, w, |sent|))
              && (sent != [] ==> part >= |WireAll(sent[..|sent| - 1], w, 0)|)
  {
    hide Serve, Parse, Decode, Wire, WireAll, Run, Continues, Sound, Take, Drop, QuerySize, IsSuffix, SentPart;
    sent, broken, rest := [], false, sock.input;
    var n := 0;
    ghost var total := Run(server.state, pid, sock.input, w, 0);
    SessionStarts(total, w);
    part := 0;
    SuffixSelf(sock.input);
    SentNothing(sock.output, w);
    while true
      invariant n == |sent| && part == |WireAll(sent, w, 0)|
      invariant SentPart(old(sock.output), sock.output, sent, w, part)
      invariant Continues(total, sent, Run(server.state, pid, sock.input, w, n))
      invariant IsSuffix(sock.input, old(sock.input)) && !broken
      invariant Sound(old(sock.cuts)) ==> Sound(sock.cuts)
      decreases |sock.input|
    {
      rest := sock.input;
      RunUnfold(server.state, pid, rest, w, n);
      FrontShorter(sent, w);
      var request;
      request, err := sock.Read(4);
      TakeDrop(rest, 4);
      if err != 0 {
        return sent, err, true, rest, part;
      }
      if |request| < 4 {
        SessionEnds(total, sent, server.state, -EPROTO);
        return sent, -EPROTO, false, rest, part;
      }
      var kind := Decode(request);
      if kind == PA_GOODBYE {
        SessionEnds(total, sent, server.state, 0);
        return sent, 0, false, rest, part;
      }
      if QuerySize(kind) == 0 {
        SessionEnds(total, sent, server.state, -EINVAL);
        return sent, -EINVAL, false, rest, part;
      }
      var query;
      TakeDrop(sock.input, QuerySize(kind));
      query, err := sock.Read(QuerySize(kind));
      if err != 0 {
        return sent, err, true, rest, part;
      }
      if |query| < QuerySize(kind) {
        SessionEnds(total, sent, server.state, -EPROTO);
        return sent, -EPROTO, false, rest, part;
      }
      SuffixOfSuffix(rest, old(sock.input), sock.input);
      var (s', response) := Serve(w.others(n, server.state), pid, Parse(kind, query), w.replies(n));
      server.state := s';
      rest := sock.input;
      ghost var done, output := 0, sock.output;
      err, done := sock.SendAll(Wire(response, w.padding(n)));
      SessionGoesOn(total, sent, response, Run(s', pid, rest, w, n + 1));
      SentMore(old(sock.output), output, sent, w, response, done);
      part := part + done;
      sent := sent + [response];
      n := n + 1;
      if err != 0 {
        return sent, err, true, rest, part;
      }
    }
  }

  predicate IsSuffix(rest: seq<Byte>, all: seq<Byte>) {
    |rest| <= |all| && rest == all[|all| - |rest|..]
  }

  lemma SuffixSelf(b: seq<Byte>)
    ensures IsSuffix(b, b)
  {
  }

  lemma SuffixOfSuffix(b: seq<Byte>, a: seq<Byte>, c: seq<Byte>)
    requires IsSuffix(b, a) && IsSuffix(c, b)
    ensures IsSuffix(c, a)
  {
  }

  lemma TakeDrop(s: seq<Byte>, n: nat)
    ensures Take(s, n) == (if n <= |s| then s[..n] else s) && Drop(s, n) == (if n <= |s| then s[n..] else [])
    ensures IsSuffix(Drop(s, n), s)
  {
  }

  lemma FrontShorter(sent: seq<Response>, w: World)
    ensures sent != [] ==> |WireAll(sent[..|sent| - 1], w, 0)| <= |WireAll(sent, w, 0)|
  {
    hide Wire;
  }

  /** `e` is what is left of the session `total` after the responses `sent`. */
  ghost predicate Continues(total: Ending, sent: seq<Response>, e: Ending) {
    total == Ending(e.state, sent + e.sent, e.err)
  }

  lemma SessionStarts(total: Ending, w: World)
    ensures Continues(total, [], total) && WireAll([], w, 0) == []
  {
    assert [] + total.sent == total.sent;
  }

  lemma SessionEnds(total: Ending, sent: seq<Response>, s: State, err: int)
    requires Continues(total, sent, Ending(s, [], err))
    ensures total == Ending(s, sent, err)
  {
    assert sent + [] == sent;
  }

  lemma SessionGoesOn(total: Ending, sent: seq<Response>, r: Response, e: Ending)
    requires Continues(total, sent, Ending(e.state, [r] + e.sent, e.err))
    ensures Continues(total, sent + [r], e)
  {
    Assoc(sent, [r], e.sent);
  }

  /** The first `part` bytes of the answers have gone out. */
  ghost predicate SentPart(before: seq<Byte>, output: seq<Byte>, sent: seq<Response>, w: World, part: nat) {
    part <= |WireAll(sent, w, 0)| && output == before + WireAll(sent, w, 0)[..part]
  }

  lemma SentNothing(output: seq<Byte>, w: World)
    ensures SentPart(output, output, [], w, 0)
  {
  }

  /** Of one more answer, `done` bytes have gone out. */
  lemma SentMore(before: seq<Byte>, output: seq<Byte>, sent: seq<Response>, w: World, r: Response, done: nat)
    requires SentPart(before, output, sent, w, |WireAll(sent, w, 0)|) && done <= |Wire(r, w.padding(|sent|))|
    ensures var wire := Wire(r, w.padding(|sent|)); var part := |WireAll(sent, w, 0)| + done;
            && |WireAll(sent + [r], w, 0)| == |WireAll(sent, w, 0)| + |wire| && (sent + [r])[..|sent|] == sent
            && SentPart(before, output + wire[..done], sent + [r], w, part)
  {
    hide Wire;
    assert (sent + [r])[..|sent|] == sent;
    var first, wire := WireAll(sent, w, 0), Wire(r, w.padding(|sent|));
    assert first[..|first|] == first && (first + wire)[..|first| + done] == first + wire[..done];
    Assoc(before, first, wire[..done]);
  }

  /** One turn of the session. */
  lemma RunUnfold(s: State, pid: int, bytes: seq<Byte>, w: World, n: nat)
    ensures Run(s, pid, bytes, w, n) ==
            if |bytes| < 4 then Ending(s, [], -EPROTO)
            else
              var kind := Decode(bytes[..4]);
              var rest := bytes[4..];
              if kind == PA_GOODBYE then Ending(s, [], 0)
              else if QuerySize(kind) == 0 then Ending(s, [], -EINVAL)
              else if |rest| < QuerySize(kind) then Ending(s, [], -EPROTO)
              else
                var (s', r) := Serve(w.others(n, s), pid, Parse(kind, rest[..QuerySize(kind)]), w.replies(n));
                var e := Run(s', pid, rest[QuerySize(kind)..], w, n + 1);
                Ending(e.state, [r] + e.sent, e.err)
  {
  }

  // --- Frames ---

  /** Whole frames of known types, no goodbye among them. */
  predicate Whole(bytes: seq<Byte>)
    decreases |bytes|
  {
    bytes != [] ==>
      && |bytes| >= 4
      && var size := QuerySize(Decode(bytes[..4]));
         size > 0 && |bytes| >= 4 + size && Whole(bytes[4 + size..])
  }

  /** The beginning of a frame that the stream ends in. */
  predicate Truncated(bytes: seq<Byte>) {
    |bytes| < 4 || (QuerySize(Decode(bytes[..4])) > 0 && |bytes| < 4 + QuerySize(Decode(bytes[..4])))
  }

  /** A session continues after whole frames as one that starts there. */
  lemma {:induction false} RunContinues(s: State, pid: int, whole: seq<Byte>, more: seq<Byte>, w: World, n: nat)
    requires Whole(whole)
    ensures var e := Run(s, pid, whole, w, n); var f := Run(e.state, pid, more, w, n + |e.sent|);
            Run(s, pid, whole + more, w, n) == Ending(f.state, e.sent + f.sent, f.err)
    decreases |whole|
  {
    hide Serve, Parse, Decode, Run, QuerySize;
    if whole == [] {
      assert [] + more == more && [] + Run(s, pid, more, w, n).sent == Run(s, pid, more, w, n).sent;
      RunUnfold(s, pid, whole, w, n);
    } else {
      var size := QuerySize(Decode(whole[..4]));
      var rest := whole[4 + size..];
      FrameSplit(whole, more, size);
      RunUnfold(s, pid, whole, w, n);
      RunUnfold(s, pid, whole + more, w, n);
      KnownKind(Decode(whole[..4]));
      var (s', r) := Serve(w.others(n, s), pid, Parse(Decode(whole[..4]), whole[4..][..size]), w.replies(n));
      RunContinues(s', pid, rest, more, w, n + 1);
      var e := Run(s', pid, rest, w, n + 1);
      var f := Run(e.state, pid, more, w, n + 1 + |e.sent|);
      assert [r] + (e.sent + f.sent) == ([r] + e.sent) + f.sent;
    }
  }

  lemma KnownKind(kind: nat)
    ensures QuerySize(kind) > 0 ==> kind != PA_GOODBYE
  {
  }

  lemma FrameSplit(whole: seq<Byte>, more: seq<Byte>, size: nat)
    requires |whole| >= 4 + size
    ensures (whole + more)[..4] == whole[..4] && (whole + more)[4..][..size] == whole[4..][..size]
    ensures (whole + more)[4..][size..] == whole[4 + size..] + more && whole[4..][size..] == whole[4 + size..]
  {
  }

  /** A frame cut short by the end of the stream changes nothing and is not answered. */
  lemma TruncatedFrameIgnored(s: State, pid: int, whole: seq<Byte>, part: seq<Byte>, w: World, n: nat)
    requires Whole(whole) && Truncated(part)
    ensures var e := Run(s, pid, whole, w, n);
            Run(s, pid, whole + part, w, n) == Ending(e.state, e.sent, -EPROTO)
  {
    hide Serve, Parse, Decode, Run, Whole, QuerySize;
    RunContinues(s, pid, whole, part, w, n);
    KnownKind(Decode(Take(part, 4)));
    var e := Run(s, pid, whole, w, n);
    RunUnfold(e.state, pid, part, w, n + |e.sent|);
    assert e.sent + [] == e.sent;
  }

  // --- What a client encodes is what the server does ---

  /** The number that a client puts in front of a request. */
  function KindOf(q: Request): nat {
    match q
    case StatReserve(_) => 1
    case GetTap(_) => 2
    case SetTap(_, _, _) => 3
    case AddUid(_, _, _) => 4
    case RemoveUid(_) => 5
  }

  /** The query structure of a request. */
  function Body(q: Request): seq<Byte> {
    match q
    case SetTap(uid, t, v) => Encode(uid, 8) + Encode(t, 8) + Encode(v % TWO64, 8)
    case AddUid(uid, t, v) => Encode(uid, 8) + Encode(v % TWO64, 8) + Encode(t, 8)
    case _ => Encode(q.uid, 8)
  }

  predicate FitsFrame(q: Request) {
    && q.uid < TWO64
    && (q.SetTap? || q.AddUid? ==> q.tapType < TWO64 && -TWO63 <= q.tapValue < TWO63)
  }

  lemma Pow256Eight()
    ensures Pow256(8) == TWO64 && Pow256(4) == TWO32
  {
    assert Pow256(2) == 256 * Pow256(1);
    assert Pow256(4) == 256 * (256 * Pow256(2));
    assert Pow256(6) == 256 * (256 * Pow256(4));
    assert Pow256(8) == 256 * (256 * Pow256(6));
  }

  /** The server reads back every field the client wrote, but for the high half of the UID. */
  lemma ParseBody(q: Request)
    requires FitsFrame(q)
    ensures |Body(q)| == QuerySize(KindOf(q)) && Parse(KindOf(q), Body(q)) == q.(uid := q.uid % TWO32)
  {
    hide Encode, Decode, Pow256;
    Pow256Eight();
    DecodeEncode(q.uid, 8);
    var b := Body(q);
    assert b[..8] == Encode(q.uid, 8);
    if q.SetTap? || q.AddUid? {
      DecodeEncode(q.tapType, 8);
      DecodeEncode(q.tapValue % TWO64, 8);
      assert Signed64(q.tapValue % TWO64) == q.tapValue;
      var first, second := b[8..16], b[16..24];
      if q.SetTap? {
        assert first == Encode(q.tapType, 8) && second == Encode(q.tapValue % TWO64, 8);
      } else {
        assert first == Encode(q.tapValue % TWO64, 8) && second == Encode(q.tapType, 8);
      }
    }
  }

  /** A framed request is served, then the session goes on. */
  lemma FrameServed(s: State, pid: int, q: Request, rest: seq<Byte>, w: World, n: nat)
    requires FitsFrame(q)
    ensures var frame := Encode(KindOf(q), 4) + Body(q);
            var (s', response) := Serve(w.others(n, s), pid, q.(uid := q.uid % TWO32), w.replies(n));
            var e := Run(s', pid, rest, w, n + 1);
            Run(s, pid, frame + rest, w, n) == Ending(e.state, [response] + e.sent, e.err)
  {
    hide Serve, Encode, Decode, Body, Pow256, Parse;
    Pow256Eight();
    DecodeEncode(KindOf(q), 4);
    ParseBody(q);
    var kind, body := Encode(KindOf(q), 4), Body(q);
    var bytes := (kind + body) + rest;
    assert bytes[..4] == kind && bytes[4..][..|body|] == body && bytes[4..][|body|..] == rest;
  }
}
