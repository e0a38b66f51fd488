/** The protocol byte by byte: which bytes make which request, and which bytes answer it. */
module Frames {
  import opened ArbiterSpec
  import opened Session

  /** A 32-bit integer at offset `k`, low byte first. */
  function Le32(b: seq<Byte>, k: nat): nat
    requires k + 4 <= |b|
  {
    var b0: nat, b1: nat, b2: nat, b3: nat := b[k], b[k + 1], b[k + 2], b[k + 3];
    b0 + 0x100 * b1 + 0x1_0000 * b2 + 0x100_0000 * b3
  }

  /** A 64-bit integer at offset `k`, low byte first. */
  function Le64(b: seq<Byte>, k: nat): nat
    requires k + 8 <= |b|
  {
    Le32(b, k) + 0x1_0000_0000 * Le32(b, k + 4)
  }

  /** A signed 64-bit integer at offset `k`, low byte first. */
  function SignedLe64(b: seq<Byte>, k: nat): int
    requires k + 8 <= |b|
  {
    if b[k + 7] < 0x80 then Le64(b, k) else Le64(b, k) - 0x1_0000_0000_0000_0000
  }

  lemma DecodeStep(b: seq<Byte>, k: nat)
    requires k <= |b|
    ensures Decode(b[k..]) == if k == |b| then 0 else b[k] + 256 * Decode(b[k + 1..])
  {
    if k < |b| {
      assert b[k..][0] == b[k] && b[k..][1..] == b[k + 1..];
    }
  }

  lemma DecodeFour(b: seq<Byte>)
    requires |b| == 4
    ensures Decode(b) == Le32(b, 0)
  {
    hide Decode;
    assert b[0..] == b;
    DecodeStep(b, 0);
    DecodeStep(b, 1);
    DecodeStep(b, 2);
    DecodeStep(b, 3);
    DecodeStep(b, 4);
  }

  lemma {:induction false} DecodeJoin(a: seq<Byte>, b: seq<Byte>)
    ensures Decode(a + b) == Decode(a) + Pow256(|a|) * Decode(b)
  {
    if a == [] {
      assert a + b == b;
    } else {
      assert (a + b)[1..] == a[1..] + b;
      DecodeJoin(a[1..], b);
      Distribute(Decode(a[1..]), Pow256(|a| - 1), Decode(b));
    }
  }

  lemma Distribute(x: nat, p: nat, y: nat)
    ensures 256 * (x + p * y) == 256 * x + (256 * p) * y
  {
  }

  lemma DecodeEight(b: seq<Byte>, k: nat)
    requires k + 8 <= |b|
    ensures Decode(b[k..k + 8]) == Le64(b, k) && Decode(b[k..k + 8]) % 0x1_0000_0000 == Le32(b, k)
    ensures Signed64(Decode(b[k..k + 8])) == SignedLe64(b, k)
  {
    hide Decode, Pow256;
    var lo, hi := b[k..k + 4], b[k + 4..k + 8];
    assert b[k..k + 8] == lo + hi;
    Pow256Eight();
    DecodeJoin(lo, hi);
    DecodeFour(lo);
    DecodeFour(hi);
  }

  /** The request served and answered, and the session going on with `rest`. */
  function Served(s: State, pid: int, q: Request, rest: seq<Byte>, w: World, n: nat): Ending {
    var (s', response) := Serve(w.others(n, s), pid, q, w.replies(n));
    var e := Run(s', pid, rest, w, n + 1);
    Ending(e.state, [response] + e.sent, e.err)
  }

  /** How many bytes follow a first word that names a request. */
  lemma QueryBytes(kind: nat)
    ensures QuerySize(kind) ==
            if kind == 1 || kind == 2 || kind == 5 then 8 else if kind == 3 || kind == 4 then 24 else 0
  {
  }

  lemma ParseBytes(kind: nat, q: seq<Byte>)
    requires QuerySize(kind) > 0 && |q| == QuerySize(kind)
    ensures var uid := Le32(q, 0);
            Parse(kind, q) == match kind
                              case 1 => StatReserve(uid)
                              case 2 => GetTap(uid)
                              case 3 => SetTap(uid, Le64(q, 8), SignedLe64(q, 16))
                              case 4 => AddUid(uid, Le64(q, 16), SignedLe64(q, 8))
                              case _ => RemoveUid(uid)
  {
    hide Decode, Le32, Le64, SignedLe64, Signed64;
    assert q[..8] == q[0..8];
    DecodeEight(q, 0);
    if |q| == 24 {
      DecodeEight(q, 8);
      DecodeEight(q, 16);
    }
  }

  /** A query and what follows it. */
  lemma TakeQuery(q: seq<Byte>, size: nat, k: nat)
    requires k + 8 <= size <= |q|
    ensures Le32(q[..size], k) == Le32(q, k) && Le64(q[..size], k) == Le64(q, k)
    ensures SignedLe64(q[..size], k) == SignedLe64(q, k)
  {
  }

  lemma FrameParsed(q: seq<Byte>, kind: nat)
    requires QuerySize(kind) > 0 && |q| >= QuerySize(kind)
    ensures var uid := Le32(q, 0);
            Parse(kind, q[..QuerySize(kind)]) == match kind
                                                 case 1 => StatReserve(uid)
                                                 case 2 => GetTap(uid)
                                                 case 3 => SetTap(uid, Le64(q, 8), SignedLe64(q, 16))
                                                 case 4 => AddUid(uid, Le64(q, 16), SignedLe64(q, 8))
                                                 case _ => RemoveUid(uid)
  {
    hide Le32, Le64, SignedLe64, Parse;
    var size := QuerySize(kind);
    QueryBytes(kind);
    ParseBytes(kind, q[..size]);
    TakeQuery(q, size, 0);
    if size == 24 {
      TakeQuery(q, size, 8);
      TakeQuery(q, size, 16);
    }
  }

  /**
   What each first word of a frame makes the session do, by the bytes alone. Words
   1 to 5 are the requests, with their fields at fixed offsets; 6 ends the session;
   any other word ends it with an error, before anything more is read.
   */
  lemma FirstWord(s: State, pid: int, bytes: seq<Byte>, w: World, n: nat)
    ensures |bytes| < 4 ==> Run(s, pid, bytes, w, n) == Ending(s, [], -71)
    ensures |bytes| >= 4 ==>
            var word, q := Le32(bytes, 0), bytes[4..];
            var e := Run(s, pid, bytes, w, n);
            && (word == 1 && |q| >= 8 ==> e == Served(s, pid, StatReserve(Le32(q, 0)), q[8..], w, n))
            && (word == 2 && |q| >= 8 ==> e == Served(s, pid, GetTap(Le32(q, 0)), q[8..], w, n))
            && (word == 3 && |q| >= 24 ==>
                  e == Served(s, pid, SetTap(Le32(q, 0), Le64(q, 8), SignedLe64(q, 16)), q[24..], w, n))
            && (word == 4 && |q| >= 24 ==>
                  e == Served(s, pid, AddUid(Le32(q, 0), Le64(q, 16), SignedLe64(q, 8)), q[24..], w, n))
            && (word == 5 && |q| >= 8 ==> e == Served(s, pid, RemoveUid(Le32(q, 0)), q[8..], w, n))
            && (word == 6 ==> e == Ending(s, [], 0))
            && (word == 0 || word > 6 ==> e == Ending(s, [], -22))
            && ((word == 1 || word == 2 || word == 5) && |q| < 8 ==> e == Ending(s, [], -71))
            && ((word == 3 || word == 4) && |q| < 24 ==> e == Ending(s, [], -71))
  {
    hide Run, Serve, Parse, Decode, Le32, Le64, SignedLe64, QuerySize;
    RunUnfold(s, pid, bytes, w, n);
    if |bytes| >= 4 {
      DecodeFour(bytes[..4]);
      FirstFour(bytes);
      var word, q := Le32(bytes, 0), bytes[4..];
      QueryBytes(word);
      if QuerySize(word) > 0 && |q| >= QuerySize(word) {
        FrameParsed(q, word);
      }
    }
  }

  lemma FirstFour(bytes: seq<Byte>)
    requires |bytes| >= 4
    ensures Le32(bytes[..4], 0) == Le32(bytes, 0)
  {
  }

  // --- Responses ---

  lemma EncodeFour(n: nat)
    requires n < 0x1_0000_0000
    ensures Le32(Encode(n, 4), 0) == n
  {
    hide Encode, Decode, Pow256;
    Pow256Eight();
    DecodeEncode(n, 4);
    DecodeFour(Encode(n, 4));
  }

  lemma EncodeEight(n: nat)
    requires n < 0x1_0000_0000_0000_0000
    ensures Le64(Encode(n, 8), 0) == n
  {
    hide Encode, Decode, Pow256, Le64;
    Pow256Eight();
    DecodeEncode(n, 8);
    var b := Encode(n, 8);
    assert b[0..8] == b;
    DecodeEight(b, 0);
  }

  /** A small code is its own low byte. */
  lemma CodeBytes(code: nat)
    requires code < 256
    ensures Encode(code, 4) == [code, 0, 0, 0]
  {
    hide Encode, Decode;
    EncodeFour(code);
    var b := Encode(code, 4);
    assert b[0] == code && b[1] == 0 && b[2] == 0 && b[3] == 0;
  }

  lemma Shift(a: seq<Byte>, b: seq<Byte>, c: seq<Byte>)
    ensures |b| >= 4 ==> Le32(a + b + c, |a|) == Le32(b, 0)
    ensures |b| >= 8 ==> Le64(a + b + c, |a|) == Le64(b, 0)
  {
  }

  /** Where the fields of the response to a stat are. */
  lemma StatBytes(rid: int, flags: int, error: int, pad: Padding)
    ensures var b := Wire(StatResponse(rid, flags, error), pad);
            && |b| == 12 && Le32(b, 0) == rid % 0x1_0000_0000
            && Le32(b, 4) == flags % 0x1_0000_0000 && Le32(b, 8) == error % 0x1_0000_0000
  {
    hide Encode, Le32;
    var first, second, third := Encode(rid % TWO32, 4), Encode(flags % TWO32, 4), Encode(error % TWO32, 4);
    EncodeFour(rid % TWO32);
    EncodeFour(flags % TWO32);
    EncodeFour(error % TWO32);
    Shift([], first, second + third);
    Shift(first, second, third);
    Shift(first + second, third, []);
    assert [] + first + (second + third) == first + second + third == (first + second) + third + [];
  }

  /** And those of the response to a get. */
  lemma GetBytes(t: int, v: int, error: int, pad: Padding)
    ensures var b := Wire(GetResponse(t, v, error), pad);
            && |b| == 24 && Le64(b, 0) == t % 0x1_0000_0000_0000_0000
            && Le64(b, 8) == v % 0x1_0000_0000_0000_0000
            && Le32(b, 16) == error % 0x1_0000_0000 && b[20..] == pad
  {
    hide Encode, Le32, Le64;
    var first, second, third := Encode(t % TWO64, 8), Encode(v % TWO64, 8), Encode(error % TWO32, 4);
    EncodeEight(t % TWO64);
    EncodeEight(v % TWO64);
    EncodeFour(error % TWO32);
    Shift([], first, second + third + pad);
    Shift(first, second, third + pad);
    Shift(first + second, third, pad);
    Regroup(first, second, third, pad);
  }

  lemma Regroup(a: seq<Byte>, b: seq<Byte>, c: seq<Byte>, d: seq<Byte>)
    ensures a + b + c + d == [] + a + (b + c + d) == a + b + (c + d)
  {
  }
}
