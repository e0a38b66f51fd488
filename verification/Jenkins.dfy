/** HASH_JEN, the default hash function, and what it cannot lose. */
module Jenkins {
  import opened Words

  const WORD: int := 0x1_0000_0000

  type Word = w: nat | w < 0x1_0000_0000
  type Byte = b: nat | b < 256

  datatype State = State(i: Word, j: Word, h: Word)

  function Add(x: Word, y: Word): Word {
    (x + y) % WORD
  }

  function Sub(x: Word, y: Word): Word {
    (x + WORD - y) % WORD
  }

  function Shl(x: Word, k: nat): Word {
    x * Pow2(k) % WORD
  }

  function XorWord(x: Word, m: Word): Word {
    Pow2Word();
    XorBelow(x, m, 32);
    Xor(x, m)
  }

  function ShrWord(x: Word, k: nat): Word {
    ShrBelow(x, k);
    Shr(x, k)
  }

  // --- HASH_JEN_MIX ---

  lemma SubAdd(x: Word, y: Word)
    ensures Add(Sub(x, y), y) == x && Sub(Add(x, y), y) == x
  {
  }

  /** One line of the macro: x -= y; x -= z; x ^= m */
  function SubSubXor(x: Word, y: Word, z: Word, m: Word): Word {
    XorWord(Sub(Sub(x, y), z), m)
  }

  function XorAddAdd(x: Word, y: Word, z: Word, m: Word): Word {
    Add(Add(XorWord(x, m), z), y)
  }

  lemma LineUndone(x: Word, y: Word, z: Word, m: Word)
    ensures XorAddAdd(SubSubXor(x, y, z, m), y, z, m) == x
    ensures SubSubXor(XorAddAdd(x, y, z, m), y, z, m) == x
  {
    hide Sub, Add, Xor;
    SubAdd(x, y);
    SubAdd(Sub(x, y), z);
    XorTwice(Sub(Sub(x, y), z), m);
    XorTwice(x, m);
    SubAdd(XorWord(x, m), z);
    SubAdd(Add(XorWord(x, m), z), y);
  }

  /** Three lines of the macro, with their shift distances. */
  function Round(s: State, p: nat, q: nat, r: nat): State {
    var a := SubSubXor(s.i, s.j, s.h, ShrWord(s.h, p));
    var b := SubSubXor(s.j, s.h, a, Shl(a, q));
    var c := SubSubXor(s.h, a, b, ShrWord(b, r));
    State(a, b, c)
  }

  function Unround(s: State, p: nat, q: nat, r: nat): State {
    var c := XorAddAdd(s.h, s.i, s.j, ShrWord(s.j, r));
    var b := XorAddAdd(s.j, c, s.i, Shl(s.i, q));
    var a := XorAddAdd(s.i, b, c, ShrWord(c, p));
    State(a, b, c)
  }

  lemma RoundUndone(s: State, p: nat, q: nat, r: nat)
    ensures Unround(Round(s, p, q, r), p, q, r) == s
    ensures Round(Unround(s, p, q, r), p, q, r) == s
  {
    hide SubSubXor, XorAddAdd, Shl, ShrWord;
    var t := Round(s, p, q, r);
    LineUndone(s.h, t.i, t.j, ShrWord(t.j, r));
    LineUndone(s.j, s.h, t.i, Shl(t.i, q));
    LineUndone(s.i, s.j, s.h, ShrWord(s.h, p));
    var u := Unround(s, p, q, r);
    LineUndone(s.i, u.j, u.h, ShrWord(u.h, p));
    LineUndone(s.j, u.h, s.i, Shl(s.i, q));
    LineUndone(s.h, s.i, s.j, ShrWord(s.j, r));
  }

  function Mix(s: State): State {
    Round(Round(Round(s, 13, 8, 13), 12, 16, 5), 3, 10, 15)
  }

  /** HASH_JEN_MIX, assignment by assignment */
  method MixWords(i: Word, j: Word, h: Word) returns (a: Word, b: Word, c: Word)
    ensures State(a, b, c) == Mix(State(i, j, h))
  {
    hide Sub, XorWord, Shl, ShrWord;
    a, b, c := i, j, h;
    a := Sub(a, b); a := Sub(a, c); a := XorWord(a, ShrWord(c, 13));
    b := Sub(b, c); b := Sub(b, a); b := XorWord(b, Shl(a, 8));
    c := Sub(c, a); c := Sub(c, b); c := XorWord(c, ShrWord(b, 13));
    a := Sub(a, b); a := Sub(a, c); a := XorWord(a, ShrWord(c, 12));
    b := Sub(b, c); b := Sub(b, a); b := XorWord(b, Shl(a, 16));
    c := Sub(c, a); c := Sub(c, b); c := XorWord(c, ShrWord(b, 5));
    a := Sub(a, b); a := Sub(a, c); a := XorWord(a, ShrWord(c, 3));
    b := Sub(b, c); b := Sub(b, a); b := XorWord(b, Shl(a, 10));
    c := Sub(c, a); c := Sub(c, b); c := XorWord(c, ShrWord(b, 15));
  }

  function Unmix(s: State): State {
    Unround(Unround(Unround(s, 3, 10, 15), 12, 16, 5), 13, 8, 13)
  }

  /** HASH_JEN_MIX is a bijection on triples of 32-bit words. */
  lemma MixInvertible(s: State)
    ensures Unmix(Mix(s)) == s && Mix(Unmix(s)) == s
  {
    hide Round, Unround;
    var a := Round(s, 13, 8, 13);
    var b := Round(a, 12, 16, 5);
    RoundUndone(s, 13, 8, 13);
    RoundUndone(a, 12, 16, 5);
    RoundUndone(b, 3, 10, 15);
    var c := Unround(s, 3, 10, 15);
    var d := Unround(c, 12, 16, 5);
    RoundUndone(s, 3, 10, 15);
    RoundUndone(c, 12, 16, 5);
    RoundUndone(d, 13, 8, 13);
  }

  lemma MixInjective(s: State, t: State)
    requires Mix(s) == Mix(t)
    ensures s == t
  {
    MixInvertible(s);
    MixInvertible(t);
  }

  // --- Packing bytes into words ---

  /** A key byte as a C `char` promoted to int: negative on targets where `char` is signed. */
  function Ext(b: Byte, signedChar: bool): int {
    if signedChar && b >= 128 then b - 256 else b
  }

  /** Four key bytes, low byte first. */
  function Pack(b0: Byte, b1: Byte, b2: Byte, b3: Byte, sc: bool): int {
    Ext(b0, sc) + 0x100 * Ext(b1, sc) + 0x1_0000 * Ext(b2, sc) + 0x100_0000 * Ext(b3, sc)
  }

  /** x += p, on an unsigned word. */
  function Plus(x: Word, p: int): Word {
    (x + p) % WORD
  }

  lemma PlusPlus(x: Word, p: int, q: int)
    ensures Plus(Plus(x, p), q) == Plus(x, p + q)
  {
    var y := x + p;
    assert y == WORD * (y / WORD) + y % WORD;
    assert y + q == WORD * (y / WORD) + (y % WORD + q);
  }

  lemma SameResidue(x: int, y: int)
    requires x % WORD == y % WORD && -WORD < x - y < WORD
    ensures x == y
  {
    assert x == WORD * (x / WORD) + x % WORD && y == WORD * (y / WORD) + y % WORD;
  }

  lemma PlusInjective(x: Word, y: Word, p: int)
    requires Plus(x, p) == Plus(y, p)
    ensures x == y
  {
    SameResidue(x + p, y + p);
  }

  lemma ExtApart(b: Byte, c: Byte, sc: bool)
    ensures -256 < Ext(b, sc) - Ext(c, sc) < 256
    ensures Ext(b, sc) == Ext(c, sc) ==> b == c
  {
  }

  lemma PackInjective(x: Word, b0: Byte, b1: Byte, b2: Byte, b3: Byte, c0: Byte, c1: Byte, c2: Byte, c3: Byte, sc: bool)
    requires Plus(x, Pack(b0, b1, b2, b3, sc)) == Plus(x, Pack(c0, c1, c2, c3, sc))
    ensures b0 == c0 && b1 == c1 && b2 == c2 && b3 == c3
  {
    hide Ext;
    ExtApart(b0, c0, sc);
    ExtApart(b1, c1, sc);
    ExtApart(b2, c2, sc);
    ExtApart(b3, c3, sc);
    SameResidue(x + Pack(b0, b1, b2, b3, sc), x + Pack(c0, c1, c2, c3, sc));
    DigitsZero(Ext(b0, sc) - Ext(c0, sc), Ext(b1, sc) - Ext(c1, sc), Ext(b2, sc) - Ext(c2, sc),
               Ext(b3, sc) - Ext(c3, sc));
  }

  lemma DigitsZero(d0: int, d1: int, d2: int, d3: int)
    requires -256 < d0 < 256 && -256 < d1 < 256 && -256 < d2 < 256 && -256 < d3 < 256
    requires d0 + 0x100 * d1 + 0x1_0000 * d2 + 0x100_0000 * d3 == 0
    ensures d0 == 0 && d1 == 0 && d2 == 0 && d3 == 0
  {
    var u := d1 + 0x100 * d2 + 0x1_0000 * d3;
    assert d0 == -0x100 * u;
    var v := d2 + 0x100 * d3;
    assert d1 == -0x100 * v;
  }

  // --- The hash ---

  /** A full 12-byte block: add its words, then mix. */
  function Absorb(s: State, b: seq<Byte>, sc: bool): State
    requires |b| == 12
  {
    Mix(State(Plus(s.i, Pack(b[0], b[1], b[2], b[3], sc)),
              Plus(s.j, Pack(b[4], b[5], b[6], b[7], sc)),
              Plus(s.h, Pack(b[8], b[9], b[10], b[11], sc))))
  }

  /** Byte `k` of the last, partial block; absent bytes add nothing. */
  function TailByte(t: seq<Byte>, k: nat): Byte {
    if k < |t| then t[k] else 0
  }

  /** The sums over the last, partial block and the key length. */
  function AddTail(s: State, t: seq<Byte>, len: nat, sc: bool): State {
    State(Plus(s.i, Pack(TailByte(t, 0), TailByte(t, 1), TailByte(t, 2), TailByte(t, 3), sc)),
          Plus(s.j, Pack(TailByte(t, 4), TailByte(t, 5), TailByte(t, 6), TailByte(t, 7), sc)),
          Plus(Plus(s.h, len), Pack(0, TailByte(t, 8), TailByte(t, 9), TailByte(t, 10), sc)))
  }

  /** The state the hash ends in, from state `s` with `key` still to read. */
  function Final(s: State, key: seq<Byte>, len: nat, sc: bool): State
    decreases |key|
  {
    hide Mix, Absorb, AddTail;
    if |key| >= 12 then Final(Absorb(s, key[..12], sc), key[12..], len, sc)
    else Mix(AddTail(s, key, len, sc))
  }

  const START := State(0x9e3779b9, 0x9e3779b9, 0xfeedbeef)

  function HashState(key: seq<Byte>, sc: bool): State {
    Final(START, key, |key|, sc)
  }

  /** HASH_JEN */
  method HashJen(key: seq<Byte>, sc: bool) returns (s: State)
    ensures s == HashState(key, sc)
  {
    hide Mix, Plus, Pack, AddTail;
    s := START;
    var rest := key;
    while |rest| >= 12
      invariant Final(s, rest, |key|, sc) == HashState(key, sc)
    {
      var i := Plus(s.i, Pack(rest[0], rest[1], rest[2], rest[3], sc));
      var j := Plus(s.j, Pack(rest[4], rest[5], rest[6], rest[7], sc));
      var h := Plus(s.h, Pack(rest[8], rest[9], rest[10], rest[11], sc));
      assert Mix(State(i, j, h)) == Absorb(s, rest[..12], sc);
      i, j, h := MixWords(i, j, h);
      s := State(i, j, h);
      rest := rest[12..];
    }
    s := SumTail(s, rest, |key|, sc);
    var i, j, h := MixWords(s.i, s.j, s.h);
    s := State(i, j, h);
  }

  /** The fall-through switch over the bytes left. */
  method SumTail(s: State, t: seq<Byte>, len: nat, sc: bool) returns (r: State)
    requires |t| < 12
    ensures r == AddTail(s, t, len, sc)
  {
    hide Plus, Pack, Ext;
    var h := Plus(s.h, len);
    PlusParts(h, 0, TailByte(t, 8), TailByte(t, 9), TailByte(t, 10), sc);
    if |t| >= 11 { h := Plus(h, 0x100_0000 * Ext(t[10], sc)); }
    if |t| >= 10 { h := Plus(h, 0x1_0000 * Ext(t[9], sc)); }
    if |t| >= 9  { h := Plus(h, 0x100 * Ext(t[8], sc)); }
    var j := SumTailWord(s.j, t, 4, sc);
    var i := SumTailWord(s.i, t, 0, sc);
    r := State(i, j, h);
  }

  /** Four cases of the switch: what is left of the word at `k`. */
  method SumTailWord(x: Word, t: seq<Byte>, k: nat, sc: bool) returns (y: Word)
    ensures y == Plus(x, Pack(TailByte(t, k), TailByte(t, k + 1), TailByte(t, k + 2), TailByte(t, k + 3), sc))
  {
    hide Plus, Pack, Ext;
    PlusParts(x, TailByte(t, k), TailByte(t, k + 1), TailByte(t, k + 2), TailByte(t, k + 3), sc);
    y := x;
    if |t| >= k + 4 { y := Plus(y, 0x100_0000 * Ext(t[k + 3], sc)); }
    if |t| >= k + 3 { y := Plus(y, 0x1_0000 * Ext(t[k + 2], sc)); }
    if |t| >= k + 2 { y := Plus(y, 0x100 * Ext(t[k + 1], sc)); }
    if |t| >= k + 1 { y := Plus(y, Ext(t[k], sc)); }
  }

  /** Adding a word is adding its parts from the top byte down, and a zero byte adds nothing. */
  lemma PlusParts(x: Word, b0: Byte, b1: Byte, b2: Byte, b3: Byte, sc: bool)
    ensures Plus(Plus(Plus(Plus(x, 0x100_0000 * Ext(b3, sc)), 0x1_0000 * Ext(b2, sc)), 0x100 * Ext(b1, sc)),
                 Ext(b0, sc))
            == Plus(x, Pack(b0, b1, b2, b3, sc))
    ensures Ext(0, sc) == 0
    ensures forall y: Word :: Plus(y, 0) == y
  {
    var p3, p2, p1 := 0x100_0000 * Ext(b3, sc), 0x1_0000 * Ext(b2, sc), 0x100 * Ext(b1, sc);
    PlusPlus(x, p3, p2);
    PlusPlus(x, p3 + p2, p1);
    PlusPlus(x, p3 + p2 + p1, Ext(b0, sc));
    forall y: Word
      ensures Plus(y, 0) == y
    {
    }
  }

  lemma AbsorbInjective(s: State, t: State, b: seq<Byte>, c: seq<Byte>, sc: bool)
    requires |b| == 12 == |c| && Absorb(s, b, sc) == Absorb(t, c, sc)
    ensures b == c ==> s == t
    ensures s == t ==> b == c
  {
    hide Mix, Plus, Pack;
    MixInjective(State(Plus(s.i, Pack(b[0], b[1], b[2], b[3], sc)),
                       Plus(s.j, Pack(b[4], b[5], b[6], b[7], sc)),
                       Plus(s.h, Pack(b[8], b[9], b[10], b[11], sc))),
                 State(Plus(t.i, Pack(c[0], c[1], c[2], c[3], sc)),
                       Plus(t.j, Pack(c[4], c[5], c[6], c[7], sc)),
                       Plus(t.h, Pack(c[8], c[9], c[10], c[11], sc))));
    if b == c {
      PlusInjective(s.i, t.i, Pack(b[0], b[1], b[2], b[3], sc));
      PlusInjective(s.j, t.j, Pack(b[4], b[5], b[6], b[7], sc));
      PlusInjective(s.h, t.h, Pack(b[8], b[9], b[10], b[11], sc));
    }
    if s == t {
      PackInjective(s.i, b[0], b[1], b[2], b[3], c[0], c[1], c[2], c[3], sc);
      PackInjective(s.j, b[4], b[5], b[6], b[7], c[4], c[5], c[6], c[7], sc);
      PackInjective(s.h, b[8], b[9], b[10], b[11], c[8], c[9], c[10], c[11], sc);
    }
  }

  lemma TailInjective(s: State, t: State, b: seq<Byte>, c: seq<Byte>, len: nat, sc: bool)
    requires |b| == |c| < 12 && AddTail(s, b, len, sc) == AddTail(t, c, len, sc)
    ensures b == c ==> s == t
    ensures s == t ==> b == c
  {
    hide Plus, Pack;
    if b == c {
      PlusInjective(s.i, t.i, Pack(TailByte(b, 0), TailByte(b, 1), TailByte(b, 2), TailByte(b, 3), sc));
      PlusInjective(s.j, t.j, Pack(TailByte(b, 4), TailByte(b, 5), TailByte(b, 6), TailByte(b, 7), sc));
      PlusInjective(Plus(s.h, len), Plus(t.h, len), Pack(0, TailByte(b, 8), TailByte(b, 9), TailByte(b, 10), sc));
      PlusInjective(s.h, t.h, len);
    }
    if s == t {
      PackInjective(s.i, TailByte(b, 0), TailByte(b, 1), TailByte(b, 2), TailByte(b, 3),
                    TailByte(c, 0), TailByte(c, 1), TailByte(c, 2), TailByte(c, 3), sc);
      PackInjective(s.j, TailByte(b, 4), TailByte(b, 5), TailByte(b, 6), TailByte(b, 7),
                    TailByte(c, 4), TailByte(c, 5), TailByte(c, 6), TailByte(c, 7), sc);
      PackInjective(Plus(s.h, len), 0, TailByte(b, 8), TailByte(b, 9), TailByte(b, 10),
                    0, TailByte(c, 8), TailByte(c, 9), TailByte(c, 10), sc);
      forall k | 0 <= k < |b|
        ensures b[k] == c[k]
      {
        assert TailByte(b, k) == TailByte(c, k);
      }
    }
  }

  /** What is still to be read never merges two different states. */
  lemma {:induction false} FinalInjective(s: State, t: State, key: seq<Byte>, len: nat, sc: bool)
    requires Final(s, key, len, sc) == Final(t, key, len, sc)
    ensures s == t
    decreases |key|
  {
    hide Mix, AddTail, Absorb;
    if |key| >= 12 {
      FinalInjective(Absorb(s, key[..12], sc), Absorb(t, key[..12], sc), key[12..], len, sc);
      AbsorbInjective(s, t, key[..12], key[..12], sc);
    } else {
      MixInjective(AddTail(s, key, len, sc), AddTail(t, key, len, sc));
      TailInjective(s, t, key, key, len, sc);
    }
  }

  /** Keys of one length that differ only inside one aligned 12-byte block, or only in the tail. */
  ghost predicate DifferInOneBlock(k: seq<Byte>, m: seq<Byte>, block: nat) {
    && |k| == |m| && k != m
    && forall x :: 0 <= x < |k| && k[x] != m[x] ==> x / 12 == block
  }

  /** Such keys always end in different states. */
  lemma {:induction false} OneBlockDifferenceSurvives(s: State, k: seq<Byte>, m: seq<Byte>, block: nat, len: nat,
                                                      sc: bool)
    requires DifferInOneBlock(k, m, block)
    ensures Final(s, k, len, sc) != Final(s, m, len, sc)
    decreases |k|
  {
    hide Mix, AddTail, Absorb;
    if |k| < 12 {
      if Final(s, k, len, sc) == Final(s, m, len, sc) {
        MixInjective(AddTail(s, k, len, sc), AddTail(s, m, len, sc));
        TailInjective(s, s, k, m, len, sc);
      }
    } else if block == 0 {
      assert k[12..] == m[12..] && k == k[..12] + k[12..] && m == m[..12] + m[12..];
      if Final(s, k, len, sc) == Final(s, m, len, sc) {
        FinalInjective(Absorb(s, k[..12], sc), Absorb(s, m[..12], sc), k[12..], len, sc);
        AbsorbInjective(s, s, k[..12], m[..12], sc);
      }
    } else {
      assert k[..12] == m[..12] && k == k[..12] + k[12..] && m == m[..12] + m[12..];
      NextBlock(k, m, block);
      OneBlockDifferenceSurvives(Absorb(s, k[..12], sc), k[12..], m[12..], block - 1, len, sc);
    }
  }

  /** So with HASH_JEN they leave different (_hj_i, _hj_j, hashv), whichever the signedness of its bytes. */
  lemma HashesDiffer(k: seq<Byte>, m: seq<Byte>, block: nat, sc: bool)
    requires DifferInOneBlock(k, m, block)
    ensures HashState(k, sc) != HashState(m, sc)
  {
    OneBlockDifferenceSurvives(START, k, m, block, |k|, sc);
  }

  lemma NextBlock(k: seq<Byte>, m: seq<Byte>, block: nat)
    requires DifferInOneBlock(k, m, block) && |k| >= 12 && block > 0
    ensures k[..12] == m[..12] && DifferInOneBlock(k[12..], m[12..], block - 1)
  {
    forall x | 0 <= x < 12
      ensures k[x] == m[x]
    {
    }
    assert k == k[..12] + k[12..] && m == m[..12] + m[12..];
    forall x | 0 <= x < |k| - 12 && k[12..][x] != m[12..][x]
      ensures x / 12 == block - 1
    {
      assert k[x + 12] != m[x + 12];
    }
  }
}
