/** The shift and mask arithmetic that the hash table does on bucket counts. */
module Words {

  function Pow2(k: nat): (p: nat)
    ensures p >= 1
  {
    if k == 0 then 1 else 2 * Pow2(k - 1)
  }

  lemma Pow2Word()
    ensures Pow2(32) == 0x1_0000_0000
  {
    assert Pow2(4) == 16;
    assert Pow2(8) == 16 * Pow2(4);
    assert Pow2(12) == 16 * Pow2(8);
    assert Pow2(16) == 16 * Pow2(12);
    assert Pow2(20) == 16 * Pow2(16);
    assert Pow2(24) == 16 * Pow2(20);
    assert Pow2(28) == 16 * Pow2(24);
    assert Pow2(32) == 16 * Pow2(28);
  }

  lemma Pow2Double(k: nat)
    ensures Pow2(k + 1) == 2 * Pow2(k)
  {
  }

  /** Bitwise AND of two unsigned integers, from the low bit up. */
  function And(a: nat, b: nat): nat {
    if a == 0 || b == 0 then 0 else 2 * And(a / 2, b / 2) + (a % 2) * (b % 2)
  }

  /** Bitwise exclusive or, from the low bit up. */
  function Xor(a: nat, b: nat): nat
    decreases a + b
  {
    if a == 0 then b else if b == 0 then a
    else 2 * Xor(a / 2, b / 2) + (a % 2 + b % 2) % 2
  }

  lemma {:induction false} XorTwice(a: nat, m: nat)
    ensures Xor(Xor(a, m), m) == a
    decreases a + m
  {
    if a == 0 {
      XorSelf(m);
    } else if m > 0 {
      var x := Xor(a, m);
      XorHalves(a, m);
      XorHalves(x, m);
      XorTwice(a / 2, m / 2);
      hide Xor;
      BitTwice(a % 2, m % 2);
      HalfAndBit(Xor(a / 2, m / 2), (a % 2 + m % 2) % 2);
    }
  }

  lemma BitTwice(p: nat, q: nat)
    requires p < 2 && q < 2
    ensures ((p + q) % 2 + q) % 2 == p
  {
  }

  lemma HalfAndBit(h: nat, b: nat)
    requires b < 2
    ensures (2 * h + b) / 2 == h && (2 * h + b) % 2 == b
  {
  }

  lemma {:induction false} XorSelf(m: nat)
    ensures Xor(m, m) == 0
  {
    if m > 0 {
      XorSelf(m / 2);
    }
  }

  lemma XorHalves(a: nat, b: nat)
    ensures Xor(a, b) == 2 * Xor(a / 2, b / 2) + (a % 2 + b % 2) % 2
  {
  }

  lemma {:induction false} XorBelow(a: nat, b: nat, k: nat)
    requires a < Pow2(k) && b < Pow2(k)
    ensures Xor(a, b) < Pow2(k)
  {
    if a > 0 && b > 0 {
      XorBelow(a / 2, b / 2, k - 1);
    }
  }

  lemma {:induction false} ShrBelow(a: nat, k: nat)
    ensures Shr(a, k) <= a
  {
    if k > 0 {
      ShrBelow(a / 2, k - 1);
    }
  }

  /** Right shift: drop `k` low bits. */
  function Shr(a: nat, k: nat): nat {
    if k == 0 then a else Shr(a / 2, k - 1)
  }

  lemma {:induction false} DivTwice(a: nat, p: nat)
    requires p > 0
    ensures (a / 2) / p == a / (2 * p)
    ensures a % (2 * p) == 2 * ((a / 2) % p) + a % 2
  {
    var h := a / 2;
    var q, r := h / p, h % p;
    assert h == p * q + r;
    assert a == (2 * p) * q + (2 * r + a % 2);
    UniqueDiv(a, 2 * p, q, 2 * r + a % 2);
  }

  lemma MulStep(d: nat, a: nat, b: nat)
    requires a < b
    ensures d * a + d <= d * b
  {
    if b > a + 1 {
      MulStep(d, a, b - 1);
    }
    assert d * b == d * (b - 1) + d;
  }

  lemma UniqueDiv(a: nat, d: nat, q: nat, r: nat)
    requires d > 0 && a == d * q + r && r < d
    ensures a / d == q && a % d == r
  {
    var q', r' := a / d, a % d;
    assert a == d * q' + r';
    if q < q' {
      MulStep(d, q, q');
    } else if q' < q {
      MulStep(d, q', q);
    }
  }

  /** Masking with 2^k - 1 is the remainder modulo 2^k. */
  lemma {:induction false} MaskIsMod(a: nat, k: nat)
    ensures And(a, Pow2(k) - 1) == a % Pow2(k)
  {
    if k == 0 {
    } else {
      var p := Pow2(k - 1);
      MaskIsMod(a / 2, k - 1);
      DivTwice(a, p);
      assert (2 * p - 1) / 2 == p - 1 && (2 * p - 1) % 2 == 1;
      if a == 0 {
      } else {
        assert And(a, 2 * p - 1) == 2 * And(a / 2, p - 1) + a % 2;
      }
    }
  }

  lemma {:induction false} ShiftIsDiv(a: nat, k: nat)
    ensures Shr(a, k) == a / Pow2(k)
  {
    if k > 0 {
      ShiftIsDiv(a / 2, k - 1);
      DivTwice(a, Pow2(k - 1));
    }
  }

  /** The ideal chain length as the table computes it, for 2^lb buckets. */
  function ShiftCeil(n: nat, lb: nat): nat {
    Shr(n, lb) + (if And(n, Pow2(lb) - 1) != 0 then 1 else 0)
  }

  /** Its shift/mask form is the ceiling: the least m with m * 2^lb >= n. */
  lemma ShiftCeilIsCeiling(n: nat, lb: nat)
    ensures var m := ShiftCeil(n, lb); IsCeiling(m, n, Pow2(lb))
    ensures ShiftCeil(n, lb) == 0 <==> n == 0
  {
    ShiftIsDiv(n, lb);
    MaskIsMod(n, lb);
    CeilingByDivMod(n, Pow2(lb));
  }

  ghost predicate IsCeiling(m: nat, n: nat, b: nat) {
    && n <= m * b
    && forall k: nat :: n <= k * b ==> m <= k
  }

  lemma CeilingByDivMod(n: nat, b: nat)
    requires b > 0
    ensures var m := n / b + (if n % b != 0 then 1 else 0);
            IsCeiling(m, n, b) && (m == 0 <==> n == 0)
  {
    var q, r := n / b, n % b;
    var m := q + (if r != 0 then 1 else 0);
    assert n == b * q + r;
    assert (q + 1) * b == q * b + b;
    forall k: nat | n <= k * b
      ensures m <= k
    {
      if k < m {
        MulStep(b, k, m);
      }
    }
  }

  /** Doubling the bucket count sends bucket i to i or i + n. */
  lemma ModDouble(h: nat, n: nat)
    requires n > 0
    ensures (h % (2 * n)) % n == h % n
  {
    var q, r := h / (2 * n), h % (2 * n);
    assert h == (2 * n) * q + r;
    MulDouble(n, q);
    if r < n {
      UniqueDiv(h, n, 2 * q, r);
      UniqueDiv(r, n, 0, r);
    } else {
      UniqueDiv(h, n, 2 * q + 1, r - n);
      UniqueDiv(r, n, 1, r - n);
    }
  }

  lemma MulDouble(n: nat, q: nat)
    ensures (2 * n) * q == n * (2 * q)
    ensures n * (2 * q + 1) == n * (2 * q) + n
  {
  }
}
