/** 32-bit words as numbers, and C's bitwise operators on them. */
module Words {

  const WORD_LIMIT: nat := 0x1_0000_0000

  type Word = x: int | 0 <= x < WORD_LIMIT

  type Byte = x: int | 0 <= x < 256

  function And(a: nat, b: nat): (r: nat)
    ensures r <= a && r <= b
  {
    if a == 0 || b == 0 then 0 else 2 * And(a / 2, b / 2) + (if a % 2 == 1 && b % 2 == 1 then 1 else 0)
  }

  function Or(a: nat, b: nat): (r: nat)
    ensures a <= r && b <= r && r <= a + b
  {
    if a == 0 then b else if b == 0 then a
    else 2 * Or(a / 2, b / 2) + (if a % 2 == 1 || b % 2 == 1 then 1 else 0)
  }

  function Xor(a: nat, b: nat): (r: nat)
    ensures r <= a + b
  {
    if a == 0 then b else if b == 0 then a
    else 2 * Xor(a / 2, b / 2) + (if a % 2 != b % 2 then 1 else 0)
  }

  function Pow2(n: nat): (r: nat)
    ensures r >= 1
  {
    if n == 0 then 1 else 2 * Pow2(n - 1)
  }

  lemma Pow2Values()
    ensures Pow2(9) == 0x200 && Pow2(11) == 0x800 && Pow2(15) == 0x8000 && Pow2(16) == 0x10000 && Pow2(19) == 0x80000
  {
    assert Pow2(5) == 32;
    assert Pow2(9) == 0x200;
    assert Pow2(13) == 0x2000;
    assert Pow2(16) == 0x10000;
  }

  lemma {:induction false} OrBound(a: nat, b: nat, n: nat)
    requires a < Pow2(n) && b < Pow2(n)
    ensures Or(a, b) < Pow2(n)
  {
    if a != 0 && b != 0 {
      OrBound(a / 2, b / 2, n - 1);
    }
  }

  lemma {:induction false} XorBound(a: nat, b: nat, n: nat)
    requires a < Pow2(n) && b < Pow2(n)
    ensures Xor(a, b) < Pow2(n)
  {
    if a != 0 && b != 0 {
      XorBound(a / 2, b / 2, n - 1);
    }
  }

  /** Words without a common bit are or-ed by adding. */
  lemma {:induction false} OrDisjoint(a: nat, b: nat)
    requires And(a, b) == 0
    ensures Or(a, b) == a + b
  {
    if a != 0 && b != 0 {
      OrDisjoint(a / 2, b / 2);
    }
  }

  /** Whatever shares no bit with a mask shares none with a masked value. */
  lemma {:induction false} MaskedDisjoint(base: nat, mask: nat, x: nat)
    requires And(base, mask) == 0
    ensures And(base, And(x, mask)) == 0
  {
    if base != 0 && mask != 0 && x != 0 {
      MaskedDisjoint(base / 2, mask / 2, x / 2);
      assert And(x, mask) / 2 == And(x / 2, mask / 2);
    }
  }

  /** A mask is split exactly between a value and its complement. */
  lemma {:induction false} MaskSplit(x: nat, mask: nat, n: nat)
    requires x < Pow2(n) && mask < Pow2(n)
    ensures And(x, mask) + And(Pow2(n) - 1 - x, mask) == mask
    decreases n
  {
    hide And;
    if n > 0 {
      assert x / 2 < Pow2(n - 1) && mask / 2 < Pow2(n - 1);
      MaskSplit(x / 2, mask / 2, n - 1);
      MaskSplitStep(x, mask, Pow2(n - 1));
    }
  }

  lemma MaskSplitStep(x: nat, mask: nat, p: nat)
    requires x < 2 * p && And(x / 2, mask / 2) + And(p - 1 - x / 2, mask / 2) == mask / 2
    ensures And(x, mask) + And(2 * p - 1 - x, mask) == mask
  {
    hide And;
    HalfComplement(x, p);
    AndUnfold(x, mask);
    AndUnfold(2 * p - 1 - x, mask);
    BitSplit(And(x / 2, mask / 2), And(p - 1 - x / 2, mask / 2), x % 2, mask);
  }

  lemma BitSplit(a: nat, b: nat, bit: nat, mask: nat)
    requires a + b == mask / 2 && bit < 2
    ensures 2 * a + (if bit == 1 && mask % 2 == 1 then 1 else 0)
          + 2 * b + (if 1 - bit == 1 && mask % 2 == 1 then 1 else 0) == mask
  {
  }

  lemma HalfComplement(x: nat, p: nat)
    requires x < 2 * p
    ensures (2 * p - 1 - x) / 2 == p - 1 - x / 2 && (2 * p - 1 - x) % 2 == 1 - x % 2
  {
  }

  lemma {:induction false} AndUnfold(a: nat, b: nat)
    ensures And(a, b) == 2 * And(a / 2, b / 2) + (if a % 2 == 1 && b % 2 == 1 then 1 else 0)
  {
  }

  lemma {:induction false} AtLeastOnce(k: nat, p: nat)
    requires k > 0
    ensures k * p >= p
  {
    if k > 1 {
      AtLeastOnce(k - 1, p);
      assert k * p == (k - 1) * p + p;
    }
  }

  // ---------------------------------------------------------------- Quotients and remainders

  lemma QuotientOf(x: nat, p: nat)
    requires p > 0
    ensures x == p * (x / p) + x % p && 0 <= x % p < p
  {
  }

  lemma RemainderIs(x: nat, p: nat, d: nat, s: nat)
    requires p > 0 && x == p * d + s && s < p
    ensures x % p == s && x / p == d
  {
    QuotientOf(x, p);
    var e := x / p;
    if d < e {
      Difference(e, d, p);
      AtLeastOnce(e - d, p);
    } else if e < d {
      Difference(d, e, p);
      AtLeastOnce(d - e, p);
    }
  }

  lemma Commuted(d: nat, p: nat)
    ensures p * d == d * p
  {
  }

  lemma Difference(d: nat, e: nat, p: nat)
    ensures (d - e) * p == p * d - p * e
  {
  }

  lemma DivideTwice(x: nat, p: nat, q: nat)
    requires p > 0 && q > 0
    ensures p * q > 0 && x / (p * q) == x / p / q && x % (p * q) == x / p % q * p + x % p
  {
    var d, r := x / p / q, x / p % q;
    QuotientOf(x, p);
    QuotientOf(x / p, q);
    var s := r * p + x % p;
    SpreadProduct3(x, p, q, d, r, x % p);
    BelowProduct(p, q, r, x % p);
    RemainderIs(x, p * q, d, s);
  }

  lemma SpreadProduct3(x: nat, p: nat, q: nat, d: nat, r: nat, t: nat)
    requires x == p * (q * d + r) + t
    ensures x == (p * q) * d + (r * p + t)
  {
    assert p * (q * d + r) == p * (q * d) + p * r;
    assert p * (q * d) == (p * q) * d;
  }

  lemma BelowProduct(p: nat, q: nat, r: nat, t: nat)
    requires r < q && t < p
    ensures r * p + t < p * q
  {
    AtLeastOnce(q - r, p);
    Difference(q, r, p);
  }

  lemma HalfRemainder(x: nat, q: nat)
    requires q > 0
    ensures x % (2 * q) / 2 == x / 2 % q && x % (2 * q) % 2 == x % 2
  {
    var d, r := x / 2 / q, x / 2 % q;
    QuotientOf(x / 2, q);
    var s := 2 * r + x % 2;
    assert x == 2 * (q * d) + s == (2 * q) * d + s && s < 2 * q;
    RemainderIs(x, 2 * q, d, s);
  }
}
