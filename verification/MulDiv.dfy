/** Multiplication and division (tools/PPC.csv, PPCInterpreter_Arithmetic.cc). */
module MulDiv {
  import opened Words
  import opened CpuTypes
  import opened Alu

  const WIDE: nat := 0x1_0000_0000_0000_0000

  predicate FitsWord(p: int) { -0x8000_0000 <= p < 0x8000_0000 }

  predicate FitsProduct(p: int) { -0x4000_0000_0000_0000 <= p <= 0x4000_0000_0000_0000 }

  /** A product of two signed words needs 63 bits, and is negative exactly when the signs differ and it is not 0. */
  lemma ProductBound(a: Word, b: Word)
    ensures var p := SignedProduct(a, b); FitsProduct(p) && (p != 0 ==> (p < 0 <==> (a >= HALF) != (b >= HALF)))
  {
    var x, y := Signed(a), Signed(b);
    Magnitude(Abs(x), Abs(y));
    if x >= 0 && y >= 0 {
      assert x * y == Abs(x) * Abs(y);
    } else if x < 0 && y < 0 {
      assert x * y == Abs(x) * Abs(y);
    } else {
      assert x * y == -(Abs(x) * Abs(y));
    }
  }

  lemma Magnitude(x: nat, y: nat)
    requires x <= HALF && y <= HALF
    ensures 0 <= x * y <= HALF * HALF
  {
    Monotone(x, y, HALF);
    Monotone(HALF, x, HALF);
  }

  lemma {:induction false} Monotone(k: nat, x: nat, y: nat)
    requires x <= y
    ensures 0 <= k * x <= k * y
  {
    if k > 0 {
      Monotone(k - 1, x, y);
      assert k * x == (k - 1) * x + x && k * y == (k - 1) * y + y;
    }
  }

  /** mullw's OV formula: the signed product does not fit 32 bits. */
  lemma OverflowIffTooWide(a: Word, b: Word)
    ensures MulOverflows(a, b) <==> !FitsWord(SignedProduct(a, b))
  {
    hide SignedProduct;
    ProductBound(a, b);
    FormulaMeansTooWide(SignedProduct(a, b), (a >= HALF) != (b >= HALF));
  }

  lemma FormulaMeansTooWide(p: int, differ: bool)
    requires FitsProduct(p) && (p != 0 ==> (p < 0 <==> differ))
    ensures OverflowFormula(p % WIDE, differ) <==> !FitsWord(p)
  {
    var x := p % WIDE;
    assert x == if p < 0 then p + WIDE else p;
    if FitsWord(p) && p < 0 {
      assert x % WORD_LIMIT == p + WORD_LIMIT;
    } else if 0 <= p < WORD_LIMIT {
      assert x % WORD_LIMIT == p;
    }
  }

  /** mulhw and mullw are the halves of the signed product, mulhwu and mullw those of the unsigned one. */
  lemma Halves(c: Cpu, ra: Reg, rb: Reg, rt: Reg)
    ensures var lo := RunAlu(c, Mullw(rt, ra, rb, false, false)).gpr[rt];
      && Joined(Signed(RunAlu(c, Mulhw(rt, ra, rb, false)).gpr[rt]), lo) == SignedProduct(c.gpr[ra], c.gpr[rb])
      && Joined(RunAlu(c, Mulhwu(rt, ra, rb, false)).gpr[rt], lo) == UnsignedProduct(c.gpr[ra], c.gpr[rb])
  {
    hide Signed, MulOverflows, SignedProduct, UnsignedProduct, Wrap, Joined;
    var a, b := c.gpr[ra], c.gpr[rb];
    ProductBound(a, b);
    SignedHalves(SignedProduct(a, b));
    UnsignedBound(a, b);
    UnsignedHalves(UnsignedProduct(a, b));
    SameLowWord(a, b);
  }

  function Joined(hi: int, lo: Word): int { hi * WORD_LIMIT + lo }

  lemma SignedHalves(p: int)
    requires FitsProduct(p)
    ensures Joined(Signed(Wrap(p / WORD_LIMIT)), Wrap(p)) == p
  {
    var q := p / WORD_LIMIT;
    assert p == q * WORD_LIMIT + p % WORD_LIMIT;
    assert Signed(Wrap(q)) == q;
  }

  lemma UnsignedBound(a: Word, b: Word)
    ensures UnsignedProduct(a, b) < WIDE
  {
    Monotone(a, b, WORD_LIMIT - 1);
    Monotone(WORD_LIMIT - 1, a, WORD_LIMIT - 1);
  }

  lemma UnsignedHalves(p: int)
    requires 0 <= p < WIDE
    ensures Joined(Wrap(p / WORD_LIMIT), Wrap(p)) == p
  {
  }

  lemma SameLowWord(a: Word, b: Word)
    ensures Wrap(SignedProduct(a, b)) == Wrap(UnsignedProduct(a, b))
  {
    var k, l := if a >= HALF then 1 else 0, if b >= HALF then 1 else 0;
    Expanded(a, b, k, l);
    WrapMultiple(Signed(a) * Signed(b), k * b + l * a - k * l * WORD_LIMIT);
  }

  lemma Expanded(a: int, b: int, k: int, l: int)
    requires 0 <= k <= 1 && 0 <= l <= 1
    ensures a * b == (a - k * WORD_LIMIT) * (b - l * WORD_LIMIT) + (k * b + l * a - k * l * WORD_LIMIT) * WORD_LIMIT
  {
  }

  lemma WrapMultiple(x: int, m: int)
    ensures Wrap(x + m * WORD_LIMIT) == Wrap(x)
  {
  }

  // ---------------------------------------------------------------- Division

  lemma DivisionTruncates(x: int, d: int)
    requires d != 0
    ensures TruncatedQuotient(x, d, TruncDiv(x, d))
  {
    var q := Abs(x) / Abs(d);
    Divided(Abs(x), Abs(d));
    NegatedFactor(q, d);
  }

  lemma Divided(x: nat, d: nat)
    requires d > 0
    ensures 0 <= Rest(x, d, x / d) < d
  {
    assert x == d * (x / d) + x % d;
  }

  lemma NegatedFactor(q: int, d: int)
    ensures -q * d == -(q * d) && q * -d == -(q * d)
  {
  }

  /** divw, mullw and subf give the truncated remainder, whenever divw does not flag overflow. */
  lemma Remainder(c: Cpu, ra: Reg, rb: Reg, rq: Reg, rm: Reg, rr: Reg, oe: bool)
    requires rq != ra && rq != rb && rm != ra && !Divw(c.gpr[ra], c.gpr[rb]).1
    ensures var divided := RunAlu(c, DivW(rq, ra, rb, oe, false));
      var multiplied := RunAlu(divided, Mullw(rm, rq, rb, false, false));
      var subtracted := RunAlu(multiplied, Subf(rr, rm, ra));
      exists q :: && TruncatedQuotient(Signed(c.gpr[ra]), Signed(c.gpr[rb]), q) && divided.gpr[rq] == Wrap(q)
                  && Signed(subtracted.gpr[rr]) == Rest(Signed(c.gpr[ra]), Signed(c.gpr[rb]), q)
  {
    hide Signed, MulOverflows, TruncDiv, TruncatedQuotient, Rest, SignedProduct, Wrap, AddOvCoCi;
    var a, b := c.gpr[ra], c.gpr[rb];
    SignedZero(b);
    var q := TruncDiv(Signed(a), Signed(b));
    DivisionTruncates(Signed(a), Signed(b));
    assert Divw(a, b).0 == Wrap(q);
    RemainderOf(a, b, q);
  }

  function Subf(rt: Reg, ra: Reg, rb: Reg): AluOp { AddX(rt, ra, true, RegB(rb), One, false, false, false) }

  lemma SignedZero(b: Word)
    ensures Signed(b) == 0 <==> b == 0
  {
  }

  lemma RemainderOf(a: Word, b: Word, q: int)
    requires TruncatedQuotient(Signed(a), Signed(b), q)
    ensures Signed(AddOvCoCi(Not(Wrap(SignedProduct(Wrap(q), b))), a, 1).val) == Rest(Signed(a), Signed(b), q)
  {
    hide AddOvCoCi, SignedProduct, Wrap, Signed, Rest;
    SignedFits(a);
    SignedFits(b);
    Multiplied(q, b);
    Subtracted(Wrap(SignedProduct(Wrap(q), b)), a);
    SubtractWrapped(a, Signed(b), q);
  }

  lemma SignedFits(a: Word)
    ensures FitsWord(Signed(a))
  {
  }

  /** mullw of a wrapped quotient by a word. */
  lemma Multiplied(q: int, b: Word)
    ensures Wrap(SignedProduct(Wrap(q), b)) == Wrap(q * Signed(b))
  {
    var k := (q - Signed(Wrap(q))) / WORD_LIMIT;
    assert q == Signed(Wrap(q)) + k * WORD_LIMIT;
    SpreadProduct(Signed(Wrap(q)), k, Signed(b));
    WrapMultiple(Signed(Wrap(q)) * Signed(b), k * Signed(b));
  }

  lemma SpreadProduct(q: int, k: int, d: int)
    ensures (q + k * WORD_LIMIT) * d == q * d + k * d * WORD_LIMIT
  {
  }

  /** subf, `~RA + RB + 1`, is RB - RA on 32 bits. */
  lemma Subtracted(a: Word, b: Word)
    ensures AddOvCoCi(Not(a), b, 1).val == Wrap(b - a)
  {
  }

  lemma SubtractWrapped(a: Word, d: int, q: int)
    requires FitsWord(Rest(Signed(a), d, q))
    ensures Signed(Wrap(a - Wrap(q * d))) == Rest(Signed(a), d, q)
  {
    SubtractFits(a, q * d);
  }

  lemma SubtractFits(a: Word, p: int)
    requires FitsWord(Signed(a) - p)
    ensures Signed(Wrap(a - Wrap(p))) == Signed(a) - p
  {
    var k := p / WORD_LIMIT;
    assert p == k * WORD_LIMIT + Wrap(p);
    WrapMultiple(a - Wrap(p), -k);
    assert Wrap(a - Wrap(p)) == Wrap(a - p);
    assert Wrap(a - p) == Wrap(Signed(a) - p);
  }
}
