/** Masks, rotates and shifts, bit by bit (PPCInterpreter_Logical.cc). */
module Rotates {
  import opened Words
  import opened CpuTypes
  import opened Alu

  /** Bit `i` of `x`, the least significant being bit 0. */
  predicate Bit(x: nat, i: nat) { if i == 0 then x % 2 == 1 else Bit(x / 2, i - 1) }

  /** Bit `b` of a word in IBM order: 0 is the most significant. */
  predicate IbmBit(x: Word, b: Reg) { Bit(x, 31 - b) }

  lemma {:induction false} AndBit(a: nat, b: nat, i: nat)
    ensures Bit(And(a, b), i) == (Bit(a, i) && Bit(b, i))
  {
    hide And;
    AndUnfold(a, b);
    Doubling(And(a / 2, b / 2), if a % 2 == 1 && b % 2 == 1 then 1 else 0);
    if i > 0 {
      AndBit(a / 2, b / 2, i - 1);
    }
  }

  lemma Doubling(x: nat, bit: nat)
    requires bit < 2
    ensures (2 * x + bit) / 2 == x && (2 * x + bit) % 2 == bit
  {
  }

  lemma {:induction false} ZeroBit(i: nat)
    ensures !Bit(0, i)
  {
    if i > 0 {
      ZeroBit(i - 1);
    }
  }

  lemma {:induction false} OrBit(a: nat, b: nat, i: nat)
    ensures Bit(Or(a, b), i) == (Bit(a, i) || Bit(b, i))
  {
    if a == 0 || b == 0 {
      ZeroBit(i);
    } else if i > 0 {
      OrBit(a / 2, b / 2, i - 1);
    }
  }

  lemma {:induction false} XorBit(a: nat, b: nat, i: nat)
    ensures Bit(Xor(a, b), i) == (Bit(a, i) != Bit(b, i))
  {
    if a == 0 || b == 0 {
      ZeroBit(i);
    } else if i > 0 {
      XorBit(a / 2, b / 2, i - 1);
    }
  }

  lemma {:induction false} LowBitsKept(x: nat, n: nat, i: nat)
    ensures Bit(x % Pow2(n), i) == (i < n && Bit(x, i))
    decreases n
  {
    var p := Pow2(n);
    if n == 0 {
      ZeroBit(i);
      assert x % 1 == 0;
    } else {
      var q := Pow2(n - 1);
      HalfRemainder(x, q);
      if i > 0 {
        LowBitsKept(x / 2, n - 1, i - 1);
      }
    }
  }

  lemma {:induction false} OnesBit(n: nat, i: nat)
    ensures Bit(Pow2(n) - 1, i) == (i < n)
  {
    if n == 0 {
      ZeroBit(i);
    } else if i > 0 {
      OnesBit(n - 1, i - 1);
    }
  }

  lemma {:induction false} ComplementBit(x: nat, n: nat, i: nat)
    requires x < Pow2(n) && i < n
    ensures Bit(Pow2(n) - 1 - x, i) == !Bit(x, i)
  {
    HalfComplement(x, Pow2(n - 1));
    if i > 0 {
      ComplementBit(x / 2, n - 1, i - 1);
    }
  }

  lemma {:induction false} NotBit(x: Word, i: nat)
    requires i < 32
    ensures Bit(Not(x), i) == !Bit(x, i)
  {
    Pow2Is32();
    ComplementBit(x, 32, i);
  }

  lemma {:induction false} ShiftLBit(x: nat, s: nat, i: nat)
    ensures Bit(ShiftL(x, s), i) == (i >= s && Bit(x, i - s))
  {
    if s > 0 && i > 0 {
      ShiftLBit(x, s - 1, i - 1);
    }
  }

  lemma {:induction false} ShiftRBit(x: nat, s: nat, i: nat)
    ensures Bit(ShiftR(x, s), i) == Bit(x, i + s)
  {
    if s > 0 {
      ShiftRBit(x / 2, s - 1, i);
    }
  }

  lemma {:induction false} HighBitsClear(x: nat, n: nat, i: nat)
    requires x < Pow2(n) && i >= n
    ensures !Bit(x, i)
  {
    if n > 0 {
      HighBitsClear(x / 2, n - 1, i - 1);
    } else {
      ZeroBit(i);
    }
  }

  /** Words with the same 32 bits are equal. */
  lemma {:induction false} SameBits(x: nat, y: nat, n: nat)
    requires x < Pow2(n) && y < Pow2(n)
    requires forall i :: 0 <= i < n ==> Bit(x, i) == Bit(y, i)
    ensures x == y
  {
    if n > 0 {
      assert Bit(x, 0) == Bit(y, 0);
      forall i | 0 <= i < n - 1 ensures Bit(x / 2, i) == Bit(y / 2, i) {
        assert Bit(x, i + 1) == Bit(y, i + 1);
      }
      SameBits(x / 2, y / 2, n - 1);
    }
  }

  lemma SameWords(x: Word, y: Word)
    requires forall b: Reg :: IbmBit(x, b) == IbmBit(y, b)
    ensures x == y
  {
    Pow2Is32();
    forall i | 0 <= i < 32 ensures Bit(x, i) == Bit(y, i) {
      assert IbmBit(x, 31 - i) == IbmBit(y, 31 - i);
    }
    SameBits(x, y, 32);
  }

  // ---------------------------------------------------------------- mkmask and the rotates

  /** Whether bit `b` is in the run from `mb` to `me`, going round from 31 to 0. */
  predicate InRun(mb: Reg, me: Reg, b: Reg) { (b - mb) % 32 <= (me - mb) % 32 }

  /** mkmask sets exactly the bits of the possibly wrapping run. */
  lemma MaskIsRun(mb: Reg, me: Reg, b: Reg)
    ensures IbmBit(MkMask(mb, me), b) == InRun(mb, me, b)
  {
    hide And, Or, Pow2, Bit, Not, InRun;
    var i := 31 - b;
    RunCases(mb, me, b);
    OnesBit(32 - mb, i);
    OnesBit(31 - me, i);
    NotBit(Ones(31 - me), i);
    AndBit(Ones(32 - mb), Not(Ones(31 - me)), i);
    OrBit(Not(Ones(31 - me)), Ones(32 - mb), i);
  }

  lemma RunCases(mb: Reg, me: Reg, b: Reg)
    ensures InRun(mb, me, b) <==> if mb <= me then mb <= b <= me else b <= me || mb <= b
  {
    assert (b - mb) % 32 == if b < mb then b - mb + 32 else b - mb;
    assert (me - mb) % 32 == if me < mb then me - mb + 32 else me - mb;
  }

  /** ROTL32 moves IBM bit `b + s` round to bit `b`. */
  lemma RotLBit(x: Word, s: Reg, b: Reg)
    ensures IbmBit(RotL(x, s), b) == IbmBit(x, (b + s) % 32)
  {
    hide And, Or, Pow2, Bit, ShiftL, ShiftR;
    var i := 31 - b;
    Pow2Is32();
    OrBit(And(ShiftL(x, s), WORD_LIMIT - 1), ShiftR(x, 32 - s), i);
    AndBit(ShiftL(x, s), WORD_LIMIT - 1, i);
    OnesBit(32, i);
    ShiftLBit(x, s, i);
    ShiftRBit(x, 32 - s, i);
    if i + 32 - s >= 32 {
      HighBitsClear(x, 32, i + 32 - s);
    }
    RunOn(b, s);
  }

  lemma RunOn(b: Reg, s: Reg)
    ensures (b + s) % 32 == if b + s < 32 then b + s else b + s - 32
  {
  }

  lemma InsertBit(into: Word, field: Word, mask: Word, b: Reg)
    ensures IbmBit(Insert(into, field, mask), b) == if IbmBit(mask, b) then IbmBit(field, b) else IbmBit(into, b)
  {
    hide And, Or, Not, Bit;
    var i := 31 - b;
    OrBit(And(into, Not(mask)), And(field, mask), i);
    AndBit(into, Not(mask), i);
    AndBit(field, mask, i);
    NotBit(mask, i);
  }

  /** rlwimi leaves the bits outside the run alone, and the rlwinm that rotates back and masks the run where it came
      from returns the field that was inserted. */
  lemma {:induction false} InsertThenExtract(into: Word, x: Word, s: Reg, mb: Reg, me: Reg)
    ensures var r := Insert(into, RotL(x, s), MkMask(mb, me));
      && And(RotL(r, (32 - s) % 32), MkMask((mb + s) % 32, (me + s) % 32)) == And(x, MkMask((mb + s) % 32, (me + s) % 32))
      && And(r, Not(MkMask(mb, me))) == And(into, Not(MkMask(mb, me)))
  {
    hide Insert, MkMask, RotL, IbmBit, And, Not;
    var mask, back := MkMask(mb, me), MkMask((mb + s) % 32, (me + s) % 32);
    var r := Insert(into, RotL(x, s), mask);
    var field := RotL(r, (32 - s) % 32);
    forall b: Reg ensures IbmBit(And(field, back), b) == IbmBit(And(x, back), b) {
      ExtractedBit(into, x, s, mb, me, b);
    }
    SameWords(And(field, back), And(x, back));
    forall b: Reg ensures IbmBit(And(r, Not(mask)), b) == IbmBit(And(into, Not(mask)), b) {
      AndIbm(r, Not(mask), b);
      AndIbm(into, Not(mask), b);
      NotIbm(mask, b);
      InsertBit(into, RotL(x, s), mask, b);
    }
    SameWords(And(r, Not(mask)), And(into, Not(mask)));
  }

  lemma {:induction false} ExtractedBit(into: Word, x: Word, s: Reg, mb: Reg, me: Reg, b: Reg)
    ensures var r := Insert(into, RotL(x, s), MkMask(mb, me));
      var back := MkMask((mb + s) % 32, (me + s) % 32);
      IbmBit(And(RotL(r, (32 - s) % 32), back), b) == IbmBit(And(x, back), b)
  {
    hide Insert, MkMask, RotL, IbmBit, And, Not, InRun;
    var mask, back := MkMask(mb, me), MkMask((mb + s) % 32, (me + s) % 32);
    var r := Insert(into, RotL(x, s), mask);
    var u: Reg := (32 - s) % 32;
    var c: Reg := (b + u) % 32;
    AndIbm(RotL(r, u), back, b);
    AndIbm(x, back, b);
    MaskIsRun((mb + s) % 32, (me + s) % 32, b);
    RotLBit(r, u, b);
    InsertBit(into, RotL(x, s), mask, c);
    MaskIsRun(mb, me, c);
    RotLBit(x, s, c);
    RoundTrip(b, s, mb, me);
  }

  lemma {:induction false} AndIbm(x: Word, y: Word, b: Reg)
    ensures IbmBit(And(x, y), b) == (IbmBit(x, b) && IbmBit(y, b))
  {
    AndBit(x, y, 31 - b);
  }

  lemma NotIbm(x: Word, b: Reg)
    ensures IbmBit(Not(x), b) == !IbmBit(x, b)
  {
    NotBit(x, 31 - b);
  }

  /** Rotating a position back and forth returns to it, and a run rotates with its ends. */
  lemma RoundTrip(b: Reg, s: Reg, mb: Reg, me: Reg)
    ensures var c := (b + (32 - s) % 32) % 32;
      (c + s) % 32 == b && InRun(mb, me, c) == InRun((mb + s) % 32, (me + s) % 32, b)
  {
    var c: Reg := (b + (32 - s) % 32) % 32;
    assert c == if b < s then b + 32 - s else b - s;
    RunOn(c, s);
    RunOn(mb, s);
    RunOn(me, s);
    RunCases(mb, me, c);
    RunCases((mb + s) % 32, (me + s) % 32, b);
    hide InRun;
  }

  /** The same as two instructions: rlwimi into RA, and the inverse rlwinm from RA. */
  lemma RlwimiThenRlwinm(c: Cpu, ra: Reg, rs: Reg, rd: Reg, s: Reg, mb: Reg, me: Reg)
    ensures var d := RunAlu(c, Rlwimi(ra, rs, s, mb, me, false));
      var field := MkMask((mb + s) % 32, (me + s) % 32);
      && And(d.gpr[ra], Not(MkMask(mb, me))) == And(c.gpr[ra], Not(MkMask(mb, me)))
      && RunAlu(d, Rlwinm(rd, ra, (32 - s) % 32, (mb + s) % 32, (me + s) % 32, false)).gpr[rd] == And(c.gpr[rs], field)
  {
    InsertThenExtract(c.gpr[ra], c.gpr[rs], s, mb, me);
    hide Insert, MkMask, RotL, And, Not, Compare;
  }

  // ---------------------------------------------------------------- Shift right and addze

  /** The low `s` bits of a signed number. */
  function Low(x: int, s: nat): (r: nat)
    ensures r < Pow2(s)
    decreases s
  {
    if s == 0 then 0 else x % 2 + 2 * Low(x / 2, s - 1)
  }

  lemma {:induction false} LowIsMasked(x: nat, s: nat)
    ensures And(x, Pow2(s) - 1) == Low(x, s)
    decreases s
  {
    hide And;
    AndUnfold(x, Pow2(s) - 1);
    if s > 0 {
      LowIsMasked(x / 2, s - 1);
      OddMask(Pow2(s - 1));
    } else {
      AndWithZero(x);
    }
  }

  lemma OddMask(p: nat)
    requires p > 0
    ensures (2 * p - 1) / 2 == p - 1 && (2 * p - 1) % 2 == 1
  {
  }

  lemma {:induction false} AndWithZero(x: nat)
    ensures And(x, 0) == 0
  {
  }

  lemma {:induction false} LowOfNegative(x: int, n: nat, s: nat)
    requires s <= n
    ensures Low(x - Pow2(n), s) == Low(x, s)
    decreases s
  {
    if s > 0 {
      var p := Pow2(n - 1);
      assert (x - 2 * p) / 2 == x / 2 - p && (x - 2 * p) % 2 == x % 2;
      LowOfNegative(x / 2, n - 1, s - 1);
    }
  }

  lemma {:induction false} ShiftRParts(x: int, s: nat)
    ensures x == ShiftR(x, s) * Pow2(s) + Low(x, s)
    decreases s
  {
    if s > 0 {
      ShiftRParts(x / 2, s - 1);
      Doubled(ShiftR(x / 2, s - 1), Pow2(s - 1), Low(x / 2, s - 1));
    }
  }

  lemma Doubled(a: int, p: int, l: int)
    ensures 2 * (a * p + l) == a * (2 * p) + 2 * l
  {
  }

  /** Rounding toward zero after a floor shift: one is added to a negative quotient that was not exact. */
  lemma {:induction false} ShiftThenRound(x: Word, s: Reg)
    ensures var (v, ca) := ShiftRight(x, s);
      var q := ShiftR(Signed(x), s) + (if ca then 1 else 0);
      v == Wrap(ShiftR(Signed(x), s)) && TruncatedQuotient(Signed(x), Pow2(s), q)
  {
    hide And, ShiftR, Low, Pow2, TruncatedQuotient, Signed;
    Pow2Is32();
    LowIsMasked(x, s);
    LowOfNegative(x, 32, s);
    SignedCases(x);
    ShiftRParts(Signed(x), s);
    RoundUp(Signed(x), Pow2(s), ShiftR(Signed(x), s), Low(Signed(x), s));
  }

  lemma SignedCases(x: Word)
    ensures Signed(x) == (if x >= HALF then x - WORD_LIMIT else x) && (Signed(x) < 0 <==> x >= HALF)
  {
  }

  lemma RoundUp(x: int, d: nat, q: int, r: nat)
    requires x == q * d + r && r < d
    ensures TruncatedQuotient(x, d, if x < 0 && r != 0 then q + 1 else q)
  {
    assert Rest(x, d, q) == r && Rest(x, d, q + 1) == r - d by {
      assert (q + 1) * d == q * d + d;
    }
    NonNegative(q, d, r, x);
    hide Rest;
  }

  lemma NonNegative(q: int, d: nat, r: nat, x: int)
    requires x == q * d + r && r < d
    ensures x >= 0 ==> q >= 0
    ensures x < 0 ==> q < 0
  {
    if q < 0 {
      AtLeastOnce(-q, d);
    }
  }

  lemma WrapAdd(q: int, k: nat)
    requires k <= 1
    ensures Wrap(Wrap(q) + k) == Wrap(q + k)
  {
  }

  /** sraw or srawi, then addze, divides by a power of two and rounds toward zero, for every amount in the low six bits
      of RB. */
  lemma SrawThenAddze(c: Cpu, rt: Reg, ra: Reg, rs: Reg, rb: Reg)
    ensures var d := RunAlu(RunAlu(c, SrawX(ra, rs, rb, false)), Addze(rt, ra));
      exists q :: TruncatedQuotient(Signed(c.gpr[rs]), Pow2(c.gpr[rb] % 64), q) && d.gpr[rt] == Wrap(q)
  {
    hide Sraw, TruncatedQuotient, Pow2, Rounded;
    SrawRounds(c.gpr[rs], c.gpr[rb] % 64);
    assert TruncatedQuotient(Signed(c.gpr[rs]), Pow2(c.gpr[rb] % 64), Rounded(c.gpr[rs], c.gpr[rb] % 64));
  }

  lemma {:induction false} SrawiThenAddze(c: Cpu, rt: Reg, ra: Reg, rs: Reg, sh: Reg)
    ensures var d := RunAlu(RunAlu(c, Srawi(ra, rs, sh, false)), Addze(rt, ra));
      exists q :: TruncatedQuotient(Signed(c.gpr[rs]), Pow2(sh), q) && d.gpr[rt] == Wrap(q)
  {
    hide ShiftRight, TruncatedQuotient, Pow2, Rounded;
    SrawRounds(c.gpr[rs], sh);
    assert TruncatedQuotient(Signed(c.gpr[rs]), Pow2(sh), Rounded(c.gpr[rs], sh));
  }

  function Addze(rt: Reg, ra: Reg): AluOp { AddX(rt, ra, false, FromCa, NoCarry, true, false, false) }

  function Rounded(x: Word, s: nat): int
    requires s < 64
  {
    if s > 31 then 0 else ShiftR(Signed(x), s) + (if ShiftRight(x, s).1 then 1 else 0)
  }

  lemma {:induction false} SrawRounds(x: Word, s: nat)
    requires s < 64
    ensures TruncatedQuotient(Signed(x), Pow2(s), Rounded(x, s))
    ensures var (v, ca) := Sraw(x, s); Wrap(Rounded(x, s)) == Wrap(v + (if ca then 1 else 0))
  {
    hide Pow2, ShiftRight, TruncatedQuotient, Wrap;
    if s > 31 {
      BigShift(x, s);
    } else {
      ShiftThenRound(x, s);
      WrapAdd(ShiftR(Signed(x), s), if ShiftRight(x, s).1 then 1 else 0);
    }
  }

  lemma {:induction false} BigShift(x: Word, s: nat)
    requires s > 31
    ensures TruncatedQuotient(Signed(x), Pow2(s), 0)
    ensures Wrap(0) == Wrap((if x >= HALF then WORD_LIMIT - 1 else 0) + (if x >= HALF then 1 else 0))
  {
    hide Pow2;
    Pow2Is32();
    Pow2Mono(32, s);
  }

  /** Truncated quotients are unique, so this is the division C performs. */
  lemma QuotientIsUnique(x: int, d: int, q: int, q': int)
    requires TruncatedQuotient(x, d, q) && TruncatedQuotient(x, d, q')
    ensures q == q'
  {
    if q != q' {
      Spread(if q < q' then q else q', if q < q' then q' else q, Abs(d));
    }
  }

  lemma Spread(q: int, q': int, d: nat)
    requires q < q'
    ensures q' * d >= q * d + d
  {
    AtLeastOnce(q' - q, d);
    assert (q' - q) * d == q' * d - q * d;
  }
}
