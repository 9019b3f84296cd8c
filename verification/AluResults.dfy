/** What every integer instruction leaves in its register, in CR, and in CA, OV and SO (tools/PPC.csv, inst_utility.h,
    PPCInterpreter_Logical.cc, PPCInterpreter_Arithmetic.cc). */
module AluResults {
  import opened Words
  import opened CpuTypes
  import opened Alu
  import opened Rotates
  import opened MulDiv

  function TwosComplement(a: Word): int { if a < 0x8000_0000 then a else a - 0x1_0000_0000 }

  predicate InRange(x: int) { -0x8000_0000 <= x < 0x8000_0000 }

  lemma SignedIs(a: Word)
    ensures Signed(a) == TwosComplement(a)
  {
  }

  /** A field of CR: less, greater or equal, and SO. */
  function Field(less: bool, greater: bool, so: bool): Nibble {
    (if less then 8 else if greater then 4 else 2) + (if so then 1 else 0)
  }

  predicate IsCompare(op: AluOp) { op.Cmp? || op.Cmpl? }

  /** The register an instruction writes: RT for arithmetic, RA for rotates and shifts. */
  function TargetOf(op: AluOp): Reg
    requires !IsCompare(op)
  {
    if op.Rlwinm? || op.Rlwimi? || op.SrawX? || op.Srawi? then op.ra else op.rt
  }

  predicate Records(op: AluOp)
    requires !IsCompare(op)
  {
    !op.Addi? && op.rc
  }

  // ---------------------------------------------------------------- CR

  /** One register is written. A record form compares what is written there with zero, as a signed number, and copies SO as it
      leaves it; the other forms leave CR alone. */
  lemma WritesOne(c: Cpu, op: AluOp)
    requires !IsCompare(op)
    ensures var d, t := RunAlu(c, op), TargetOf(op);
      && d == c.(pc := (c.pc + 4) % 0x1_0000_0000, gpr := c.gpr[t := d.gpr[t]], cr := d.cr, ca := d.ca, ov := d.ov, so := d.so)
      && d.cr == (if Records(op) then c.cr[0 := Field(d.gpr[t] >= 0x8000_0000, d.gpr[t] > 0, d.so)] else c.cr)
  {
    hide Retire, RunAlu;
    var v, ca, oe, ov := IsRetired(c, op);
    Retires(c, TargetOf(op), v, ca, oe, ov, Records(op));
  }

  lemma IsRetired(c: Cpu, op: AluOp) returns (v: Word, ca: bool, oe: bool, ov: bool)
    requires !IsCompare(op)
    ensures RunAlu(c, op) == Retire(c, TargetOf(op), v, ca, oe, ov, Records(op))
  {
    hide And, Or32, RotL, MkMask, Insert, ShiftRight, Sraw, Divw, MulOverflows, AddOvCoCi, AddendOf, CarryOf, SignedProduct,
         UnsignedProduct, Retire, Wrap;
    v, ca, oe, ov := 0, c.ca, false, false;
    match op
    case AddX(_, ra, invert, b, ci, co, e, _) =>
      var sum := AddOvCoCi(if invert then Not(c.gpr[ra]) else c.gpr[ra], AddendOf(c, b), CarryOf(c, ci));
      v, ca, oe, ov := sum.val, if co then sum.co else c.ca, e, sum.ov;
    case Addi(_, ra, si) => v := Wrap(GprOrZero(c, ra) + si);
    case Mullw(_, ra, rb, e, _) =>
      v, oe, ov := Wrap(SignedProduct(c.gpr[ra], c.gpr[rb])), e, MulOverflows(c.gpr[ra], c.gpr[rb]);
    case Mulhw(_, ra, rb, _) => v := Wrap(SignedProduct(c.gpr[ra], c.gpr[rb]) / WORD_LIMIT);
    case Mulhwu(_, ra, rb, _) => v := Wrap(UnsignedProduct(c.gpr[ra], c.gpr[rb]) / WORD_LIMIT);
    case DivW(_, ra, rb, e, _) => v, oe, ov := Divw(c.gpr[ra], c.gpr[rb]).0, e, Divw(c.gpr[ra], c.gpr[rb]).1;
    case Rlwinm(_, rs, sh, mb, me, _) => v := And(RotL(c.gpr[rs], sh), MkMask(mb, me));
    case Rlwimi(ra, rs, sh, mb, me, _) => v := Insert(c.gpr[ra], RotL(c.gpr[rs], sh), MkMask(mb, me));
    case SrawX(_, rs, rb, _) => v, ca := Sraw(c.gpr[rs], c.gpr[rb] % 64).0, Sraw(c.gpr[rs], c.gpr[rb] % 64).1;
    case Srawi(_, rs, sh, _) => v, ca := ShiftRight(c.gpr[rs], sh).0, ShiftRight(c.gpr[rs], sh).1;
  }

  predicate RetireIs(c: Cpu, r: Reg, v: Word, ca: bool, oe: bool, ov: bool, rc: bool) {
    var d := Retire(c, r, v, ca, oe, ov, rc);
    && d.ov == (if oe then ov else c.ov) && d.so == (c.so || (oe && ov)) && d.ca == ca && d.gpr[r] == v
    && d == c.(pc := (c.pc + 4) % 0x1_0000_0000, gpr := c.gpr[r := v], cr := d.cr, ca := ca, ov := d.ov, so := d.so)
    && d.cr == (if rc then c.cr[0 := Field(v >= 0x8000_0000, v > 0, d.so)] else c.cr)
  }

  lemma Retires(c: Cpu, r: Reg, v: Word, ca: bool, oe: bool, ov: bool, rc: bool)
    ensures RetireIs(c, r, v, ca, oe, ov, rc)
  {
    forall so ensures Compare(Signed(v), 0, so) == Field(v >= 0x8000_0000, v > 0, so) {
      ComparesZero(v, so);
    }
    hide Compare, Signed, Field;
  }

  lemma ComparesZero(v: Word, so: bool)
    ensures Compare(Signed(v), 0, so) == Field(v >= 0x8000_0000, v > 0, so)
  {
  }

  /** cmp and cmpl write one field of CR, by the signed and by the unsigned order. */
  lemma Compares(c: Cpu, bf: nat, ra: Reg, rb: Reg)
    requires bf < 8
    ensures var a, b := c.gpr[ra], c.gpr[rb];
      && RunAlu(c, Cmp(bf, ra, rb))
         == c.(pc := (c.pc + 4) % 0x1_0000_0000,
               cr := c.cr[bf := Field(TwosComplement(a) < TwosComplement(b), TwosComplement(a) > TwosComplement(b), c.so)])
      && RunAlu(c, Cmpl(bf, ra, rb)) == c.(pc := (c.pc + 4) % 0x1_0000_0000, cr := c.cr[bf := Field(a < b, a > b, c.so)])
  {
    SignedIs(c.gpr[ra]);
    SignedIs(c.gpr[rb]);
    hide Signed, TwosComplement;
  }

  // ---------------------------------------------------------------- Sums

  /** What is added to RA, or to its complement. */
  function SecondOf(c: Cpu, b: Addend): int {
    match b
    case RegB(rb) => c.gpr[rb]
    case Imm(si) => si % 0x1_0000_0000
    case FromCa => if c.ca then 1 else 0
    case MinusOne => 0xffff_ffff
    case Zero => 0
  }

  function ThirdOf(c: Cpu, ci: CarryIn): int {
    match ci
    case NoCarry => 0
    case One => 1
    case Ca => if c.ca then 1 else 0
  }

  /** The whole family of additions and subtractions: the sum on 32 bits; CA, for those that write it, is whether it needed more;
      OV, for those that ask, is whether the sum of the signed operands does not fit, and SO keeps it. */
  lemma {:induction false} Adds(c: Cpu, rt: Reg, ra: Reg, invert: bool, b: Addend, ci: CarryIn, co: bool, oe: bool, rc: bool)
    ensures var d := RunAlu(c, AddX(rt, ra, invert, b, ci, co, oe, rc));
      var x := if invert then 0xffff_ffff - c.gpr[ra] else c.gpr[ra];
      var y, k := SecondOf(c, b), ThirdOf(c, ci);
      && d.gpr[rt] == (x + y + k) % 0x1_0000_0000
      && (d.ca <==> if co then x + y + k >= 0x1_0000_0000 else c.ca)
      && 0 <= y < 0x1_0000_0000
      && (d.ov <==> if oe then !InRange(TwosComplement(x) + TwosComplement(y) + k) else c.ov)
      && (d.so <==> c.so || (oe && d.ov))
  {
    hide AddOvCoCi, Retire, TwosComplement, InRange, AddendOf, CarryOf, SecondOf, ThirdOf, RetireIs;
    var x := if invert then Not(c.gpr[ra]) else c.gpr[ra];
    var y, k := AddendOf(c, b), CarryOf(c, ci);
    OperandsAre(c, b, ci);
    SumIs(x, y, k);
    var sum := AddOvCoCi(x, y, k);
    Retires(c, rt, sum.val, if co then sum.co else c.ca, oe, sum.ov, rc);
    RetireGives(c, rt, sum.val, if co then sum.co else c.ca, oe, sum.ov, rc);
  }

  lemma OperandsAre(c: Cpu, b: Addend, ci: CarryIn)
    ensures AddendOf(c, b) == SecondOf(c, b) && CarryOf(c, ci) == ThirdOf(c, ci) <= 1
  {
  }

  lemma RetireGives(c: Cpu, r: Reg, v: Word, ca: bool, oe: bool, ov: bool, rc: bool)
    requires RetireIs(c, r, v, ca, oe, ov, rc)
    ensures var d := Retire(c, r, v, ca, oe, ov, rc);
      d.ov == (if oe then ov else c.ov) && d.so == (c.so || (oe && ov)) && d.ca == ca && d.gpr[r] == v
  {
    hide Retire;
  }

  lemma SumIs(x: Word, y: Word, k: Word)
    requires k <= 1
    ensures var s := AddOvCoCi(x, y, k);
      && s.val == (x + y + k) % 0x1_0000_0000 && (s.co <==> x + y + k >= 0x1_0000_0000)
      && (s.ov <==> !InRange(TwosComplement(x) + TwosComplement(y) + k))
  {
  }

  /** subf and its relatives, which add the complement and one, subtract: CA is the absence of a borrow. */
  lemma {:induction false} SubtractsFrom(c: Cpu, rt: Reg, ra: Reg, b: Addend, co: bool, oe: bool, rc: bool)
    ensures var d := RunAlu(c, AddX(rt, ra, true, b, One, co, oe, rc));
      && 0 <= SecondOf(c, b) < 0x1_0000_0000
      && d.gpr[rt] == (SecondOf(c, b) - c.gpr[ra]) % 0x1_0000_0000
      && (co ==> (d.ca <==> SecondOf(c, b) >= c.gpr[ra]))
      && (oe ==> (d.ov <==> !InRange(TwosComplement(SecondOf(c, b)) - TwosComplement(c.gpr[ra]))))
  {
    Adds(c, rt, ra, true, b, One, co, oe, rc);
    ComplementIs(SecondOf(c, b), c.gpr[ra]);
    hide SecondOf, RunAlu, TwosComplement;
  }

  lemma ComplementIs(y: Word, x: Word)
    ensures (0xffff_ffff - x + y + 1) % 0x1_0000_0000 == (y - x) % 0x1_0000_0000
    ensures TwosComplement(0xffff_ffff - x) == -1 - TwosComplement(x)
  {
  }

  /** addi, whose register 0 stands for zero. */
  lemma AddsImmediate(c: Cpu, rt: Reg, ra: Reg, si: int)
    ensures RunAlu(c, Addi(rt, ra, si))
         == c.(pc := (c.pc + 4) % 0x1_0000_0000, gpr := c.gpr[rt := ((if ra == 0 then 0 else c.gpr[ra]) + si) % 0x1_0000_0000])
  {
    hide Compare;
  }

  // ---------------------------------------------------------------- Products and quotients

  lemma Multiplies(c: Cpu, rt: Reg, ra: Reg, rb: Reg, oe: bool, rc: bool)
    ensures var d := RunAlu(c, Mullw(rt, ra, rb, oe, rc));
      var p := TwosComplement(c.gpr[ra]) * TwosComplement(c.gpr[rb]);
      && d.gpr[rt] == p % 0x1_0000_0000 && d.ca == c.ca
      && (d.ov <==> if oe then !InRange(p) else c.ov) && (d.so <==> c.so || (oe && d.ov))
  {
    var a, b := c.gpr[ra], c.gpr[rb];
    OverflowIffTooWide(a, b);
    SignedIs(a);
    SignedIs(b);
    Retires(c, rt, Wrap(SignedProduct(a, b)), c.ca, oe, MulOverflows(a, b), rc);
    hide MulOverflows, Retire, Signed, TwosComplement;
  }

  /** divw divides and truncates, unless the quotient does not exist or does not fit: then OV is set, if asked for, and the result is
      the largest number, or for the quotient of a negative number by zero the smallest. */
  lemma Divides(c: Cpu, rt: Reg, ra: Reg, rb: Reg, oe: bool, rc: bool)
    ensures var d := RunAlu(c, DivW(rt, ra, rb, oe, rc));
      var a, b := TwosComplement(c.gpr[ra]), TwosComplement(c.gpr[rb]);
      var bad := b == 0 || (a == -0x8000_0000 && b == -1);
      && (d.ov <==> if oe then bad else c.ov) && (d.so <==> c.so || (oe && bad)) && d.ca == c.ca
      && (if bad then d.gpr[rt] == if b == 0 && a < 0 then 0x8000_0000 else 0x7fff_ffff
          else exists q :: TruncatedQuotient(a, b, q) && d.gpr[rt] == q % 0x1_0000_0000)
  {
    hide Retire, TruncDiv, TruncatedQuotient, TwosComplement, Signed;
    var a, b := c.gpr[ra], c.gpr[rb];
    SignedIs(a);
    SignedIs(b);
    SignsOf(a);
    SignsOf(b);
    if b != 0 {
      DivisionTruncates(Signed(a), Signed(b));
      assert TruncatedQuotient(Signed(a), Signed(b), TruncDiv(Signed(a), Signed(b)));
    }
    Retires(c, rt, Divw(a, b).0, c.ca, oe, Divw(a, b).1, rc);
  }

  lemma SignsOf(a: Word)
    ensures (TwosComplement(a) == 0 <==> a == 0) && (TwosComplement(a) < 0 <==> a >= 0x8000_0000)
    ensures (TwosComplement(a) == -0x8000_0000 <==> a == 0x8000_0000) && (TwosComplement(a) == -1 <==> a == 0xffff_ffff)
  {
  }

  // ---------------------------------------------------------------- Rotates and shifts

  /** rlwinm: bit b is bit b + SH of RS, going round, inside the run from MB to ME, which may go round as well, and zero outside. */
  lemma RotatesAndMasks(c: Cpu, ra: Reg, rs: Reg, sh: Reg, mb: Reg, me: Reg, rc: bool, b: Reg)
    ensures IbmBit(RunAlu(c, Rlwinm(ra, rs, sh, mb, me, rc)).gpr[ra], b)
         == (InRun(mb, me, b) && IbmBit(c.gpr[rs], (b + sh) % 32))
  {
    hide RotL, MkMask, And, IbmBit, Retire, InRun;
    var v := And(RotL(c.gpr[rs], sh), MkMask(mb, me));
    Retires(c, ra, v, c.ca, false, false, rc);
    AndIbm(RotL(c.gpr[rs], sh), MkMask(mb, me), b);
    MaskIsRun(mb, me, b);
    RotLBit(c.gpr[rs], sh, b);
  }

  /** rlwimi: the same inside the run, and RA's own bit outside. */
  lemma RotatesAndInserts(c: Cpu, ra: Reg, rs: Reg, sh: Reg, mb: Reg, me: Reg, rc: bool, b: Reg)
    ensures IbmBit(RunAlu(c, Rlwimi(ra, rs, sh, mb, me, rc)).gpr[ra], b)
         == if InRun(mb, me, b) then IbmBit(c.gpr[rs], (b + sh) % 32) else IbmBit(c.gpr[ra], b)
  {
    hide RotL, MkMask, Insert, IbmBit, Retire, InRun;
    Retires(c, ra, Insert(c.gpr[ra], RotL(c.gpr[rs], sh), MkMask(mb, me)), c.ca, false, false, rc);
    InsertBit(c.gpr[ra], RotL(c.gpr[rs], sh), MkMask(mb, me), b);
    MaskIsRun(mb, me, b);
    RotLBit(c.gpr[rs], sh, b);
  }

  /** An arithmetic shift right divides by 2^s and rounds down; CA is whether the number was negative and not a multiple. */
  predicate ShiftedRight(x: Word, s: nat, v: Word, ca: bool) {
    && v == (TwosComplement(x) / Pow2(s)) % 0x1_0000_0000
    && (ca <==> TwosComplement(x) < 0 && TwosComplement(x) % Pow2(s) != 0)
  }

  lemma {:induction false} Shifts(c: Cpu, ra: Reg, rs: Reg, rb: Reg, sh: Reg, rc: bool)
    ensures var d, e := RunAlu(c, SrawX(ra, rs, rb, rc)), RunAlu(c, Srawi(ra, rs, sh, rc));
      && ShiftedRight(c.gpr[rs], c.gpr[rb] % 64, d.gpr[ra], d.ca) && ShiftedRight(c.gpr[rs], sh, e.gpr[ra], e.ca)
  {
    hide Retire, ShiftRight, Sraw, ShiftedRight;
    var x := c.gpr[rs];
    var (v, ca) := Sraw(x, c.gpr[rb] % 64);
    var (w, cb) := ShiftRight(x, sh);
    Retires(c, ra, v, ca, false, false, rc);
    Retires(c, ra, w, cb, false, false, rc);
    SrawShifts(x, c.gpr[rb] % 64);
    SrawShifts(x, sh);
    SmallSraw(x, sh);
  }

  lemma SmallSraw(x: Word, s: Reg)
    ensures Sraw(x, s) == ShiftRight(x, s)
  {
    hide ShiftRight;
  }

  lemma {:induction false} SrawShifts(x: Word, s: nat)
    requires s < 64
    ensures ShiftedRight(x, s, Sraw(x, s).0, Sraw(x, s).1)
  {
    SignedIs(x);
    if s > 31 {
      Pow2Is32();
      Pow2Mono(32, s);
      FarShift(TwosComplement(x), Pow2(s));
    } else {
      Pow2Is32();
      LowIsMasked(x, s);
      LowOfNegative(x, 32, s);
      ShiftRParts(Signed(x), s);
      LowBelow(Signed(x), s);
      QuotientOfInt(Signed(x), Pow2(s), ShiftR(Signed(x), s), Low(Signed(x), s));
      hide And, ShiftR, Low, Pow2;
    }
  }

  lemma FarShift(x: int, p: nat)
    requires -0x8000_0000 <= x < 0x8000_0000 && p >= 0x1_0000_0000
    ensures x / p == (if x < 0 then -1 else 0) && (x < 0 ==> x % p != 0)
  {
  }

  lemma {:induction false} LowBelow(x: int, s: nat)
    ensures 0 <= Low(x, s) < Pow2(s)
    decreases s
  {
    if s > 0 {
      LowBelow(x / 2, s - 1);
    }
  }

  lemma QuotientOfInt(x: int, p: nat, q: int, r: nat)
    requires p > 0 && x == q * p + r && r < p
    ensures x / p == q && x % p == r
  {
    var e, t := x / p, x % p;
    assert x == p * e + t && 0 <= t < p;
    Distribute(q, e, p);
    if e < q {
      AtLeastOnce(q - e, p);
    } else if q < e {
      AtLeastOnce(e - q, p);
    }
  }

  lemma Distribute(q: int, e: int, p: nat)
    ensures (q - e) * p == q * p - p * e && (e - q) * p == p * e - q * p
  {
  }
}
