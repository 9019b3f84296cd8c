/** Integer instructions that touch only GPRs, XER and CR (inst_utility.h, tools/PPC.csv, PPCInterpreter_Logical.cc,
    PPCInterpreter_Arithmetic.cc). */
module Alu {
  import opened Words
  import opened CpuTypes

  datatype Sum = Sum(val: Word, ov: bool, co: bool)

  /** ADD_OV_CO_CI: a 64-bit sum, its bit 32, and overflow from the signs of operands and result. */
  function AddOvCoCi(a: Word, b: Word, ci: Word): Sum {
    var r := a + b + ci;
    var val := r % WORD_LIMIT;
    Sum(val, (a < HALF && b < HALF && val >= HALF) || (a >= HALF && b >= HALF && val < HALF), r / WORD_LIMIT % 2 == 1)
  }

  function Rest(x: int, d: int, q: int): int { x - q * d }

  function SignedProduct(a: Word, b: Word): int { Signed(a) * Signed(b) }

  function UnsignedProduct(a: Word, b: Word): nat { a * b }

  /** What C's `/` means: the remainder is smaller than the divisor and has the sign of the dividend. */
  predicate TruncatedQuotient(x: int, d: int, q: int) {
    var r := Rest(x, d, q);
    Abs(r) < Abs(d) && (x >= 0 ==> r >= 0) && (x <= 0 ==> r <= 0)
  }

  /** C's signed division, which truncates toward zero. */
  function TruncDiv(a: int, b: int): int
    requires b != 0
  {
    if (a >= 0) == (b > 0) then Abs(a) / Abs(b) else -(Abs(a) / Abs(b))
  }

  function Abs(a: int): nat { if a < 0 then -a else a }

  /** mullw's flag: on the 64-bit product as an unsigned number, neither plain sign extension of its low word, or a
      sign that is not the product of the signs. */
  function MulOverflows(a: Word, b: Word): bool {
    OverflowFormula(SignedProduct(a, b) % 0x1_0000_0000_0000_0000, (a >= HALF) != (b >= HALF))
  }

  predicate OverflowFormula(x: nat, differ: bool) {
    (x / WORD_LIMIT != 0 && x / HALF != 0x1_ffff_ffff) || (differ != (x % WORD_LIMIT >= HALF) && x != 0)
  }

  /** op_divw's result and flag. */
  function Divw(a: Word, b: Word): (Word, bool) {
    if b == 0 then (if a >= HALF then HALF else HALF - 1, true)
    else if a == HALF && b == WORD_LIMIT - 1 then (HALF - 1, true)
    else (Wrap(TruncDiv(Signed(a), Signed(b))), false)
  }

  // ---------------------------------------------------------------- Bits

  lemma Pow2Is32()
    ensures Pow2(32) == WORD_LIMIT
  {
    Pow2Values();
    assert Pow2(20) == 0x10_0000 && Pow2(24) == 0x100_0000 && Pow2(28) == 0x1000_0000;
  }

  lemma {:induction false} Pow2Mono(m: nat, n: nat)
    requires m <= n
    ensures Pow2(m) <= Pow2(n)
  {
    if m < n {
      Pow2Mono(m, n - 1);
    }
  }

  /** The low `n` bits set, `0xffffffff >> (32 - n)`. */
  function Ones(n: nat): Word
    requires n <= 32
  {
    Pow2Is32();
    Pow2Mono(n, 32);
    Pow2(n) - 1
  }

  function Or32(a: Word, b: Word): Word {
    Pow2Is32();
    OrBound(a, b, 32);
    Or(a, b)
  }

  /** mkmask, in IBM bit numbers: `(0xffffffff >> mb) & ~(0x7fffffff >> me)` when mb <= me, and otherwise
      `(0xffffffff << (31 - me)) | ~(0xfffffffe << (31 - mb))`. */
  function MkMask(mb: Reg, me: Reg): Word {
    if mb <= me then And(Ones(32 - mb), Not(Ones(31 - me))) else Or32(Not(Ones(31 - me)), Ones(32 - mb))
  }

  /** `x << n`, untruncated. */
  function ShiftL(x: nat, n: nat): nat { if n == 0 then x else 2 * ShiftL(x, n - 1) }

  /** `x >> n`, the sign filling from the left. */
  function ShiftR(x: int, n: nat): (r: int)
    ensures 0 <= x ==> 0 <= r <= x
    ensures x < 0 ==> x <= r < 0
    decreases n
  {
    if n == 0 then x else ShiftR(x / 2, n - 1)
  }

  /** ROTL32; by 0 it is the value itself. */
  function RotL(x: Word, s: Reg): Word {
    Or32(And(ShiftL(x, s), WORD_LIMIT - 1), ShiftR(x, 32 - s))
  }

  function Insert(into: Word, field: Word, mask: Word): Word {
    Or32(And(into, Not(mask)), And(field, mask))
  }

  /** An arithmetic shift right, and the carry: whether ones were shifted out of a negative value. */
  function ShiftRight(x: Word, s: Reg): (Word, bool) {
    (Wrap(ShiftR(Signed(x), s)), x >= HALF && And(x, Ones(s)) != 0)
  }

  /** op_sraw: shifts of 32 and more leave the sign everywhere. */
  function Sraw(x: Word, s: nat): (Word, bool)
    requires s < 64
  {
    if s > 31 then (if x >= HALF then WORD_LIMIT - 1 else 0, x >= HALF) else ShiftRight(x, s)
  }

  // ---------------------------------------------------------------- Instructions

  datatype Addend = RegB(rb: Reg) | Imm(si: int) | FromCa | MinusOne | Zero

  datatype CarryIn = NoCarry | One | Ca

  /** `AddX` covers the add and subtract-from families: add, addc, adde, addme, addze, addic, subf, subfc, subfe, subfme,
      subfze, subfic and neg, by what is added to RA or its complement and which carries are used. */
  datatype AluOp =
    | AddX(rt: Reg, ra: Reg, invert: bool, b: Addend, ci: CarryIn, co: bool, oe: bool, rc: bool)
    | Addi(rt: Reg, ra: Reg, si: int)
    | Mullw(rt: Reg, ra: Reg, rb: Reg, oe: bool, rc: bool)
    | Mulhw(rt: Reg, ra: Reg, rb: Reg, rc: bool)
    | Mulhwu(rt: Reg, ra: Reg, rb: Reg, rc: bool)
    | DivW(rt: Reg, ra: Reg, rb: Reg, oe: bool, rc: bool)
    | Rlwinm(ra: Reg, rs: Reg, sh: Reg, mb: Reg, me: Reg, rc: bool)
    | Rlwimi(ra: Reg, rs: Reg, sh: Reg, mb: Reg, me: Reg, rc: bool)
    | SrawX(ra: Reg, rs: Reg, rb: Reg, rc: bool)
    | Srawi(ra: Reg, rs: Reg, sh: Reg, rc: bool)
    | Cmp(bf: nat, ra: Reg, rb: Reg)
    | Cmpl(bf: nat, ra: Reg, rb: Reg)

  predicate AluOk(op: AluOp) {
    (op.Cmp? || op.Cmpl?) ==> op.bf < 8
  }

  function AddendOf(c: Cpu, b: Addend): Word {
    match b
    case RegB(rb) => c.gpr[rb]
    case Imm(si) => Wrap(si)
    case FromCa => if c.ca then 1 else 0
    case MinusOne => WORD_LIMIT - 1
    case Zero => 0
  }

  function CarryOf(c: Cpu, ci: CarryIn): Word {
    match ci
    case NoCarry => 0
    case One => 1
    case Ca => if c.ca then 1 else 0
  }

  predicate OnlyAlu(c: Cpu, d: Cpu) {
    d == c.(gpr := d.gpr, ca := d.ca, ov := d.ov, so := d.so, cr := d.cr, pc := NextPc(c.pc)) && (c.so ==> d.so)
  }

  /** Write the result, the flags the instruction asks for, and CR0 last, with the new SO. */
  function Retire(c: Cpu, r: Reg, v: Word, ca: bool, oe: bool, ov: bool, rc: bool): (d: Cpu)
    ensures OnlyAlu(c, d)
  {
    hide Compare, Signed;
    var d := SetGpr(c, r, v).(ca := ca);
    var e := if oe then SetSoOv(d, ov) else d;
    IncPc(if rc then SetCr0(e, v) else e)
  }

  function RunAlu(c: Cpu, op: AluOp): Cpu
    requires AluOk(op)
  {
    match op
    case AddX(rt, ra, invert, b, ci, co, oe, rc) =>
      var sum := AddOvCoCi(if invert then Not(c.gpr[ra]) else c.gpr[ra], AddendOf(c, b), CarryOf(c, ci));
      Retire(c, rt, sum.val, if co then sum.co else c.ca, oe, sum.ov, rc)
    case Addi(rt, ra, si) =>
      Retire(c, rt, Wrap(GprOrZero(c, ra) + si), c.ca, false, false, false)
    case Mullw(rt, ra, rb, oe, rc) =>
      Retire(c, rt, Wrap(SignedProduct(c.gpr[ra], c.gpr[rb])), c.ca, oe, MulOverflows(c.gpr[ra], c.gpr[rb]), rc)
    case Mulhw(rt, ra, rb, rc) =>
      Retire(c, rt, Wrap(SignedProduct(c.gpr[ra], c.gpr[rb]) / WORD_LIMIT), c.ca, false, false, rc)
    case Mulhwu(rt, ra, rb, rc) =>
      Retire(c, rt, Wrap(UnsignedProduct(c.gpr[ra], c.gpr[rb]) / WORD_LIMIT), c.ca, false, false, rc)
    case DivW(rt, ra, rb, oe, rc) =>
      var (q, ov) := Divw(c.gpr[ra], c.gpr[rb]);
      Retire(c, rt, q, c.ca, oe, ov, rc)
    case Rlwinm(ra, rs, sh, mb, me, rc) =>
      Retire(c, ra, And(RotL(c.gpr[rs], sh), MkMask(mb, me)), c.ca, false, false, rc)
    case Rlwimi(ra, rs, sh, mb, me, rc) =>
      Retire(c, ra, Insert(c.gpr[ra], RotL(c.gpr[rs], sh), MkMask(mb, me)), c.ca, false, false, rc)
    case SrawX(ra, rs, rb, rc) =>
      var (v, ca) := Sraw(c.gpr[rs], c.gpr[rb] % 64);
      Retire(c, ra, v, ca, false, false, rc)
    case Srawi(ra, rs, sh, rc) =>
      var (v, ca) := ShiftRight(c.gpr[rs], sh);
      Retire(c, ra, v, ca, false, false, rc)
    case Cmp(bf, ra, rb) =>
      IncPc(SetCrField(c, bf, Compare(Signed(c.gpr[ra]), Signed(c.gpr[rb]), c.so)))
    case Cmpl(bf, ra, rb) =>
      IncPc(SetCrField(c, bf, Compare(c.gpr[ra], c.gpr[rb], c.so)))
  }

  /** No integer instruction changes anything but GPRs, XER, CR and the PC, which moves on by one word; SO never goes
      from set to clear. */
  lemma AluKeeps(c: Cpu, op: AluOp)
    requires AluOk(op)
    ensures OnlyAlu(c, RunAlu(c, op))
  {
    hide And, Or32, RotL, MkMask, Insert, ShiftRight, Sraw, Divw, MulOverflows, AddOvCoCi, Compare, Signed, Retire,
         AddendOf, CarryOf;
  }
}
