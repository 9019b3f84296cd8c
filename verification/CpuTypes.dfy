/** CPU registers (PPCCPUState.h): MSR bits, condition register fields, and the accessors the instructions use. */
module CpuTypes {
  import opened Words

  type Reg = x: int | 0 <= x < 32

  type Nibble = x: int | 0 <= x < 16

  type Gprs = s: seq<Word> | |s| == 32 witness seq(32, _ => 0)

  /** CR as its eight fields, field 0 being the most significant. */
  type CrFields = s: seq<Nibble> | |s| == 8 witness seq(8, _ => 0)

  datatype Cpu = Cpu(gpr: Gprs, pc: Word, lr: Word, ctr: Word, so: bool, ov: bool, ca: bool, cr: CrFields,
                     msr: Word, srr0: Word, srr1: Word, dar: Word, dsisr: Word, dec: Word, tb: nat, irq: bool)

  /** The registers after construction; those that the source leaves uninitialised are zero. */
  function ResetCpu(): Cpu {
    Cpu(seq(32, _ => 0), 0, 0, 0, false, false, false, seq(8, _ => 0), 0, 0, 0, 0, 0, 0xffff_ffff, 0, false)
  }

  const HALF: nat := 0x8000_0000

  function Signed(w: Word): int { if w < HALF then w else w - WORD_LIMIT }

  function Wrap(x: int): Word { x % WORD_LIMIT }

  function Not(w: Word): Word { WORD_LIMIT - 1 - w }

  function NextPc(pc: Word): Word { Wrap(pc + 4) }

  function WordAligned(a: Word): Word { a - a % 4 }

  // MSR: EE 0x8000, PR 0x4000, IP 0x40, IR 0x20, DR 0x10.
  predicate EE(msr: Word) { msr / 0x8000 % 2 == 1 }

  predicate PR(msr: Word) { msr / 0x4000 % 2 == 1 }

  predicate IP(msr: Word) { msr / 0x40 % 2 == 1 }

  predicate IR(msr: Word) { msr / 0x20 % 2 == 1 }

  predicate DR(msr: Word) { msr / 0x10 % 2 == 1 }

  /** READ_GPR_OZ */
  function GprOrZero(c: Cpu, r: Reg): Word { if r == 0 then 0 else c.gpr[r] }

  function SetGpr(c: Cpu, r: Reg, v: Word): Cpu { c.(gpr := c.gpr[r := v]) }

  /** SET_SO_OV: SO is sticky. */
  function SetSoOv(c: Cpu, ov: bool): Cpu { c.(ov := ov, so := ov || c.so) }

  /** CMP and CMPu: LT, GT or EQ, with SO copied. */
  function Compare(x: int, y: int, so: bool): Nibble {
    (if x < y then 8 else if x > y then 4 else 2) + (if so then 1 else 0)
  }

  function SetCrField(c: Cpu, f: nat, v: Nibble): Cpu
    requires f < 8
  {
    c.(cr := c.cr[f := v])
  }

  /** SET_CR0 */
  function SetCr0(c: Cpu, v: Word): Cpu { SetCrField(c, 0, Compare(Signed(v), 0, c.so)) }

  /** getCRb: bit `b` of CR in IBM order. */
  function CrBit(c: Cpu, b: Reg): bool {
    var field := c.cr[b / 4];
    (if b % 4 == 0 then field / 8 else if b % 4 == 1 then field / 4 else if b % 4 == 2 then field / 2 else field) % 2 == 1
  }

  function IncPc(c: Cpu): Cpu { c.(pc := NextPc(c.pc)) }
}
