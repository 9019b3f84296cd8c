/** What branches add up to: calls that return, counted loops, and tests of comparisons (PPCInterpreter_Branch.cc,
    inst_utility.h). */
module Branches {
  import opened Words
  import opened MmuTypes
  import opened PageWalk
  import opened DirectTlb
  import opened CpuTypes
  import opened Alu
  import opened Interp

  // BO 20 (0b10100): branch always. BO 16 (0b10000): decrement CTR, branch while it is not zero. BO 12 and 4: branch if
  // the CR bit is set, or clear.

  predicate Has(bo: nat, bit: nat)
    requires bit > 0
  {
    bo / bit % 2 == 1
  }

  /** Bit `b` of CR, the most significant being 0. */
  predicate CrHas(c: Cpu, b: Reg) {
    var field, k := c.cr[b / 4], b % 4;
    Has(field, if k == 0 then 8 else if k == 1 then 4 else if k == 2 then 2 else 1)
  }

  /** CTR after a branch, which counts down unless BO has its third bit. */
  function Counted(c: Cpu, bo: nat): Word { if Has(bo, 4) then c.ctr else (c.ctr - 1) % 0x1_0000_0000 }

  /** Whether bc and bclr branch: on the condition, unless BO has its first bit, with the sense of its second; and if they count, on
      CTR being zero or not, as its fourth says. */
  predicate Branches(c: Cpu, bo: nat, bi: Reg) {
    (Has(bo, 0x10) || CrHas(c, bi) == Has(bo, 8)) && (Has(bo, 4) || (Counted(c, bo) == 0) == Has(bo, 2))
  }

  function After(pc: Word): Word { (pc + 4) % 0x1_0000_0000 }

  function Linked(c: Cpu, lk: bool): Word { if lk then After(c.pc) else c.lr }

  /** Every branch in full. Displacements are added to the PC of the branch itself, or stand alone; the next address goes to LR
      whether or not the branch is taken, after LR has been read; and a branch to itself asks for the end. */
  lemma BranchDoes(m: Machine, li: int, bd: int, aa: bool, lk: bool, bo: nat, bi: Reg)
    ensures var c := m.cpu;
      && (var dest := ((if aa then 0 else c.pc) + li) % 0x1_0000_0000;
          ExecBranch(m, B(li, aa, lk))
          == Next(m.(cpu := c.(pc := dest, lr := Linked(c, lk)), stop := m.stop || dest == c.pc)))
      && (var dest := ((if aa then 0 else c.pc) + bd) % 0x1_0000_0000;
          ExecBranch(m, Bc(bo, bi, bd, aa, lk))
          == Next(m.(cpu := c.(pc := if Branches(c, bo, bi) then dest else After(c.pc), lr := Linked(c, lk), ctr := Counted(c, bo)))))
      && ExecBranch(m, Bclr(bo, bi, lk))
         == Next(m.(cpu := c.(pc := if Branches(c, bo, bi) then c.lr / 4 * 4 else After(c.pc), lr := Linked(c, lk),
                              ctr := Counted(c, bo))))
      && (Has(bo, 4) ==>
            ExecBranch(m, Bcctr(bo, bi, lk))
            == Next(m.(cpu := c.(pc := if Branches(c, bo, bi) then c.ctr / 4 * 4 else After(c.pc), lr := Linked(c, lk)))))
  {
    hide *;
    BDoes(m, li, aa, lk);
    BcDoes(m, bd, aa, lk, bo, bi);
    BclrDoes(m, lk, bo, bi);
    BcctrDoes(m, lk, bo, bi);
  }

  lemma BDoes(m: Machine, li: int, aa: bool, lk: bool)
    ensures var c := m.cpu; var dest := ((if aa then 0 else c.pc) + li) % 0x1_0000_0000;
      ExecBranch(m, B(li, aa, lk)) == Next(m.(cpu := c.(pc := dest, lr := Linked(c, lk)), stop := m.stop || dest == c.pc))
  {
  }

  lemma BcDoes(m: Machine, bd: int, aa: bool, lk: bool, bo: nat, bi: Reg)
    ensures var c := m.cpu; var dest := ((if aa then 0 else c.pc) + bd) % 0x1_0000_0000;
      ExecBranch(m, Bc(bo, bi, bd, aa, lk))
      == Next(m.(cpu := c.(pc := if Branches(c, bo, bi) then dest else After(c.pc), lr := Linked(c, lk), ctr := Counted(c, bo))))
  {
    BranchOnIs(m.cpu, bo, bi);
    hide BranchOn, Branches, Counted;
  }

  lemma BclrDoes(m: Machine, lk: bool, bo: nat, bi: Reg)
    ensures var c := m.cpu;
      ExecBranch(m, Bclr(bo, bi, lk))
      == Next(m.(cpu := c.(pc := if Branches(c, bo, bi) then c.lr / 4 * 4 else After(c.pc), lr := Linked(c, lk),
                           ctr := Counted(c, bo))))
  {
    BranchOnIs(m.cpu, bo, bi);
    AlignedIs(m.cpu.lr);
    hide BranchOn, Branches, Counted, WordAligned;
  }

  lemma BcctrDoes(m: Machine, lk: bool, bo: nat, bi: Reg)
    ensures var c := m.cpu;
      Has(bo, 4) ==>
        ExecBranch(m, Bcctr(bo, bi, lk))
        == Next(m.(cpu := c.(pc := if Branches(c, bo, bi) then c.ctr / 4 * 4 else After(c.pc), lr := Linked(c, lk))))
  {
    BranchOnIs(m.cpu, bo, bi);
    AlignedIs(m.cpu.ctr);
    hide BranchOn, Branches, Counted, WordAligned, Condition, RaiseProg;
  }

  lemma AlignedIs(a: Word)
    ensures WordAligned(a) == a / 4 * 4
  {
  }

  lemma BranchOnIs(c: Cpu, bo: nat, bi: Reg)
    ensures BranchOn(c, bo, bi) == (Counted(c, bo), Branches(c, bo, bi))
    ensures Has(bo, 4) ==> (Branches(c, bo, bi) <==> Condition(c, bo, bi))
  {
    hide CrBit, CrHas;
    CrBitIs(c, bi);
  }

  lemma CrBitIs(c: Cpu, b: Reg)
    ensures CrBit(c, b) == CrHas(c, b)
  {
  }

  /** A call, bl, and the blr at its end, with LR untouched in between: control comes back to the instruction after the call,
      wherever the callee was. */
  lemma CallThenReturn(m: Machine, li: int, aa: bool, callee: Machine, bi: Reg)
    requires m.cpu.pc % 4 == 0 && callee.cpu.lr == ExecBranch(m, B(li, aa, true)).m.cpu.lr
    ensures ExecBranch(m, B(li, aa, true)).m.cpu.pc == Target(m.cpu, li, aa)
    ensures ExecBranch(callee, Bclr(20, bi, false)).m.cpu.pc == NextPc(m.cpu.pc)
  {
    hide Target, CrBit;
    var lr := NextPc(m.cpu.pc);
    assert lr % 4 == 0 && WordAligned(lr) == lr;
  }

  /** CTR after `n` executions of bdnz, and whether the last of them branches. */
  function CountDown(ctr: Word, n: nat): (Word, bool)
    requires n > 0
  {
    var before := if n == 1 then ctr else CountDown(ctr, n - 1).0;
    var after := Wrap(before - 1);
    (after, after != 0)
  }

  /** One bdnz: CTR goes down by one on 32 bits, and the branch is taken unless it reaches zero. */
  lemma BdnzStep(m: Machine, bi: Reg, bd: int)
    ensures var r := ExecBranch(m, Bc(16, bi, bd, false, false)).m.cpu;
      var (ctr, taken) := CountDown(m.cpu.ctr, 1);
      r.ctr == ctr && r.pc == if taken then Target(m.cpu, bd, false) else NextPc(m.cpu.pc)
  {
    hide Target, CrBit;
  }

  /** So a loop closed by bdnz runs its body CTR times, and 2^32 times if CTR starts at zero: the `n`th bdnz is the first that
      falls through exactly when `n` is that number. */
  lemma {:induction false} LoopCount(ctr: Word, n: nat)
    requires 0 < n <= WORD_LIMIT
    ensures var times := if ctr == 0 then WORD_LIMIT else ctr;
      n <= times ==> CountDown(ctr, n).0 == Wrap(ctr - n) && (CountDown(ctr, n).1 <==> n < times)
  {
    var times := if ctr == 0 then WORD_LIMIT else ctr;
    if n > 1 {
      LoopCount(ctr, n - 1);
    }
    if n <= times {
      Remaining(ctr, n);
    }
  }

  lemma Remaining(ctr: Word, n: nat)
    requires 0 < n <= (if ctr == 0 then WORD_LIMIT else ctr)
    ensures Wrap(Wrap(ctr - (n - 1)) - 1) == Wrap(ctr - n)
    ensures Wrap(ctr - n) == 0 <==> n == (if ctr == 0 then WORD_LIMIT else ctr)
  {
    assert Wrap(ctr - n) == if ctr == 0 then WORD_LIMIT - n else ctr - n;
  }

  /** A run of instructions, whatever path they take. */
  ghost predicate Trace(env: Env, ms: seq<Machine>, code: seq<Inst>, insts: seq<Word>) {
    && |ms| == |code| + 1 && |insts| == |code|
    && forall j :: 0 <= j < |code| ==>
         ConfigOk(ms[j].arch.cfg) && InstOk(code[j]) && ms[j + 1] == Exec(env, ms[j], code[j], insts[j]).m
  }

  function Bdnz(bi: Reg, bd: int): Inst { Bc(16, bi, bd, false, false) }

  /** Instructions that do not write CTR. */
  predicate KeepsCtr(i: Inst) { !((i.Bc? || i.Bclr?) && i.bo / 4 % 2 == 0) && !(i.MtSpr? && i.spr.SprCtr?) }

  lemma CtrKept(env: Env, m: Machine, i: Inst, inst: Word)
    requires ConfigOk(m.arch.cfg) && InstOk(i) && KeepsCtr(i)
    ensures Exec(env, m, i, inst).m.cpu.ctr == m.cpu.ctr
  {
    hide ConfigOk, ExecMemory, ExecBranch, ExecSystem, RunAlu, KeepsCtr;
    if i.Integer? {
      AluKeeps(m.cpu, i.op);
    } else if IsMemory(i) {
      MemoryKeepsCtr(env, m, i, inst);
    } else if IsBranch(i) {
      BranchKeepsCtr(m, i);
    } else {
      SystemKeepsCtr(env, m, i);
    }
  }

  lemma BranchKeepsCtr(m: Machine, i: Inst)
    requires IsBranch(i) && KeepsCtr(i)
    ensures ExecBranch(m, i).m.cpu.ctr == m.cpu.ctr
  {
    hide WordAligned, Condition, Target, RaiseProg, Goto, Link, InHandler;
    forall c, taken, dest ensures Goto(c, taken, dest).ctr == c.ctr {
      GotoKeepsCtr(c, false, taken, dest);
    }
    GotoKeepsCtr(m.cpu, i.lk, false, 0);
    if i.Bcctr? {
      ProgKeepsCtr(m);
    }
  }

  lemma GotoKeepsCtr(c: Cpu, lk: bool, taken: bool, dest: Word)
    ensures Goto(c, taken, dest).ctr == c.ctr && Link(c, lk).ctr == c.ctr
  {
    hide NextPc;
  }

  lemma ProgKeepsCtr(m: Machine)
    ensures RaiseProg(m, 0x8_0000).cpu.ctr == m.cpu.ctr
  {
    hide WordAligned, IP, ProgSrr1, InHandler;
  }

  lemma SystemKeepsCtr(env: Env, m: Machine, i: Inst)
    requires ConfigOk(m.arch.cfg) && InstOk(i) && !i.Integer? && !IsMemory(i) && !IsBranch(i) && KeepsCtr(i)
    ensures ExecSystem(env, m, i).m.cpu.ctr == m.cpu.ctr
  {
    hide ConfigOk, WordAligned, NextPc, ReadSpr, ArchStep, IR, DR, IP, Traps, ProgSrr1, InHandler, ToOp, OpOk, InstOk;
  }

  lemma MemoryKeepsCtr(env: Env, m: Machine, i: Inst, inst: Word)
    requires ConfigOk(m.arch.cfg) && InstOk(i) && IsMemory(i)
    ensures var c := ExecMemory(env, m, i, inst).m.cpu; c.ctr == m.cpu.ctr && c.tb == m.cpu.tb
  {
    hide ConfigOk, ExecLoad, ExecStore, ExecLwarx, ExecStwcx, Multiple, LoadMultiple, StoreMultiple, EaOf;
    match i
    case LoadZ(rt, ea, n, update) => LoadKeepsCtr(env, m, rt, ea, n, update, inst);
    case StoreZ(rs, ea, n, update) => StoreKeepsCtr(env, m, rs, ea, n, update, inst);
    case Lmw(rt, ra, d) =>
      var r := LoadMultiple(env, m, rt, EaOf(m.cpu, Disp(ra, d), false));
      MultipleKeepsCtr(r, true, inst);
    case Stmw(rs, ra, d) =>
      var r := StoreMultiple(env, m, rs, EaOf(m.cpu, Disp(ra, d), false));
      MultipleKeepsCtr(r, false, inst);
    case Lwarx(rt, ra, rb) => LwarxKeepsCtr(env, m, rt, ra, rb, inst);
    case Stwcx(rs, ra, rb) => StwcxKeepsCtr(env, m, rs, ra, rb, inst);
  }

  lemma LoadKeepsCtr(env: Env, m: Machine, rt: Reg, ea: Ea, n: nat, update: bool, inst: Word)
    requires ConfigOk(m.arch.cfg) && Sized124(n)
    ensures var c := ExecLoad(env, m, rt, ea, n, update, inst).m.cpu; c.ctr == m.cpu.ctr && c.tb == m.cpu.tb
  {
    hide ConfigOk, Load, EaOf, MemFault, NextPc;
    var addr := EaOf(m.cpu, ea, update);
    var (m', v) := Load(env, m, addr, n);
    if v.LoadFault? {
      FaultKeepsCtr(m', true, addr, v.fault, inst);
    }
  }

  lemma StoreKeepsCtr(env: Env, m: Machine, rs: Reg, ea: Ea, n: nat, update: bool, inst: Word)
    requires ConfigOk(m.arch.cfg) && Sized124(n)
    ensures var c := ExecStore(env, m, rs, ea, n, update, inst).m.cpu; c.ctr == m.cpu.ctr && c.tb == m.cpu.tb
  {
    hide ConfigOk, Store, EaOf, MemFault, NextPc;
    var addr := EaOf(m.cpu, ea, update);
    var (m', f) := Store(env, m, addr, n, m.cpu.gpr[rs]);
    if f.Some? {
      FaultKeepsCtr(m', false, addr, f.value, inst);
    }
  }

  lemma MultipleKeepsCtr(r: (Machine, Option<(Fault, Word)>), rnw: bool, inst: Word)
    ensures var c := Multiple(r, rnw, inst).m.cpu; c.ctr == r.0.cpu.ctr && c.tb == r.0.cpu.tb
  {
    hide MemFault, NextPc;
    if r.1.Some? {
      FaultKeepsCtr(r.0, rnw, r.1.value.1, r.1.value.0, inst);
    }
  }

  lemma LwarxKeepsCtr(env: Env, m: Machine, rt: Reg, ra: Reg, rb: Reg, inst: Word)
    requires ConfigOk(m.arch.cfg)
    ensures var c := ExecLwarx(env, m, rt, ra, rb, inst).m.cpu; c.ctr == m.cpu.ctr && c.tb == m.cpu.tb
  {
    hide ConfigOk, Load, EaOf, MemFault, NextPc;
    var addr := EaOf(m.cpu, Indexed(ra, rb), false);
    var (m', v) := Load(env, m, addr, 4);
    if v.LoadFault? {
      FaultKeepsCtr(m'.(resAddr := addr, resGen := m'.gen), true, addr, v.fault, inst);
    }
  }

  lemma StwcxKeepsCtr(env: Env, m: Machine, rs: Reg, ra: Reg, rb: Reg, inst: Word)
    requires ConfigOk(m.arch.cfg)
    ensures var c := ExecStwcx(env, m, rs, ra, rb, inst).m.cpu; c.ctr == m.cpu.ctr && c.tb == m.cpu.tb
  {
    hide ConfigOk, Store, EaOf, MemFault, NextPc;
    var addr := EaOf(m.cpu, Indexed(ra, rb), false);
    var (m', f) := Store(env, m, addr, 4, m.cpu.gpr[rs]);
    if f.Some? {
      FaultKeepsCtr(m', false, addr, f.value, inst);
    }
  }

  lemma FaultKeepsCtr(m: Machine, rnw: bool, addr: Word, fault: Fault, inst: Word)
    ensures var c := MemFault(m, rnw, addr, fault, inst).m.cpu; c.ctr == m.cpu.ctr && c.tb == m.cpu.tb
  {
    hide FaultDsisr, IsiSrr1, WordAligned, IP;
  }

  /** How many of the first `n` instructions are the loop's bdnz. */
  function Rounds(code: seq<Inst>, n: nat, bi: Reg, bd: int): nat
    requires n <= |code|
  {
    if n == 0 then 0 else Rounds(code, n - 1, bi, bd) + (if code[n - 1] == Bdnz(bi, bd) then 1 else 0)
  }

  /** A run in which CTR is written by one bdnz only, whatever else its body does: the bdnz branches back exactly as often as one
      less than CTR says at the start, 2^32 - 1 times if that is zero, and then falls through. */
  lemma {:induction false} LoopRounds(env: Env, ms: seq<Machine>, code: seq<Inst>, insts: seq<Word>, bi: Reg, bd: int, t: nat)
    requires Trace(env, ms, code, insts) && (forall j :: 0 <= j < |code| ==> code[j] == Bdnz(bi, bd) || KeepsCtr(code[j]))
    requires t < |code| && code[t] == Bdnz(bi, bd)
    ensures var times := if ms[0].cpu.ctr == 0 then WORD_LIMIT else ms[0].cpu.ctr;
      var round := Rounds(code, t, bi, bd) + 1;
      round <= times ==>
        ms[t + 1].cpu.pc == if round < times then Target(ms[t].cpu, bd, false) else NextPc(ms[t].cpu.pc)
  {
    hide ConfigOk, Exec, InstOk, Target, NextPc, Wrap, Rounds;
    var k := Rounds(code, t, bi, bd);
    CtrAfterRounds(env, ms, code, insts, bi, bd, t);
    BdnzStep(ms[t], bi, bd);
    BranchIs(env, ms[t], bi, bd, insts[t]);
    CountDownStep(ms[0].cpu.ctr, k + 1);
    LoopCount(ms[0].cpu.ctr, if k + 1 <= WORD_LIMIT then k + 1 else 1);
  }

  lemma BranchIs(env: Env, m: Machine, bi: Reg, bd: int, inst: Word)
    requires ConfigOk(m.arch.cfg) && InstOk(Bdnz(bi, bd))
    ensures Exec(env, m, Bdnz(bi, bd), inst) == ExecBranch(m, Bdnz(bi, bd))
  {
    hide ConfigOk, ExecBranch;
  }

  lemma CountDownStep(ctr: Word, n: nat)
    requires n > 0
    ensures CountDown(ctr, n) == CountDown(if n == 1 then ctr else CountDown(ctr, n - 1).0, 1)
  {
  }

  lemma {:induction false} CtrAfterRounds(env: Env, ms: seq<Machine>, code: seq<Inst>, insts: seq<Word>, bi: Reg, bd: int, t: nat)
    requires Trace(env, ms, code, insts) && (forall j :: 0 <= j < |code| ==> code[j] == Bdnz(bi, bd) || KeepsCtr(code[j]))
    requires t <= |code|
    ensures var k := Rounds(code, t, bi, bd); ms[t].cpu.ctr == if k == 0 then ms[0].cpu.ctr else CountDown(ms[0].cpu.ctr, k).0
  {
    hide ConfigOk, Exec, InstOk, Target, NextPc, Wrap;
    if t > 0 {
      CtrAfterRounds(env, ms, code, insts, bi, bd, t - 1);
      if code[t - 1] == Bdnz(bi, bd) {
        BdnzStep(ms[t - 1], bi, bd);
        BranchIs(env, ms[t - 1], bi, bd, insts[t - 1]);
        CountDownStep(ms[0].cpu.ctr, Rounds(code, t, bi, bd));
      } else {
        CtrKept(env, ms[t - 1], code[t - 1], insts[t - 1]);
      }
    }
  }

  /** cmp into field `bf`, then a bc on one of its bits: taken exactly when the signed comparison comes out so. Bit 0 of the
      field is LT, 1 is GT and 2 is EQ; with BO 4 the test is reversed. */
  lemma CompareThenBranch(m: Machine, bf: nat, ra: Reg, rb: Reg, bit: nat, bd: int, when: bool)
    requires bf < 8 && bit < 3
    ensures var c := RunAlu(m.cpu, Cmp(bf, ra, rb));
      var x, y := Signed(m.cpu.gpr[ra]), Signed(m.cpu.gpr[rb]);
      var holds := if bit == 0 then x < y else if bit == 1 then x > y else x == y;
      ExecBranch(WithCpu(m, c), Bc(if when then 12 else 4, 4 * bf + bit, bd, false, false)).m.cpu.pc
      == if holds == when then Target(c, bd, false) else NextPc(c.pc)
  {
    hide Signed, Target, NextPc, Wrap;
    var c := RunAlu(m.cpu, Cmp(bf, ra, rb));
    var x, y := Signed(m.cpu.gpr[ra]), Signed(m.cpu.gpr[rb]);
    FieldBits(x, y, m.cpu.so);
    assert (4 * bf + bit) / 4 == bf && (4 * bf + bit) % 4 == bit;
    assert c.cr[bf] == Compare(x, y, m.cpu.so);
  }

  lemma FieldBits(x: int, y: int, so: bool)
    ensures var f := Compare(x, y, so);
      (f / 8 % 2 == 1 <==> x < y) && (f / 4 % 2 == 1 <==> x > y) && (f / 2 % 2 == 1 <==> x == y)
  {
  }
}
