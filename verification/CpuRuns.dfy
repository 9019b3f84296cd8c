/** What every instruction, exception and delivery keeps, and what a return from interrupt restores
    (PPCCPUState.cc, PPCCPUState.h, PPCInterpreter_Branch.cc, PPCInterpreter_Special.cc, main.cc). */
module CpuRuns {
  import opened Words
  import opened MmuTypes
  import opened PageWalk
  import opened DirectTlb
  import opened DataPath
  import opened CpuTypes
  import opened Alu
  import opened Interp

  /** The PC is word aligned, and instructions are translated exactly when MSR.IR is set. */
  ghost predicate FetchConsistent(m: Machine) { m.cpu.pc % 4 == 0 && m.arch.ir == IR(m.cpu.msr) && ConfigOk(m.arch.cfg) }

  /** Data too, by MSR.DR. */
  ghost predicate Consistent(m: Machine) { FetchConsistent(m) && m.arch.dr == DR(m.cpu.msr) }

  lemma AlignedSums(pc: Word, d: int)
    requires pc % 4 == 0 && d % 4 == 0
    ensures Wrap(pc + d) % 4 == 0 && Wrap(d) % 4 == 0
  {
    WrapAligned(pc / 4 + d / 4);
    WrapAligned(d / 4);
  }

  lemma WrapAligned(k: int)
    ensures Wrap(4 * k) % 4 == 0
  {
    var x := 4 * k;
    var q := x / WORD_LIMIT;
    assert Wrap(x) == 4 * (k - q * 0x4000_0000);
  }

  lemma AlignedDown(a: Word)
    ensures WordAligned(a) % 4 == 0
  {
  }

  lemma HandlerConsistent(m: Machine)
    requires InHandler(m) && ConfigOk(m.arch.cfg)
    ensures Consistent(m) && !EE(m.cpu.msr)
  {
    hide ConfigOk;
  }

  /** The outcomes of an instruction that is not a branch and leaves MSR and MMU modes alone: the next word, or a handler. */
  predicate MovesOn(m: Machine, r: Result) {
    && (r.Next? ==> r.m.cpu.pc == NextPc(m.cpu.pc) && r.m.cpu.msr == m.cpu.msr && r.m.arch == m.arch.(mem := r.m.arch.mem))
    && (r.Raised? ==> InHandler(r.m) && r.m.arch.cfg == m.arch.cfg)
  }

  lemma MemoryMovesOn(env: Env, m: Machine, i: Inst, inst: Word)
    requires ConfigOk(m.arch.cfg) && InstOk(i) && IsMemory(i)
    ensures MovesOn(m, ExecMemory(env, m, i, inst))
  {
    hide ConfigOk, InstOk, ExecMemory, MovesOn;
    if i.LoadZ? {
      LoadMovesOn(env, m, i, inst);
    } else if i.StoreZ? {
      StoreMovesOn(env, m, i, inst);
    } else if i.Lwarx? {
      LwarxMovesOn(env, m, i, inst);
    } else if i.Stwcx? {
      StwcxMovesOn(env, m, i, inst);
    } else {
      MultipleMovesOn(env, m, i, inst);
    }
  }

  lemma LoadMovesOn(env: Env, m: Machine, i: Inst, inst: Word)
    requires ConfigOk(m.arch.cfg) && InstOk(i) && i.LoadZ?
    ensures IsMemory(i) && MovesOn(m, ExecMemory(env, m, i, inst))
  {
    hide ConfigOk, Load, EaOf, RaiseMem, MemFault, InHandler, NextPc;
  }

  lemma StoreMovesOn(env: Env, m: Machine, i: Inst, inst: Word)
    requires ConfigOk(m.arch.cfg) && InstOk(i) && i.StoreZ?
    ensures IsMemory(i) && MovesOn(m, ExecMemory(env, m, i, inst))
  {
    hide ConfigOk, Store, EaOf, RaiseMem, MemFault, InHandler, NextPc;
  }

  lemma MultipleMovesOn(env: Env, m: Machine, i: Inst, inst: Word)
    requires ConfigOk(m.arch.cfg) && InstOk(i) && (i.Lmw? || i.Stmw?)
    ensures IsMemory(i) && MovesOn(m, ExecMemory(env, m, i, inst))
  {
    hide ConfigOk, StoreMultiple, LoadMultiple, EaOf, RaiseMem, MemFault, InHandler, NextPc;
  }

  lemma LwarxMovesOn(env: Env, m: Machine, i: Inst, inst: Word)
    requires ConfigOk(m.arch.cfg) && InstOk(i) && i.Lwarx?
    ensures IsMemory(i) && MovesOn(m, ExecMemory(env, m, i, inst))
  {
    hide ConfigOk, Load, EaOf, RaiseMem, MemFault, InHandler, NextPc;
  }

  lemma StwcxMovesOn(env: Env, m: Machine, i: Inst, inst: Word)
    requires ConfigOk(m.arch.cfg) && InstOk(i) && i.Stwcx?
    ensures IsMemory(i) && MovesOn(m, ExecMemory(env, m, i, inst))
  {
    hide ConfigOk, Store, EaOf, RaiseMem, MemFault, InHandler, NextPc;
  }

  lemma BranchKeeps(m: Machine, i: Inst)
    requires InstOk(i) && IsBranch(i) && m.cpu.pc % 4 == 0
    ensures var r := ExecBranch(m, i);
      && (r.Next? ==> r.m.cpu.pc % 4 == 0 && r.m.cpu.msr == m.cpu.msr && r.m.arch == m.arch)
      && (r.Raised? ==> InHandler(r.m) && r.m.arch.cfg == m.arch.cfg)
  {
    hide Condition, RaiseProg, InHandler, BranchOn, Target, WordAligned, Goto, Link;
    var c := m.cpu;
    match i
    case B(li, aa, lk) =>
      TargetAligned(c, li, aa);
      GotoAligned(c, lk, c.ctr, true, Target(c, li, aa));
    case Bc(bo, bi, bd, aa, lk) =>
      TargetAligned(c, bd, aa);
      GotoAligned(c, lk, BranchOn(c, bo, bi).0, BranchOn(c, bo, bi).1, Target(c, bd, aa));
    case Bclr(bo, bi, lk) =>
      AlignedDown(c.lr);
      GotoAligned(c, lk, BranchOn(c, bo, bi).0, BranchOn(c, bo, bi).1, WordAligned(c.lr));
    case Bcctr(bo, bi, lk) =>
      AlignedDown(c.ctr);
      GotoAligned(c, lk, c.ctr, Condition(c, bo, bi), WordAligned(c.ctr));
  }

  lemma TargetAligned(c: Cpu, offset: int, aa: bool)
    requires c.pc % 4 == 0 && offset % 4 == 0
    ensures Target(c, offset, aa) % 4 == 0
  {
    AlignedSums(c.pc, offset);
  }

  lemma GotoAligned(c: Cpu, lk: bool, ctr: Word, taken: bool, dest: Word)
    requires c.pc % 4 == 0 && dest % 4 == 0
    ensures var d := Goto(Link(c, lk).(ctr := ctr), taken, dest); d.pc % 4 == 0 && d.msr == c.msr
    ensures Link(c, lk).msr == c.msr && Link(c, lk).(ctr := c.ctr) == Link(c, lk)
  {
    AlignedSums(c.pc, 4);
  }

  lemma MmuWriteKeeps(env: Env, m: Machine, reg: MmuReg, v: Word)
    requires ConfigOk(m.arch.cfg) && OpOk(ToOp(reg, 0))
    ensures var a := ArchStep(env.devs, m.arch, ToOp(reg, v)).0; ConfigOk(a.cfg) && a == m.arch.(cfg := a.cfg)
  {
    hide ConfigOk, BatWithUpper, BatWithLower, SegOf, HtabBase, HtabMask;
    ConfigStep(env.devs, m.arch, ToOp(reg, v));
  }

  /** An instruction that need not end a block raises an exception, or moves the PC on by one word and leaves the MSR and
      the translation modes alone; only a write to an MMU register changes the configuration. */
  lemma RunsOn(env: Env, m: Machine, i: Inst, inst: Word)
    requires ConfigOk(m.arch.cfg) && InstOk(i) && !Ends(i)
    ensures var r := Exec(env, m, i, inst);
      if i.MtMmu? then r.Next? && MovesOn(m, Next(r.m.(arch := r.m.arch.(cfg := m.arch.cfg)))) else MovesOn(m, r)
  {
    hide ConfigOk, ExecMemory, RunAlu, RaiseProg, TakeException, Traps, InHandler, NextPc, ArchStep, ReadSpr;
    if i.Integer? {
      AluKeeps(m.cpu, i.op);
    } else if IsMemory(i) {
      MemoryMovesOn(env, m, i, inst);
    } else if i.MtMmu? {
      MmuWriteKeeps(env, m, i.reg, m.cpu.gpr[i.rs]);
    }
  }

  /** Which of the modelled instructions end blocks: branches, sc, rfi, mtmsr, TLB invalidations and what is not decoded. Traps,
      loads, stores and moves to and from special registers do not, although they may raise exceptions or change the MMU. */
  lemma EndersAre(i: Inst)
    ensures match i
      case Sc => Ends(i)
      case Rfi => Ends(i)
      case B(_, _, _) => Ends(i)
      case Bc(_, _, _, _, _) => Ends(i)
      case Bclr(_, _, _) => Ends(i)
      case Bcctr(_, _, _) => Ends(i)
      case Mtmsr(_) => Ends(i)
      case TlbInvalidate => Ends(i)
      case Unknown => Ends(i)
      case _ => !Ends(i)
  {
  }

  lemma SprKeepsPc(c: Cpu)
    ensures forall spr, v :: WriteSpr(c, spr, v).pc == c.pc && WriteSpr(c, spr, v).msr == c.msr
  {
  }

  lemma SystemKeeps(env: Env, m: Machine, i: Inst)
    requires FetchConsistent(m) && InstOk(i) && !i.Integer? && !IsMemory(i) && !IsBranch(i)
    ensures var s := ExecSystem(env, m, i).m; FetchConsistent(s) && (Consistent(m) ==> Consistent(s))
  {
    hide ConfigOk, RaiseProg, TakeException, Traps, ArchStep, ReadSpr, IR, DR, InHandler, Wrap, WordAligned, WriteSpr,
         ToOp, OpOk;
    SprKeepsPc(m.cpu);
    AlignedSums(m.cpu.pc, 4);
    AlignedDown(m.cpu.srr0);
    var r := ExecSystem(env, m, i);
    if i.MtMmu? {
      MmuWriteKeeps(env, m, i.reg, m.cpu.gpr[i.rs]);
    } else if r.Raised? {
      assert InHandler(r.m) && r.m.arch.cfg == m.arch.cfg;
      HandlerConsistent(r.m);
    }
  }

  /** Every instruction keeps the PC aligned and each of the MMU's enables equal to its MSR bit, with or without the other. */
  lemma ExecKeeps(env: Env, m: Machine, i: Inst, inst: Word)
    requires FetchConsistent(m) && InstOk(i)
    ensures var s := Exec(env, m, i, inst).m; FetchConsistent(s) && (Consistent(m) ==> Consistent(s))
  {
    hide ConfigOk, ExecMemory, ExecBranch, ExecSystem, RunAlu, IR, DR;
    var r := Exec(env, m, i, inst);
    AlignedSums(m.cpu.pc, 4);
    if i.Integer? {
      AluKeeps(m.cpu, i.op);
    } else if IsMemory(i) {
      MemoryMovesOn(env, m, i, inst);
      if r.Raised? {
        HandlerConsistent(r.m);
      }
    } else if IsBranch(i) {
      BranchKeeps(m, i);
      if r.Raised? {
        HandlerConsistent(r.m);
      }
    } else {
      SystemKeeps(env, m, i);
    }
  }

  lemma {:induction false} FetchKeeps(env: Env, m: Machine)
    requires FetchConsistent(m)
    ensures var s := FetchLoop(env, m).0; FetchConsistent(s) && (Consistent(m) ==> Consistent(s))
    decreases m.arch.ir
  {
    hide ConfigOk, Fetch32, RaiseMem, InHandler, IR, DR;
    var (m', v) := Fetch32(env, m);
    if v.LoadFault? {
      var e := RaiseMem(m', true, true, m.cpu.pc, v.fault, 0);
      assert InHandler(e);
      HandlerConsistent(e);
      HandlerReal(e);
      FetchKeeps(env, e);
    }
  }

  lemma HandlerReal(m: Machine)
    requires InHandler(m)
    ensures !m.arch.ir
  {
  }

  // ---------------------------------------------------------------- Whole runs

  /** What happens to a machine from outside or inside: a turn of the main loop, or a change of the interrupt line. */
  datatype Event = RunTurn | IrqLine(on: bool)

  function Play(env: Env, m: Machine, decode: Word -> Inst, events: seq<Event>): (r: Machine)
    requires ConfigOk(m.arch.cfg) && DecodeOk(decode)
    ensures ConfigOk(r.arch.cfg)
  {
    if events == [] then m
    else
      var before := Play(env, m, decode, events[..|events| - 1]);
      match events[|events| - 1]
      case RunTurn => Turn(env, before, decode)
      case IrqLine(on) => WithCpu(before, before.cpu.(irq := on))
  }

  lemma StepKeeps(env: Env, m: Machine, decode: Word -> Inst)
    requires FetchConsistent(m) && DecodeOk(decode)
    ensures var s := Step(env, m, decode); FetchConsistent(s) && (Consistent(m) ==> Consistent(s))
  {
    hide ConfigOk, IR, DR, Exec, FetchLoop, InstOk;
    FetchKeeps(env, m);
    var (m', w) := FetchLoop(env, m);
    ExecKeeps(env, m', decode(w), w);
  }

  /** Asynchronous exceptions are taken only with MSR.EE set, and entry clears it. */
  lemma DeliverKeeps(m: Machine)
    requires FetchConsistent(m)
    ensures FetchConsistent(Deliver(m)) && (Consistent(m) ==> Consistent(Deliver(m)))
    ensures Deliver(m) != m ==> EE(m.cpu.msr) && !EE(Deliver(m).cpu.msr)
    ensures Deliver(m) == m <==> !IrqPending(m.cpu) && !DecPending(m.cpu)
  {
    hide ConfigOk, TakeException, IR, DR;
    var d := Deliver(m);
    if IrqPending(m.cpu) || DecPending(m.cpu) {
      assert InHandler(d);
      HandlerConsistent(d);
    }
  }

  lemma TickKeeps(m: Machine, t: nat)
    requires FetchConsistent(m)
    ensures var s := WithCpu(m, Tick(m.cpu, t)); FetchConsistent(s) && (Consistent(m) ==> Consistent(s))
  {
    hide ConfigOk, IR, DR;
  }

  /** Over every run from a consistent state, reset included: the PC stays word aligned and the MMU's enables equal
      MSR.IR and MSR.DR. */
  lemma {:induction false} PlayKeeps(env: Env, m: Machine, decode: Word -> Inst, events: seq<Event>)
    requires FetchConsistent(m) && DecodeOk(decode)
    ensures var s := Play(env, m, decode, events); FetchConsistent(s) && (Consistent(m) ==> Consistent(s))
  {
    hide ConfigOk, IR, DR, Step, Deliver, Tick, InstOk;
    if events != [] {
      var early := events[..|events| - 1];
      PlayKeeps(env, m, decode, early);
      var before := Play(env, m, decode, early);
      if events[|events| - 1].RunTurn? {
        StepKeeps(env, before, decode);
        var s := Step(env, before, decode);
        TickKeeps(s, 1);
        DeliverKeeps(WithCpu(s, Tick(s.cpu, 1)));
      }
    }
  }

  lemma ResetConsistent(c: Cpu, a: Arch, d: Data)
    requires c.pc == 0 && c.msr == 0 && !a.ir && !a.dr && ConfigOk(a.cfg)
    ensures Consistent(Machine(c, a, d, 0, 0, 0, false))
  {
    hide ConfigOk;
  }

  /** The machine that starts: main gives the CPU a PC and an MSR before there is an MMU, which then starts with translation
      off whatever MSR says. */
  function StartMachine(pc: Word, msr: Word, mem: Mem, data: Data): Machine {
    Machine(ResetCpu().(pc := pc, msr := msr), Arch(ResetConfig(), false, false, mem), data, 0, 0, 0, false)
  }

  /** So the modes agree from the start exactly when the configured PC is aligned and the configured MSR asks for no translation;
      and for instructions exactly when it asks for none of those. */
  lemma StartConsistentIff(pc: Word, msr: Word, mem: Mem, data: Data)
    ensures FetchConsistent(StartMachine(pc, msr, mem, data)) <==> pc % 4 == 0 && !IR(msr)
    ensures Consistent(StartMachine(pc, msr, mem, data)) <==> pc % 4 == 0 && !IR(msr) && !DR(msr)
  {
    hide ConfigOk;
  }

  /** A start MSR of 0x30 asks for translation, and gets none. */
  lemma MappedStartDisagrees(mem: Mem, data: Data)
    ensures var m := StartMachine(0, 0x30, mem, data);
      IR(m.cpu.msr) && DR(m.cpu.msr) && !m.arch.ir && !m.arch.dr && !Consistent(m)
  {
  }

  // ---------------------------------------------------------------- Return from interrupt

  /** rfi restores the PC, the MSR and the translation modes that an asynchronous exception interrupted, from any state
      of the handler that still has SRR0 and SRR1. */
  lemma RfiAfterDeliver(env: Env, m: Machine, h: Machine)
    requires Consistent(m) && Deliver(m) != m && ConfigOk(h.arch.cfg)
    requires h.cpu.srr0 == Deliver(m).cpu.srr0 && h.cpu.srr1 == Deliver(m).cpu.srr1
    ensures var r := Exec(env, h, Rfi, 0).m;
      r.cpu.pc == m.cpu.pc && r.cpu.msr == m.cpu.msr && r.arch.ir == m.arch.ir && r.arch.dr == m.arch.dr
  {
    hide ConfigOk, IR, DR, EE;
  }

  /** The same for a system call, which returns to the next instruction. */
  lemma RfiAfterSc(env: Env, m: Machine, h: Machine)
    requires Consistent(m) && ConfigOk(h.arch.cfg)
    requires h.cpu.srr0 == Exec(env, m, Sc, 0).m.cpu.srr0 && h.cpu.srr1 == Exec(env, m, Sc, 0).m.cpu.srr1
    ensures var r := Exec(env, h, Rfi, 0).m;
      r.cpu.pc == NextPc(m.cpu.pc) && r.cpu.msr == m.cpu.msr && r.arch.ir == m.arch.ir && r.arch.dr == m.arch.dr
  {
    hide ConfigOk, IR, DR, EE;
    AlignedSums(m.cpu.pc, 4);
  }

  // ---------------------------------------------------------------- Time base and decrementer

  /** What the guest reads of TB, plus DEC, on 32 bits. */
  function TbPlusDec(c: Cpu): Word { Wrap(c.tb / 4 + c.dec) }

  /** A tick of `t` instructions conserves TB + DEC exactly when the quarters it passes are as many as the one decrement
      it may make. */
  lemma ConservedIff(c: Cpu, t: nat)
    requires c.tb < TB_LIMIT
    ensures TbPlusDec(Tick(c, t)) == TbPlusDec(c)
       <==> Wrap((c.tb + t) / 4 - c.tb / 4) == (if (c.tb + t) % 4 == 0 then 1 else 0)
  {
    hide Wrap;
    var s := c.tb + t;
    var k := s / TB_LIMIT;
    QuarterOfWrapped(s, k);
    BorrowOnce(c.dec);
    var e := if s % 4 == 0 then 1 else 0;
    var d := if e == 1 && c.dec == 0 then WORD_LIMIT else 0;
    SameWrap(s / 4 - k * 0x4000_0000_0000_0000 + c.dec - e + d, c.tb / 4 + c.dec,
             k * 0x4000_0000, d / WORD_LIMIT, s / 4 - c.tb / 4, e);
  }

  /** A block of eight instructions from TB zero passes two quarters and decrements DEC once: the sum goes up by one. */
  lemma TickOfEightDrifts(c: Cpu)
    requires c.tb == 0
    ensures TbPlusDec(Tick(c, 8)) == Wrap(TbPlusDec(c) + 1) && TbPlusDec(Tick(c, 8)) != TbPlusDec(c)
  {
    assert Tick(c, 8).tb == 8;
  }

  lemma QuarterOfWrapped(s: nat, k: nat)
    requires k == s / TB_LIMIT
    ensures s % TB_LIMIT / 4 == s / 4 - k * 0x4000_0000_0000_0000 && s % TB_LIMIT % 4 == s % 4
  {
    assert s % TB_LIMIT == s - k * TB_LIMIT;
  }

  lemma BorrowOnce(dec: Word)
    ensures Wrap(dec - 1) == if dec == 0 then WORD_LIMIT - 1 else dec - 1
  {
  }

  lemma SameWrap(x: int, y: int, k: int, j: int, quarters: int, e: int)
    requires 0 <= e <= 1 && x == y + quarters - e - k * WORD_LIMIT + j * WORD_LIMIT
    ensures Wrap(x) == Wrap(y) <==> Wrap(quarters) == e
  {
    var z := quarters - e;
    WrapShift(y + z, j - k);
    WrapShift(0, 0);
    var q := z / WORD_LIMIT;
    WrapShift(y + Wrap(z), q);
    assert z == q * WORD_LIMIT + Wrap(z);
    WrapShift(Wrap(z) + e, q);
  }

  lemma WrapShift(x: int, k: int)
    ensures Wrap(x + k * WORD_LIMIT) == Wrap(x)
  {
  }

  /** The interpreter's single ticks conserve it. */
  lemma SingleTicksConserve(c: Cpu)
    requires c.tb < TB_LIMIT
    ensures TbPlusDec(Tick(c, 1)) == TbPlusDec(c)
  {
    ConservedIff(c, 1);
    hide Tick;
    var q := c.tb / 4;
    assert c.tb == 4 * q + c.tb % 4;
    assert (c.tb + 1) / 4 == if c.tb % 4 == 3 then q + 1 else q;
  }
}
