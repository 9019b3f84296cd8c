/** The interpreter as the simulator runs it, on the MMU with its uTLBs: instruction functions that update the CPU, the MMU
    and the reservation in place (PPCInterpreter.h, PPCInterpreter_*.cc, main.cc). Each is proved to do what the machine
    that walks from scratch does. */
module Interpreter {
  import opened Words
  import opened MmuTypes
  import opened PageWalk
  import opened BusMap
  import opened DirectTlb
  import opened DataPath
  import opened CpuTypes
  import opened Alu
  import opened Interp
  import opened Mmu
  import opened CpuState

  class PpcInterpreter {
    const env: Env
    const cpus: PpcCpuState
    const mmu: PpcMmu
    var inst: Word
    var excGenerationCount: nat
    var reservationAddress: Word
    var reservationGencount: nat
    var wantBreak: bool

    ghost predicate Valid()
      reads mmu, mmu.ibat, mmu.dbat, mmu.segreg, mmu.pi, mmu.pd, mmu.ui, mmu.ud
    {
      mmu.Valid() && env.devs == mmu.devs
    }

    /** The machine of the specification. */
    ghost function View(): Machine
      reads this, cpus, mmu, mmu.ibat, mmu.dbat, mmu.segreg, mmu.pi, mmu.pd, mmu.ui, mmu.ud
    {
      Machine(cpus.regs, mmu.Now().arch, mmu.data, excGenerationCount, reservationAddress, reservationGencount, wantBreak)
    }

    /** The state is that of `r`, and `raised` says whether it is an exception entry: in the JIT's build, whether control has
        jumped out of the block. */
    ghost predicate Did(r: Result, raised: bool)
      reads this, cpus, mmu, mmu.ibat, mmu.dbat, mmu.segreg, mmu.pi, mmu.pd, mmu.ui, mmu.ud
    {
      View() == r.m && raised == r.Raised?
    }

    lemma Configured()
      requires Valid()
      ensures ConfigOk(View().arch.cfg)
    {
    }

    constructor (e: Env, c: PpcCpuState, m: PpcMmu)
      requires m.Valid() && e.devs == m.devs
      ensures Valid() && env == e && cpus == c && mmu == m
      ensures inst == 0 && excGenerationCount == 0 && reservationAddress == 0 && reservationGencount == 0 && !wantBreak
    {
      env, cpus, mmu := e, c, m;
      inst, excGenerationCount, reservationAddress, reservationGencount, wantBreak := 0, 0, 0, 0, false;
    }

    // -------------------------------------------------------------- Memory helpers

    /** LOAD8, LOAD16 and LOAD32. */
    method LoadMem(addr: Word, n: nat) returns (fault: Option<Fault>, v: Word)
      requires Valid() && Sized124(n)
      modifies mmu`mem, mmu.pi, mmu.pd, mmu.ui, mmu.ud
      ensures Valid()
      ensures Load(env, old(View()), addr, n) == (View(), if fault.Some? then LoadFault(fault.value) else LoadOk(v))
    {
      hide WellPlaced, Coherent, ScratchTranslate, LoadVia, BusRead, ConfigOk, Truncate;
      var val;
      fault, val := mmu.Load(addr, n, !PR(cpus.regs.msr), DeviceFn(env, mmu.data));
      v := Truncate(val, n);
    }

    /** STORE8, STORE16 and STORE32. */
    method StoreMem(addr: Word, n: nat, v: Word) returns (fault: Option<Fault>)
      requires Valid() && Sized124(n)
      modifies mmu`mem, mmu`data, mmu.pi, mmu.pd, mmu.ui, mmu.ud
      ensures Valid()
      ensures Store(env, old(View()), addr, n, v) == (View(), fault)
    {
      hide WellPlaced, Coherent, ScratchTranslate, StoreVia, BusWrite, ConfigOk, Truncate;
      fault := mmu.Store(addr, n, Truncate(v, n), !PR(cpus.regs.msr));
    }

    /** The exception half of MFCHECK. */
    method MemFaultTaken(rnw: bool, addr: Word, fault: Fault)
      requires Valid()
      modifies cpus`regs, mmu`enabledI, mmu`enabledD
      ensures Valid() && View() == MemFault(old(View()), rnw, addr, fault, inst).m
    {
      hide WellPlaced, Coherent, MemFaultRegs;
      cpus.RaiseMemException(mmu, rnw, false, addr, fault, inst);
    }

    // -------------------------------------------------------------- Loads and stores

    method OpLoad(rt: Reg, ea: Ea, n: nat, update: bool) returns (raised: bool)
      requires Valid() && Sized124(n)
      modifies cpus`regs, mmu`mem, mmu`enabledI, mmu`enabledD, mmu.pi, mmu.pd, mmu.ui, mmu.ud
      ensures Valid() && Did(ExecLoad(env, old(View()), rt, ea, n, update, inst), raised)
    {
      hide WellPlaced, Coherent, Load, EaOf, MemFault, NextPc, ConfigOk;
      var addr := EaOf(cpus.regs, ea, update);
      var f, v := LoadMem(addr, n);
      if f.Some? {
        MemFaultTaken(true, addr, f.value);
        return true;
      }
      cpus.regs := SetGpr(cpus.regs, rt, v);
      if update {
        cpus.regs := SetGpr(cpus.regs, ea.ra, addr);
      }
      cpus.regs := IncPc(cpus.regs);
      raised := false;
    }

    method OpStore(rs: Reg, ea: Ea, n: nat, update: bool) returns (raised: bool)
      requires Valid() && Sized124(n)
      modifies cpus`regs, mmu`mem, mmu`data, mmu`enabledI, mmu`enabledD, mmu.pi, mmu.pd, mmu.ui, mmu.ud
      ensures Valid() && Did(ExecStore(env, old(View()), rs, ea, n, update, inst), raised)
    {
      hide WellPlaced, Coherent, Store, EaOf, MemFault, NextPc, ConfigOk;
      var addr := EaOf(cpus.regs, ea, update);
      var f := StoreMem(addr, n, cpus.regs.gpr[rs]);
      if f.Some? {
        MemFaultTaken(false, addr, f.value);
        return true;
      }
      if update {
        cpus.regs := SetGpr(cpus.regs, ea.ra, addr);
      }
      cpus.regs := IncPc(cpus.regs);
      raised := false;
    }

    /** The loop of op_lmw: registers `rt` to 31 from `start` on, up to a fault. */
    method LoadRegisters(rt: Reg, start: Word) returns (fault: Option<(Fault, Word)>)
      requires Valid()
      modifies cpus`regs, mmu`mem, mmu.pi, mmu.pd, mmu.ui, mmu.ud
      ensures Valid() && LoadMultiple(env, old(View()), rt, start) == (View(), fault)
    {
      assert ConfigOk(mmu.Now().arch.cfg);
      hide WellPlaced, Coherent, Load, ConfigOk;
      ghost var whole := LoadMultiple(env, View(), rt, start);
      var n: nat, base: Word := rt, start;
      while n < 32
        invariant Valid() && ConfigOk(mmu.Now().arch.cfg) && n <= 32
        invariant LoadMultiple(env, View(), n, base) == whole
      {
        var f, v := LoadMem(base, 4);
        if f.Some? {
          return Some((f.value, base));
        }
        cpus.regs := SetGpr(cpus.regs, n, v);
        n, base := n + 1, Wrap(base + 4);
      }
      fault := None;
    }

    method OpLmw(rt: Reg, ra: Reg, d: int) returns (raised: bool)
      requires Valid()
      modifies cpus`regs, mmu`mem, mmu`enabledI, mmu`enabledD, mmu.pi, mmu.pd, mmu.ui, mmu.ud
      ensures Valid() && Did(Exec(env, old(View()), Lmw(rt, ra, d), inst), raised)
    {
      assert ConfigOk(mmu.Now().arch.cfg);
      hide WellPlaced, Coherent, LoadMultiple, EaOf, MemFault, NextPc, ConfigOk;
      var f := LoadRegisters(rt, EaOf(cpus.regs, Disp(ra, d), false));
      if f.Some? {
        MemFaultTaken(true, f.value.1, f.value.0);
        return true;
      }
      cpus.regs := IncPc(cpus.regs);
      raised := false;
    }

    /** The loop of op_stmw. */
    method StoreRegisters(rs: Reg, start: Word) returns (fault: Option<(Fault, Word)>)
      requires Valid()
      modifies mmu`mem, mmu`data, mmu.pi, mmu.pd, mmu.ui, mmu.ud
      ensures Valid() && StoreMultiple(env, old(View()), rs, start) == (View(), fault)
    {
      assert ConfigOk(mmu.Now().arch.cfg);
      hide WellPlaced, Coherent, Store, ConfigOk;
      ghost var whole := StoreMultiple(env, View(), rs, start);
      var n: nat, base: Word := rs, start;
      while n < 32
        invariant Valid() && ConfigOk(mmu.Now().arch.cfg) && n <= 32
        invariant StoreMultiple(env, View(), n, base) == whole
      {
        var f := StoreMem(base, 4, cpus.regs.gpr[n]);
        if f.Some? {
          return Some((f.value, base));
        }
        n, base := n + 1, Wrap(base + 4);
      }
      fault := None;
    }

    method OpStmw(rs: Reg, ra: Reg, d: int) returns (raised: bool)
      requires Valid()
      modifies cpus`regs, mmu`mem, mmu`data, mmu`enabledI, mmu`enabledD, mmu.pi, mmu.pd, mmu.ui, mmu.ud
      ensures Valid() && Did(Exec(env, old(View()), Stmw(rs, ra, d), inst), raised)
    {
      assert ConfigOk(mmu.Now().arch.cfg);
      hide WellPlaced, Coherent, StoreMultiple, EaOf, MemFault, NextPc, ConfigOk;
      var f := StoreRegisters(rs, EaOf(cpus.regs, Disp(ra, d), false));
      if f.Some? {
        MemFaultTaken(false, f.value.1, f.value.0);
        return true;
      }
      cpus.regs := IncPc(cpus.regs);
      raised := false;
    }

    // -------------------------------------------------------------- Reservations

    method BlowReservation()
      modifies this`excGenerationCount
      ensures excGenerationCount == old(excGenerationCount) + 1
    {
      excGenerationCount := excGenerationCount + 1;
    }

    method OpLwarx(rt: Reg, ra: Reg, rb: Reg) returns (raised: bool)
      requires Valid()
      modifies this`reservationAddress, this`reservationGencount
      modifies cpus`regs, mmu`mem, mmu`enabledI, mmu`enabledD, mmu.pi, mmu.pd, mmu.ui, mmu.ud
      ensures Valid() && Did(ExecLwarx(env, old(View()), rt, ra, rb, inst), raised)
    {
      hide WellPlaced, Coherent, Load, EaOf, MemFault, NextPc, ConfigOk;
      var addr := EaOf(cpus.regs, Indexed(ra, rb), false);
      var f, v := LoadMem(addr, 4);
      reservationAddress := addr;
      reservationGencount := excGenerationCount;
      if f.Some? {
        MemFaultTaken(true, addr, f.value);
        return true;
      }
      cpus.regs := IncPc(SetGpr(cpus.regs, rt, v));
      raised := false;
    }

    method OpStwcx(rs: Reg, ra: Reg, rb: Reg) returns (raised: bool)
      requires Valid()
      modifies this`excGenerationCount
      modifies cpus`regs, mmu`mem, mmu`data, mmu`enabledI, mmu`enabledD, mmu.pi, mmu.pd, mmu.ui, mmu.ud
      ensures Valid() && Did(ExecStwcx(env, old(View()), rs, ra, rb, inst), raised)
    {
      hide WellPlaced, Coherent, Store, EaOf, MemFault, NextPc, ConfigOk;
      var addr := EaOf(cpus.regs, Indexed(ra, rb), false);
      var cr0 := if cpus.regs.so then 1 else 0;
      if addr == reservationAddress && reservationGencount == excGenerationCount {
        var f := StoreMem(addr, 4, cpus.regs.gpr[rs]);
        if f.Some? {
          MemFaultTaken(false, addr, f.value);
          return true;
        }
        cr0 := cr0 + 2;
      }
      BlowReservation();
      cpus.regs := IncPc(SetCrField(cpus.regs, 0, cr0));
      raised := false;
    }

    // -------------------------------------------------------------- Branches

    method OpB(li: int, aa: bool, lk: bool) returns (raised: bool)
      modifies this`wantBreak, cpus`regs
      ensures Did(ExecBranch(old(View()), B(li, aa, lk)), raised)
    {
      hide Wrap;
      var pc := cpus.regs.pc;
      var dest := Target(cpus.regs, li, aa);
      if dest == pc {
        wantBreak := true;
      }
      if lk {
        cpus.regs := cpus.regs.(lr := NextPc(pc));
      }
      cpus.regs := cpus.regs.(pc := dest);
      raised := false;
    }

    /** The CTR half of bc and bclr: decrements it unless told not to, and says whether to branch. */
    method CountAndTest(bo: nat, bi: Reg) returns (branch: bool)
      modifies cpus`regs
      ensures (cpus.regs.ctr, branch) == BranchOn(old(cpus.regs), bo, bi) && cpus.regs == old(cpus.regs).(ctr := cpus.regs.ctr)
    {
      hide Wrap, CrBit;
      branch := bo / 0x10 % 2 == 1 || CrBit(cpus.regs, bi) == (bo / 8 % 2 == 1);
      if bo / 4 % 2 == 0 {
        cpus.regs := cpus.regs.(ctr := Wrap(cpus.regs.ctr - 1));
        branch := branch && (cpus.regs.ctr == 0) == (bo / 2 % 2 == 1);
      }
    }

    method OpBc(bo: nat, bi: Reg, bd: int, aa: bool, lk: bool) returns (raised: bool)
      modifies cpus`regs
      ensures Did(ExecBranch(old(View()), Bc(bo, bi, bd, aa, lk)), raised)
    {
      hide Wrap, BranchOn;
      var pc := cpus.regs.pc;
      var branch := CountAndTest(bo, bi);
      var dest := Target(cpus.regs, bd, aa);
      if lk {
        cpus.regs := cpus.regs.(lr := NextPc(pc));
      }
      cpus.regs := Goto(cpus.regs, branch, dest);
      raised := false;
    }

    method OpBclr(bo: nat, bi: Reg, lk: bool) returns (raised: bool)
      modifies cpus`regs
      ensures Did(ExecBranch(old(View()), Bclr(bo, bi, lk)), raised)
    {
      hide Wrap, BranchOn, WordAligned;
      var pc := cpus.regs.pc;
      var branch := CountAndTest(bo, bi);
      var dest := WordAligned(cpus.regs.lr);
      if lk {
        cpus.regs := cpus.regs.(lr := NextPc(pc));
      }
      cpus.regs := Goto(cpus.regs, branch, dest);
      raised := false;
    }

    method OpBcctr(bo: nat, bi: Reg, lk: bool) returns (raised: bool)
      requires Valid()
      modifies cpus`regs, mmu`enabledI, mmu`enabledD
      ensures Valid() && Did(ExecBranch(old(View()), Bcctr(bo, bi, lk)), raised)
    {
      hide Wrap, WordAligned, WellPlaced, Coherent, EntryRegs, ProgSrr1, CrBit;
      if bo / 4 % 2 == 0 {
        cpus.RaiseProgException(mmu, 0x8_0000);
        return true;
      }
      var branch := bo / 0x10 % 2 == 1 || CrBit(cpus.regs, bi) == (bo / 8 % 2 == 1);
      if lk {
        cpus.regs := cpus.regs.(lr := NextPc(cpus.regs.pc));
      }
      cpus.regs := Goto(cpus.regs, branch, WordAligned(cpus.regs.ctr));
      raised := false;
    }

    // -------------------------------------------------------------- System instructions

    method WriteMsr(v: Word)
      requires Valid()
      modifies cpus`regs, mmu`enabledI, mmu`enabledD
      ensures Valid() && View() == Interp.WriteMsr(old(View()), v)
    {
      hide WellPlaced, Coherent, IR, DR;
      cpus.regs := cpus.regs.(msr := v);
      mmu.SetIrDr(IR(v), DR(v));
    }

    method OpRfi() returns (raised: bool)
      requires Valid()
      modifies this`excGenerationCount, cpus`regs, mmu`enabledI, mmu`enabledD
      ensures Valid() && Did(ExecSystem(env, old(View()), Rfi), raised)
    {
      hide WellPlaced, Coherent, ConfigOk, WordAligned, IR, DR;
      var newPc, msr := WordAligned(cpus.regs.srr0), cpus.regs.srr1;
      BlowReservation();
      cpus.regs := cpus.regs.(pc := newPc);
      WriteMsr(msr);
      raised := false;
    }

    /** mtspr to a BAT register. */
    method WriteBat(reg: MmuReg, v: Word)
      requires Valid() && OpOk(ToOp(reg, 0)) && !reg.SegReg? && !reg.Sdr1?
      modifies mmu`generationCount, mmu.ibat, mmu.dbat, mmu.pi, mmu.pd, mmu.ui, mmu.ud
      ensures Valid() && mmu.Now().arch == ArchStep(mmu.devs, old(mmu.Now().arch), ToOp(reg, v)).0
      ensures mmu.generationCount == old(mmu.generationCount) + 1
    {
      hide WellPlaced, Coherent, ConfigOk, ArchStep, Flushed;
      match reg {
        case IbatU(i) => mmu.SetIbatUpper(i, v);
        case IbatL(i) => mmu.SetIbatLower(i, v);
        case DbatU(i) => mmu.SetDbatUpper(i, v);
        case DbatL(i) => mmu.SetDbatLower(i, v);
      }
    }

    method OpMtMmu(reg: MmuReg, rs: Reg) returns (raised: bool)
      requires Valid() && InstOk(MtMmu(reg, rs))
      modifies cpus`regs, mmu`generationCount, mmu`htabPhys, mmu`htabMask
      modifies mmu.ibat, mmu.dbat, mmu.segreg, mmu.pi, mmu.pd, mmu.ui, mmu.ud
      ensures Valid() && Did(ExecSystem(env, old(View()), MtMmu(reg, rs)), raised)
      ensures mmu.generationCount == old(mmu.generationCount) + 1
    {
      hide WellPlaced, Coherent, ConfigOk, ArchStep, Flushed, NextPc;
      var v := cpus.regs.gpr[rs];
      if reg.SegReg? {
        mmu.SetSegmentReg(reg.i, v);
      } else if reg.Sdr1? {
        mmu.SetSdr1(v);
      } else {
        WriteBat(reg, v);
      }
      cpus.regs := IncPc(cpus.regs);
      raised := false;
    }

    /** sc, tw and undecoded instructions. */
    method OpTrap(i: Inst) returns (raised: bool)
      requires Valid() && (i.Sc? || i.Tw? || i.Unknown?)
      modifies cpus`regs, mmu`enabledI, mmu`enabledD
      ensures Valid() && Did(ExecSystem(env, old(View()), i), raised)
    {
      hide WellPlaced, Coherent, ConfigOk, EntryRegs, ProgSrr1, Traps, NextPc;
      if i.Sc? {
        cpus.regs := IncPc(cpus.regs);
        cpus.TakeException(mmu, EXC_SC, cpus.regs.msr);
      } else if i.Unknown? {
        cpus.RaiseProgException(mmu, 0x8_0000);
      } else if Traps(i.to, cpus.regs.gpr[i.ra], cpus.regs.gpr[i.rb]) {
        cpus.RaiseProgException(mmu, 0x2_0000);
      } else {
        cpus.regs := IncPc(cpus.regs);
        return false;
      }
      raised := true;
    }

    /** Instructions that move between registers, and barriers. */
    method OpMove(i: Inst) returns (raised: bool)
      requires Valid() && (i.MfMsr? || i.MtSpr? || i.MfSpr? || i.Barrier?)
      modifies cpus`regs
      ensures Valid() && Did(ExecSystem(env, old(View()), i), raised)
    {
      hide WellPlaced, Coherent, ConfigOk, NextPc, ReadSpr, WriteSpr;
      match i {
        case MfMsr(rt) => cpus.regs := SetGpr(cpus.regs, rt, cpus.regs.msr);
        case MtSpr(spr, rs) => cpus.regs := WriteSpr(cpus.regs, spr, cpus.regs.gpr[rs]);
        case MfSpr(rt, spr) => cpus.regs := SetGpr(cpus.regs, rt, ReadSpr(cpus.regs, spr));
        case Barrier =>
      }
      cpus.regs := IncPc(cpus.regs);
      raised := false;
    }

    /** Instructions outside the memory and branch groups. */
    method OpSystem(i: Inst) returns (raised: bool)
      requires Valid() && InstOk(i) && !i.Integer? && !IsMemory(i) && !IsBranch(i)
      modifies this`excGenerationCount, cpus`regs, mmu, mmu.ibat, mmu.dbat, mmu.segreg, mmu.pi, mmu.pd, mmu.ui, mmu.ud
      ensures Valid() && Did(ExecSystem(env, old(View()), i), raised)
      ensures mmu.generationCount == old(mmu.generationCount) + (if Reconfigures(i) then 1 else 0)
    {
      hide WellPlaced, Coherent, ConfigOk, NextPc, IR, DR, Flushed;
      raised := false;
      if i.Sc? || i.Tw? || i.Unknown? {
        hide ExecSystem;
        raised := OpTrap(i);
      } else if i.Rfi? {
        hide ExecSystem;
        raised := OpRfi();
      } else if i.MtMmu? {
        hide ExecSystem;
        raised := OpMtMmu(i.reg, i.rs);
      } else if i.Mtmsr? {
        WriteMsr(cpus.regs.gpr[i.rs]);
        cpus.regs := IncPc(cpus.regs);
      } else if i.TlbInvalidate? {
        mmu.Tlbie();
        cpus.regs := IncPc(cpus.regs);
      } else {
        hide ExecSystem;
        raised := OpMove(i);
      }
    }

    // -------------------------------------------------------------- The loops

    method OpMemory(i: Inst) returns (raised: bool)
      requires Valid() && InstOk(i) && IsMemory(i)
      modifies this`excGenerationCount, this`reservationAddress, this`reservationGencount
      modifies cpus`regs, mmu`mem, mmu`data, mmu`enabledI, mmu`enabledD, mmu.pi, mmu.pd, mmu.ui, mmu.ud
      ensures Valid() && Did(ExecMemory(env, old(View()), i, inst), raised)
    {
      hide WellPlaced, Coherent, ConfigOk, ExecLoad, ExecStore, ExecLwarx, ExecStwcx, Multiple, LoadMultiple,
           StoreMultiple, EaOf;
      match i {
        case LoadZ(rt, ea, n, update) => raised := OpLoad(rt, ea, n, update);
        case StoreZ(rs, ea, n, update) => raised := OpStore(rs, ea, n, update);
        case Lmw(rt, ra, d) => raised := OpLmw(rt, ra, d);
        case Stmw(rs, ra, d) => raised := OpStmw(rs, ra, d);
        case Lwarx(rt, ra, rb) => raised := OpLwarx(rt, ra, rb);
        case Stwcx(rs, ra, rb) => raised := OpStwcx(rs, ra, rb);
      }
    }

    method OpBranch(i: Inst) returns (raised: bool)
      requires Valid() && IsBranch(i)
      modifies this`wantBreak, cpus`regs, mmu`enabledI, mmu`enabledD
      ensures Valid() && Did(ExecBranch(old(View()), i), raised)
    {
      hide WellPlaced, Coherent, ExecBranch;
      match i {
        case B(li, aa, lk) => raised := OpB(li, aa, lk);
        case Bc(bo, bi, bd, aa, lk) => raised := OpBc(bo, bi, bd, aa, lk);
        case Bclr(bo, bi, lk) => raised := OpBclr(bo, bi, lk);
        case Bcctr(bo, bi, lk) => raised := OpBcctr(bo, bi, lk);
      }
    }

    /** decode's call of an instruction function, which is also what a generated call does. */
    method Dispatch(i: Inst) returns (raised: bool)
      requires Valid() && InstOk(i)
      modifies this, cpus`regs, mmu, mmu.ibat, mmu.dbat, mmu.segreg, mmu.pi, mmu.pd, mmu.ui, mmu.ud
      ensures Valid() && Did(Exec(env, old(View()), i, old(inst)), raised) && inst == old(inst)
      ensures mmu.generationCount == old(mmu.generationCount) + (if Reconfigures(i) then 1 else 0)
    {
      hide WellPlaced, Coherent, ConfigOk, ExecMemory, ExecBranch, ExecSystem, RunAlu, InstOk;
      if i.Integer? {
        IntegerOk(i);
        cpus.regs := RunAlu(cpus.regs, i.op);
        raised := false;
      } else if IsMemory(i) {
        raised := OpMemory(i);
      } else if IsBranch(i) {
        raised := OpBranch(i);
      } else {
        raised := OpSystem(i);
      }
    }

    /** loadInst32 at the PC; the word fetched goes to the instruction field. */
    method FetchOnce() returns (fault: Option<Fault>)
      requires Valid()
      modifies this`inst, mmu`mem, mmu.pi, mmu.pd, mmu.ui, mmu.ud
      ensures Valid() && Fetch32(env, old(View())) == (View(), if fault.Some? then LoadFault(fault.value) else LoadOk(inst))
    {
      hide WellPlaced, Coherent, ScratchTranslate, LoadVia, BusRead, ConfigOk, Truncate;
      var val;
      fault, val := mmu.LoadInst32(cpus.regs.pc, !PR(cpus.regs.msr), DeviceFn(env, mmu.data));
      if fault.None? {
        inst := Truncate(val, 4);
      }
    }

    method FetchFaultTaken(fault: Fault)
      requires Valid()
      modifies cpus`regs, mmu`enabledI, mmu`enabledD
      ensures Valid() && View() == RaiseMem(old(View()), true, true, old(cpus.regs.pc), fault, 0)
    {
      hide WellPlaced, Coherent, MemFaultRegs;
      cpus.RaiseMemException(mmu, true, true, cpus.regs.pc, fault, 0);
    }

    /** execute: fetch, as often as fetches fault, then decode and run. The result is a step of the machine that walks from
        scratch, and the second fetch never faults. */
    method Execute(decode: Word -> Inst) returns (fetches: nat)
      requires Valid() && DecodeOk(decode)
      modifies this, cpus`regs, mmu, mmu.ibat, mmu.dbat, mmu.segreg, mmu.pi, mmu.pd, mmu.ui, mmu.ud
      ensures Valid() && View() == Step(env, old(View()), decode)
      ensures 1 <= fetches <= 2
    {
      assert ConfigOk(mmu.Now().arch.cfg);
      hide WellPlaced, Coherent, ConfigOk, Exec, InstOk, Fetch32, RaiseMem;
      ghost var whole := FetchLoop(env, View());
      fetches := 0;
      var fault := Some(NoPage);
      while fault.Some?
        invariant Valid() && ConfigOk(mmu.Now().arch.cfg)
        invariant fault.Some? ==> FetchLoop(env, View()) == whole && fetches <= 1 && (fetches == 1 ==> !View().arch.ir)
        invariant fault.None? ==> (View(), inst) == whole && 1 <= fetches <= 2
        decreases fault.Some?, View().arch.ir
      {
        fault := FetchOnce();
        fetches := fetches + 1;
        if fault.Some? {
          FetchFaultTaken(fault.value);
        }
      }
      var _ := Dispatch(decode(inst));
    }

    /** What follows an instruction or a block in the main loops: a pending interrupt, else a pending decrementer. */
    method DeliverPending()
      requires Valid()
      modifies cpus`regs, mmu`enabledI, mmu`enabledD
      ensures Valid() && View() == Deliver(old(View()))
    {
      hide WellPlaced, Coherent, EntryRegs, EE;
      if EE(cpus.regs.msr) && cpus.regs.irq {
        cpus.TakeException(mmu, EXC_IRQ, cpus.regs.msr);
      } else if EE(cpus.regs.msr) && cpus.regs.dec >= HALF {
        cpus.TakeException(mmu, EXC_DEC, cpus.regs.msr);
      }
    }

    method OneTurn(decode: Word -> Inst)
      requires Valid() && DecodeOk(decode)
      modifies this, cpus, mmu, mmu.ibat, mmu.dbat, mmu.segreg, mmu.pi, mmu.pd, mmu.ui, mmu.ud
      ensures Valid() && View() == Turn(env, old(View()), decode) && ConfigOk(View().arch.cfg)
      ensures cpus.instCount == old(cpus.instCount) + 1 && View().stop == wantBreak
    {
      assert ConfigOk(mmu.Now().arch.cfg);
      hide WellPlaced, Coherent, ConfigOk, Step, Deliver, Tick, InstOk;
      var _ := Execute(decode);
      cpus.CpuTick(1);
      DeliverPending();
    }

    method BreakRequest()
      requires Valid()
      modifies this`wantBreak
      ensures Valid() && View() == old(View()).(stop := true) && wantBreak
    {
      hide WellPlaced, Coherent;
      wantBreak := true;
    }

    lemma {:induction false} BeforeTurns(decode: Word -> Inst, limit: nat)
      requires ConfigOk(View().arch.cfg) && DecodeOk(decode)
      ensures View().stop == wantBreak && Turns(env, View(), decode, 0) == View()
      ensures KeepsGoing(env, View(), decode, cpus.instCount, limit, 0)
    {
      hide ConfigOk, DecodeOk, Turn;
    }

    /** A turn, and the break that passing the limit asks for. */
    method LimitedTurn(decode: Word -> Inst, limit: nat)
      requires Valid() && DecodeOk(decode)
      modifies this, cpus, mmu, mmu.ibat, mmu.dbat, mmu.segreg, mmu.pi, mmu.pd, mmu.ui, mmu.ud
      ensures Valid() && ConfigOk(old(View()).arch.cfg) && View().stop == wantBreak
      ensures cpus.instCount == old(cpus.instCount) + 1
      ensures var turned := Turn(env, old(View()), decode);
        View() == turned.(stop := turned.stop || (limit != 0 && cpus.instCount > limit))
    {
      hide *;
      Configured();
      OneTurn(decode);
      if limit != 0 && cpus.instCount > limit {
        BreakRequest();
      }
    }

    /** The interpreter's main loop, or its first `most` turns: turns of the machine that walks from scratch, up to the first
        that asks for a break or takes the count of instructions past the limit, if there is one, and no more. */
    method MainLoop(decode: Word -> Inst, limit: nat, most: nat) returns (turns: nat)
      requires Valid() && DecodeOk(decode)
      modifies this, cpus, mmu, mmu.ibat, mmu.dbat, mmu.segreg, mmu.pi, mmu.pd, mmu.ui, mmu.ud
      ensures Valid() && ConfigOk(old(View()).arch.cfg)
      ensures View() == Turns(env, old(View()), decode, turns).(stop := wantBreak)
      ensures turns <= most && (turns < most ==> wantBreak)
      ensures cpus.instCount == old(cpus.instCount) + turns && (turns > 0 ==> !old(wantBreak))
      ensures KeepsGoing(env, old(View()), decode, old(cpus.instCount), limit, turns)
      ensures wantBreak
        <==> Turns(env, old(View()), decode, turns).stop || (turns > 0 && limit != 0 && cpus.instCount > limit)
    {
      hide *;
      ghost var start, count := View(), cpus.instCount;
      Configured();
      BeforeTurns(decode, limit);
      turns := 0;
      while !wantBreak && turns < most
        invariant Valid() && View() == Turns(env, start, decode, turns).(stop := wantBreak) && turns <= most
        invariant cpus.instCount == count + turns && (turns > 0 ==> !start.stop)
        invariant KeepsGoing(env, start, decode, count, limit, turns)
        invariant wantBreak <==> Turns(env, start, decode, turns).stop || (turns > 0 && limit != 0 && cpus.instCount > limit)
        decreases most - turns
      {
        OneMoreTurn(env, start, decode, count, limit, turns);
        LimitedTurn(decode, limit);
        turns := turns + 1;
      }
    }
  }

  lemma IntegerOk(i: Inst)
    requires InstOk(i) && i.Integer?
    ensures AluOk(i.op)
  {
  }
}
