/** The CPU state as an object: exception entry and ticks update it in place (PPCCPUState.h, PPCCPUState.cc). */
module CpuState {
  import opened Words
  import opened MmuTypes
  import opened BusMap
  import opened DirectTlb
  import opened CpuTypes
  import opened Interp
  import opened Mmu

  lemma HandlerModes()
    ensures IP(0x40) && !IR(0x40) && !DR(0x40) && !IP(0) && !IR(0) && !DR(0)
  {
  }

  class PpcCpuState {
    var regs: Cpu
    var instCount: nat

    constructor ()
      ensures regs == ResetCpu() && instCount == 0
      ensures regs.pc == 0 && regs.msr == 0 && regs.tb == 0 && regs.dec == 0xffff_ffff && !regs.irq
    {
      instCount := 0;
      regs := ResetCpu();
    }

    method CpuTick(t: nat)
      modifies this
      ensures regs == Tick(old(regs), t) && instCount == old(instCount) + t
    {
      instCount := instCount + t;
      regs := regs.(tb := (regs.tb + t) % TB_LIMIT);
      if regs.tb % 4 == 0 {
        regs := regs.(dec := Wrap(regs.dec - 1));
      }
    }

    /** The translation modes are told to the MMU as well. */
    method TakeException(mmu: PpcMmu, vector: Word, newSrr1: Word)
      requires mmu.Valid() && IsVector(vector)
      modifies this`regs, mmu`enabledI, mmu`enabledD
      ensures regs == EntryRegs(old(regs), vector, newSrr1)
      ensures mmu.Valid() && mmu.Now().arch == old(mmu.Now().arch).(ir := false, dr := false)
    {
      hide WellPlaced, Coherent, WordAligned, IP, IR, DR;
      HandlerModes();
      regs := regs.(srr0 := WordAligned(regs.pc), srr1 := newSrr1);
      regs := regs.(msr := if IP(regs.msr) then 0x40 else 0);
      regs := regs.(pc := (if IP(regs.msr) then 0xfff0_0000 else 0) + vector);
      mmu.SetIrDr(IR(regs.msr), DR(regs.msr));
    }

    method RaiseMemException(mmu: PpcMmu, rnw: bool, ind: bool, addr: Word, fault: Fault, inst: Word)
      requires mmu.Valid()
      modifies this`regs, mmu`enabledI, mmu`enabledD
      ensures regs == MemFaultRegs(old(regs), rnw, ind, addr, fault, inst)
      ensures mmu.Valid() && mmu.Now().arch == old(mmu.Now().arch).(ir := false, dr := false)
    {
      hide AlignDsisr, EntryRegs, WellPlaced, Coherent;
      if ind && fault != AlignFault {
        TakeException(mmu, EXC_ISI, IsiSrr1(regs.msr, fault));
      } else {
        regs := regs.(dar := addr, dsisr := FaultDsisr(rnw, fault, inst));
        TakeException(mmu, if fault == AlignFault then EXC_ALIGN else EXC_DSI, regs.msr);
      }
    }

    method RaiseProgException(mmu: PpcMmu, reason: Word)
      requires mmu.Valid() && (reason == 0x2_0000 || reason == 0x8_0000)
      modifies this`regs, mmu`enabledI, mmu`enabledD
      ensures regs == EntryRegs(old(regs), EXC_PROG, ProgSrr1(old(regs).msr, reason))
      ensures mmu.Valid() && mmu.Now().arch == old(mmu.Now().arch).(ir := false, dr := false)
    {
      hide EntryRegs, WellPlaced, Coherent;
      TakeException(mmu, EXC_PROG, ProgSrr1(regs.msr, reason));
    }
  }
}
