/** What the time base counts: every instruction of the interpreter, and under the JIT those of blocks that finish
    (PPCCPUState.h, main.cc, runloop.cc). */
module TimeBase {
  import opened Words
  import opened MmuTypes
  import opened BusMap
  import opened DirectTlb
  import opened CpuTypes
  import opened Alu
  import opened Interp
  import opened JitBlock
  import opened JitRuns
  import Branches

  /** No instruction changes TB. */
  lemma TbKept(env: Env, m: Machine, i: Inst, inst: Word)
    requires ConfigOk(m.arch.cfg) && InstOk(i)
    ensures Exec(env, m, i, inst).m.cpu.tb == m.cpu.tb
  {
    hide ConfigOk, ExecMemory, ExecBranch, ExecSystem, RunAlu, InstOk;
    if i.Integer? {
      AluKept(m.cpu, i);
    } else if IsMemory(i) {
      Branches.MemoryKeepsCtr(env, m, i, inst);
    } else if IsBranch(i) {
      BranchKept(m, i);
    } else {
      SystemKept(env, m, i);
    }
  }

  lemma AluKept(c: Cpu, i: Inst)
    requires InstOk(i) && i.Integer?
    ensures AluOk(i.op) && RunAlu(c, i.op).tb == c.tb
  {
    AluKeeps(c, i.op);
    hide RunAlu;
  }

  lemma BranchKept(m: Machine, i: Inst)
    requires IsBranch(i)
    ensures ExecBranch(m, i).m.cpu.tb == m.cpu.tb
  {
    hide ExecBranch, Branches.Branches, Branches.Counted, Branches.Linked, Branches.After, Branches.CrHas;
    match i
    case B(li, aa, lk) => Branches.BDoes(m, li, aa, lk);
    case Bc(bo, bi, bd, aa, lk) => Branches.BcDoes(m, bd, aa, lk, bo, bi);
    case Bclr(bo, bi, lk) => Branches.BclrDoes(m, lk, bo, bi);
    case Bcctr(bo, bi, lk) =>
      if bo / 4 % 2 == 0 {
        CountingKept(m, i);
      } else {
        Branches.BcctrDoes(m, lk, bo, bi);
      }
  }

  lemma CountingKept(m: Machine, i: Inst)
    requires i.Bcctr? && i.bo / 4 % 2 == 0
    ensures ExecBranch(m, i).m.cpu.tb == m.cpu.tb
  {
    hide WordAligned, InHandler, IP, ProgSrr1;
  }

  lemma SystemKept(env: Env, m: Machine, i: Inst)
    requires ConfigOk(m.arch.cfg) && InstOk(i) && !i.Integer? && !IsMemory(i) && !IsBranch(i)
    ensures ExecSystem(env, m, i).m.cpu.tb == m.cpu.tb
  {
    hide ConfigOk, WordAligned, NextPc, ReadSpr, ArchStep, IR, DR, IP, Traps, ProgSrr1, InHandler, ToOp, OpOk, InstOk;
  }

  lemma {:induction false} FetchKept(env: Env, m: Machine)
    requires ConfigOk(m.arch.cfg)
    ensures FetchLoop(env, m).0.cpu.tb == m.cpu.tb
    decreases m.arch.ir
  {
    hide ConfigOk, Fetch32, RaiseMem;
    var (m', v) := Fetch32(env, m);
    if v.LoadFault? {
      EntryKept(m', m.cpu.pc, v.fault);
      FetchKept(env, RaiseMem(m', true, true, m.cpu.pc, v.fault, 0));
    }
  }

  lemma EntryKept(m: Machine, addr: Word, f: Fault)
    ensures var e := RaiseMem(m, true, true, addr, f, 0); e.cpu.tb == m.cpu.tb && !e.arch.ir && e.arch.cfg == m.arch.cfg
  {
    hide FaultDsisr, IsiSrr1, WordAligned, IP;
  }

  lemma {:induction false} StepKept(env: Env, m: Machine, decode: Word -> Inst)
    requires ConfigOk(m.arch.cfg) && DecodeOk(decode)
    ensures Step(env, m, decode).cpu.tb == m.cpu.tb
  {
    hide ConfigOk, FetchLoop, Exec, InstOk;
    var (m', w) := FetchLoop(env, m);
    FetchKept(env, m);
    TbKept(env, m', decode(w), w);
  }

  lemma DeliverKept(m: Machine)
    ensures Deliver(m).cpu.tb == m.cpu.tb
  {
    hide WordAligned, IP, IrqPending, DecPending;
  }

  /** The interpreter: one for every turn. */
  lemma {:induction false} TurnsCount(env: Env, m: Machine, decode: Word -> Inst, n: nat)
    requires ConfigOk(m.arch.cfg) && DecodeOk(decode) && m.cpu.tb < 0x1_0000_0000_0000_0000
    ensures Turns(env, m, decode, n).cpu.tb == (m.cpu.tb + n) % 0x1_0000_0000_0000_0000
  {
    hide ConfigOk, Step, Deliver, DecodeOk;
    if n > 0 {
      TurnsCount(env, m, decode, n - 1);
      var t := Turns(env, m, decode, n - 1);
      var s := Step(env, t, decode);
      StepKept(env, t, decode);
      DeliverKept(WithCpu(s, Tick(s.cpu, 1)));
      AddWrapped(m.cpu.tb + n - 1, 1);
    }
  }

  lemma AddWrapped(x: nat, n: nat)
    ensures (x % 0x1_0000_0000_0000_0000 + n) % 0x1_0000_0000_0000_0000 == (x + n) % 0x1_0000_0000_0000_0000
  {
  }

  lemma {:induction false} StepsKept(env: Env, m: Machine, decode: Word -> Inst, n: nat)
    requires ConfigOk(m.arch.cfg) && DecodeOk(decode)
    ensures Steps(env, m, decode, n).cpu.tb == m.cpu.tb
    decreases n
  {
    hide ConfigOk, Step, DecodeOk;
    if n > 0 {
      StepKept(env, m, decode);
      StepsKept(env, Step(env, m, decode), decode, n - 1);
    }
  }

  /** The instructions of the blocks that finished. */
  function Finished(rounds: seq<Round>): nat {
    if rounds == [] then 0
    else
      var last := rounds[|rounds| - 1];
      Finished(rounds[..|rounds| - 1]) + (if last.Ran? then last.steps else 0)
  }

  /** The JIT: one for every instruction of a block that finished, and nothing for those of a block that an exception left. */
  lemma {:induction false} RoundsCount(env: Env, m: Machine, decode: Word -> Inst, rounds: seq<Round>)
    requires ConfigOk(m.arch.cfg) && DecodeOk(decode) && m.cpu.tb < 0x1_0000_0000_0000_0000
    ensures JitRun(env, m, decode, rounds).cpu.tb == (m.cpu.tb + Finished(rounds)) % 0x1_0000_0000_0000_0000
  {
    hide ConfigOk, RoundEnd, DecodeOk;
    if rounds != [] {
      var early, last := rounds[..|rounds| - 1], rounds[|rounds| - 1];
      RoundsCount(env, m, decode, early);
      RoundCounts(env, JitRun(env, m, decode, early), decode, last);
      AddWrapped(m.cpu.tb + Finished(early), if last.Ran? then last.steps else 0);
    }
  }

  lemma {:induction false} RoundCounts(env: Env, m: Machine, decode: Word -> Inst, round: Round)
    requires ConfigOk(m.arch.cfg) && DecodeOk(decode) && m.cpu.tb < 0x1_0000_0000_0000_0000
    ensures RoundEnd(env, m, decode, round).cpu.tb
         == (m.cpu.tb + (if round.Ran? then round.steps else 0)) % 0x1_0000_0000_0000_0000
  {
    hide ConfigOk, Steps, Deliver, DecodeOk, Fetch32, RaiseMem;
    match round
    case FetchFault =>
      var (m', v) := Fetch32(env, m);
      if v.LoadFault? {
        EntryKept(m', m.cpu.pc, v.fault);
      }
    case Ran(n) =>
      StepsKept(env, m, decode, n);
      var s := Steps(env, m, decode, n);
      DeliverKept(WithCpu(s, Tick(s.cpu, n)));
    case Threw(n, _) => StepsKept(env, m, decode, n);
  }
}
