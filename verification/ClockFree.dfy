/** Instructions do not look at the clock: TB and DEC pass through every one but a read of DEC (PPCCPUState.h,
    PPCInterpreter_Special.cc). */
module ClockFree {
  import opened Words
  import opened MmuTypes
  import opened PageWalk
  import opened BusMap
  import opened DirectTlb
  import opened DataPath
  import opened CpuTypes
  import opened Alu
  import opened Interp
  import opened JitBlock

  function Clocked(c: Cpu, tb: nat, dec: Word): Cpu { c.(tb := tb, dec := dec) }

  function WithClock(m: Machine, tb: nat, dec: Word): Machine { m.(cpu := Clocked(m.cpu, tb, dec)) }

  /** The same machine at another time. */
  predicate SameButClock(m: Machine, m': Machine) { m' == WithClock(m, m'.cpu.tb, m'.cpu.dec) }

  predicate SameOutcome(r: Result, r': Result) {
    SameButClock(r.m, r'.m) && r'.Raised? == r.Raised? && (r.Raised? ==> r'.fault == r.fault)
  }

  predicate ReadsClock(i: Inst) { i.MfSpr? && i.spr.SprDec? }

  lemma RetireClock(c: Cpu, tb: nat, dec: Word, r: Reg, v: Word, ca: bool, oe: bool, ov: bool, rc: bool)
    ensures Retire(Clocked(c, tb, dec), r, v, ca, oe, ov, rc) == Clocked(Retire(c, r, v, ca, oe, ov, rc), tb, dec)
  {
    hide Wrap, Signed, NextPc;
  }

  lemma AluClock(c: Cpu, tb: nat, dec: Word, op: AluOp)
    requires AluOk(op)
    ensures RunAlu(Clocked(c, tb, dec), op) == Clocked(RunAlu(c, op), tb, dec)
  {
    hide Wrap, Signed, Not, NextPc, Retire, AddOvCoCi, SignedProduct, MulOverflows, UnsignedProduct, Divw, And, RotL,
         MkMask, Insert, Sraw, ShiftRight, Compare;
    forall r, v, ca, oe, ov, rc {:trigger Retire(c, r, v, ca, oe, ov, rc)}
      ensures Retire(Clocked(c, tb, dec), r, v, ca, oe, ov, rc) == Clocked(Retire(c, r, v, ca, oe, ov, rc), tb, dec)
    {
      RetireClock(c, tb, dec, r, v, ca, oe, ov, rc);
    }
    match op
    case AddX(rt, ra, invert, b, ci, co, oe, rc) =>
      assert AddendOf(Clocked(c, tb, dec), b) == AddendOf(c, b) && CarryOf(Clocked(c, tb, dec), ci) == CarryOf(c, ci);
    case Addi(rt, ra, si) => assert GprOrZero(Clocked(c, tb, dec), ra) == GprOrZero(c, ra);
    case DivW(rt, ra, rb, oe, rc) =>
      var (q, ov) := Divw(c.gpr[ra], c.gpr[rb]);
      RetireClock(c, tb, dec, rt, q, c.ca, oe, ov, rc);
    case SrawX(ra, rs, rb, rc) =>
      var (v, ca) := Sraw(c.gpr[rs], c.gpr[rb] % 64);
      RetireClock(c, tb, dec, ra, v, ca, false, false, rc);
    case Srawi(ra, rs, sh, rc) =>
      var (v, ca) := ShiftRight(c.gpr[rs], sh);
      RetireClock(c, tb, dec, ra, v, ca, false, false, rc);
    case _ =>
  }

  lemma TranslateClock(env: Env, m: Machine, tb: nat, dec: Word, ea: Word, ind: bool, rnw: bool)
    requires ConfigOk(m.arch.cfg)
    ensures var (m', out) := Translate(env, m, ea, ind, rnw);
      Translate(env, WithClock(m, tb, dec), ea, ind, rnw) == (WithClock(m', tb, dec), out)
  {
    hide ConfigOk, ScratchTranslate;
  }

  lemma LoadClock(env: Env, m: Machine, tb: nat, dec: Word, ea: Word, n: nat)
    requires ConfigOk(m.arch.cfg) && Sized124(n)
    ensures var (m', v) := Load(env, m, ea, n); Load(env, WithClock(m, tb, dec), ea, n) == (WithClock(m', tb, dec), v)
  {
    hide ConfigOk, Translate, LoadVia, Truncate, Misaligned;
    TranslateClock(env, m, tb, dec, ea, false, true);
  }

  lemma StoreClock(env: Env, m: Machine, tb: nat, dec: Word, ea: Word, n: nat, v: Word)
    requires ConfigOk(m.arch.cfg) && Sized124(n)
    ensures var (m', f) := Store(env, m, ea, n, v); Store(env, WithClock(m, tb, dec), ea, n, v) == (WithClock(m', tb, dec), f)
  {
    hide ConfigOk, Translate, StoreVia, Truncate, Misaligned;
    TranslateClock(env, m, tb, dec, ea, false, false);
  }

  lemma {:induction false} LoadMultipleClock(env: Env, m: Machine, tb: nat, dec: Word, n: nat, base: Word)
    requires ConfigOk(m.arch.cfg) && n <= 32
    ensures var (m', f) := LoadMultiple(env, m, n, base);
      LoadMultiple(env, WithClock(m, tb, dec), n, base) == (WithClock(m', tb, dec), f)
    decreases 32 - n
  {
    hide ConfigOk, Load;
    if n < 32 {
      LoadClock(env, m, tb, dec, base, 4);
      var (m', v) := Load(env, m, base, 4);
      if v.LoadOk? {
        LoadMultipleClock(env, WithCpu(m', SetGpr(m'.cpu, n, v.val)), tb, dec, n + 1, Wrap(base + 4));
      }
    }
  }

  lemma {:induction false} StoreMultipleClock(env: Env, m: Machine, tb: nat, dec: Word, n: nat, base: Word)
    requires ConfigOk(m.arch.cfg) && n <= 32
    ensures var (m', f) := StoreMultiple(env, m, n, base);
      StoreMultiple(env, WithClock(m, tb, dec), n, base) == (WithClock(m', tb, dec), f)
    decreases 32 - n
  {
    hide ConfigOk, Store;
    if n < 32 {
      StoreClock(env, m, tb, dec, base, 4, m.cpu.gpr[n]);
      var (m', f) := Store(env, m, base, 4, m.cpu.gpr[n]);
      if f.None? {
        StoreMultipleClock(env, m', tb, dec, n + 1, Wrap(base + 4));
      }
    }
  }

  lemma MemFaultClock(m: Machine, tb: nat, dec: Word, rnw: bool, addr: Word, fault: Fault, inst: Word)
    ensures SameOutcome(MemFault(m, rnw, addr, fault, inst), MemFault(WithClock(m, tb, dec), rnw, addr, fault, inst))
  {
    hide FaultDsisr, IsiSrr1, WordAligned, IP;
  }

  lemma ExecLoadClock(env: Env, m: Machine, tb: nat, dec: Word, rt: Reg, ea: Ea, n: nat, update: bool, inst: Word)
    requires ConfigOk(m.arch.cfg) && Sized124(n)
    ensures SameOutcome(ExecLoad(env, m, rt, ea, n, update, inst), ExecLoad(env, WithClock(m, tb, dec), rt, ea, n, update, inst))
  {
    hide ConfigOk, Load, MemFault, NextPc, Wrap;
    var addr := EaOf(m.cpu, ea, update);
    LoadClock(env, m, tb, dec, addr, n);
    var (m', v) := Load(env, m, addr, n);
    if v.LoadFault? {
      MemFaultClock(m', tb, dec, true, addr, v.fault, inst);
    }
  }

  lemma ExecStoreClock(env: Env, m: Machine, tb: nat, dec: Word, rs: Reg, ea: Ea, n: nat, update: bool, inst: Word)
    requires ConfigOk(m.arch.cfg) && Sized124(n)
    ensures SameOutcome(ExecStore(env, m, rs, ea, n, update, inst), ExecStore(env, WithClock(m, tb, dec), rs, ea, n, update, inst))
  {
    hide ConfigOk, Store, MemFault, NextPc, Wrap;
    var addr := EaOf(m.cpu, ea, update);
    StoreClock(env, m, tb, dec, addr, n, m.cpu.gpr[rs]);
    var (m', f) := Store(env, m, addr, n, m.cpu.gpr[rs]);
    if f.Some? {
      MemFaultClock(m', tb, dec, false, addr, f.value, inst);
    }
  }

  lemma MultipleClock(m: Machine, f: Option<(Fault, Word)>, tb: nat, dec: Word, rnw: bool, inst: Word)
    ensures SameOutcome(Multiple((m, f), rnw, inst), Multiple((WithClock(m, tb, dec), f), rnw, inst))
  {
    hide MemFault, NextPc;
    if f.Some? {
      MemFaultClock(m, tb, dec, rnw, f.value.1, f.value.0, inst);
    }
  }

  lemma LwarxClock(env: Env, m: Machine, tb: nat, dec: Word, rt: Reg, ra: Reg, rb: Reg, inst: Word)
    requires ConfigOk(m.arch.cfg)
    ensures SameOutcome(ExecLwarx(env, m, rt, ra, rb, inst), ExecLwarx(env, WithClock(m, tb, dec), rt, ra, rb, inst))
  {
    hide ConfigOk, Load, MemFault, NextPc, Wrap;
    var addr := EaOf(m.cpu, Indexed(ra, rb), false);
    LoadClock(env, m, tb, dec, addr, 4);
    var (m', v) := Load(env, m, addr, 4);
    if v.LoadFault? {
      MemFaultClock(m'.(resAddr := addr, resGen := m'.gen), tb, dec, true, addr, v.fault, inst);
    }
  }

  lemma StwcxClock(env: Env, m: Machine, tb: nat, dec: Word, rs: Reg, ra: Reg, rb: Reg, inst: Word)
    requires ConfigOk(m.arch.cfg)
    ensures SameOutcome(ExecStwcx(env, m, rs, ra, rb, inst), ExecStwcx(env, WithClock(m, tb, dec), rs, ra, rb, inst))
  {
    hide ConfigOk, Store, MemFault, NextPc, Wrap;
    var addr := EaOf(m.cpu, Indexed(ra, rb), false);
    StoreClock(env, m, tb, dec, addr, 4, m.cpu.gpr[rs]);
    var (m', f) := Store(env, m, addr, 4, m.cpu.gpr[rs]);
    if f.Some? {
      MemFaultClock(m', tb, dec, false, addr, f.value, inst);
    }
  }

  lemma EaClock(c: Cpu, tb: nat, dec: Word, ea: Ea, update: bool)
    ensures EaOf(Clocked(c, tb, dec), ea, update) == EaOf(c, ea, update)
  {
    hide Wrap;
  }

  lemma MemoryClock(env: Env, m: Machine, tb: nat, dec: Word, i: Inst, inst: Word)
    requires ConfigOk(m.arch.cfg) && InstOk(i) && IsMemory(i)
    ensures SameOutcome(ExecMemory(env, m, i, inst), ExecMemory(env, WithClock(m, tb, dec), i, inst))
  {
    hide ConfigOk, ExecLoad, ExecStore, Multiple, LoadMultiple, StoreMultiple, ExecLwarx, ExecStwcx, EaOf, SameOutcome;
    match i
    case LoadZ(rt, ea, n, update) => ExecLoadClock(env, m, tb, dec, rt, ea, n, update, inst);
    case StoreZ(rs, ea, n, update) => ExecStoreClock(env, m, tb, dec, rs, ea, n, update, inst);
    case Lmw(rt, ra, d) =>
      var base := EaOf(m.cpu, Disp(ra, d), false);
      EaClock(m.cpu, tb, dec, Disp(ra, d), false);
      LoadMultipleClock(env, m, tb, dec, rt, base);
      MultipleClock(LoadMultiple(env, m, rt, base).0, LoadMultiple(env, m, rt, base).1, tb, dec, true, inst);
    case Stmw(rs, ra, d) =>
      var base := EaOf(m.cpu, Disp(ra, d), false);
      EaClock(m.cpu, tb, dec, Disp(ra, d), false);
      StoreMultipleClock(env, m, tb, dec, rs, base);
      MultipleClock(StoreMultiple(env, m, rs, base).0, StoreMultiple(env, m, rs, base).1, tb, dec, false, inst);
    case Lwarx(rt, ra, rb) => LwarxClock(env, m, tb, dec, rt, ra, rb, inst);
    case Stwcx(rs, ra, rb) => StwcxClock(env, m, tb, dec, rs, ra, rb, inst);
  }

  lemma BranchOnClock(c: Cpu, tb: nat, dec: Word, bo: nat, bi: Reg)
    ensures BranchOn(Clocked(c, tb, dec), bo, bi) == BranchOn(c, bo, bi)
    ensures Condition(Clocked(c, tb, dec), bo, bi) == Condition(c, bo, bi)
  {
    hide Wrap;
  }

  lemma ProgClock(m: Machine, tb: nat, dec: Word, reason: Word)
    requires reason == 0x2_0000 || reason == 0x8_0000
    ensures RaiseProg(WithClock(m, tb, dec), reason) == WithClock(RaiseProg(m, reason), tb, dec)
  {
    hide ProgSrr1, WordAligned, IP, InHandler;
  }

  lemma BranchClock(m: Machine, tb: nat, dec: Word, i: Inst)
    requires IsBranch(i)
    ensures SameOutcome(ExecBranch(m, i), ExecBranch(WithClock(m, tb, dec), i))
  {
    hide ExecBranch, SameOutcome;
    if i.B? {
      BClock(m, tb, dec, i);
    } else if i.Bcctr? {
      BcctrClock(m, tb, dec, i);
    } else {
      BcClock(m, tb, dec, i);
    }
  }

  lemma BClock(m: Machine, tb: nat, dec: Word, i: Inst)
    requires i.B?
    ensures SameOutcome(ExecBranch(m, i), ExecBranch(WithClock(m, tb, dec), i))
  {
    hide Link, Target;
    TargetClock(m.cpu, tb, dec, i.li, i.aa);
    GotoClock(m.cpu, tb, dec, i.lk, m.cpu.ctr, true, Target(m.cpu, i.li, i.aa));
  }

  lemma BcClock(m: Machine, tb: nat, dec: Word, i: Inst)
    requires i.Bc? || i.Bclr?
    ensures SameOutcome(ExecBranch(m, i), ExecBranch(WithClock(m, tb, dec), i))
  {
    hide Goto, Link, Target, WordAligned, BranchOn;
    var c := m.cpu;
    BranchOnClock(c, tb, dec, i.bo, i.bi);
    var dest := if i.Bc? then Target(c, i.bd, i.aa) else WordAligned(c.lr);
    if i.Bc? {
      TargetClock(c, tb, dec, i.bd, i.aa);
    }
    GotoClock(c, tb, dec, i.lk, BranchOn(c, i.bo, i.bi).0, BranchOn(c, i.bo, i.bi).1, dest);
  }

  lemma BcctrClock(m: Machine, tb: nat, dec: Word, i: Inst)
    requires i.Bcctr?
    ensures SameOutcome(ExecBranch(m, i), ExecBranch(WithClock(m, tb, dec), i))
  {
    hide Goto, Link, WordAligned, RaiseProg, Condition, InHandler;
    BranchOnClock(m.cpu, tb, dec, i.bo, i.bi);
    GotoClock(m.cpu, tb, dec, i.lk, m.cpu.ctr, Condition(m.cpu, i.bo, i.bi), WordAligned(m.cpu.ctr));
    ProgClock(m, tb, dec, 0x8_0000);
  }

  lemma TargetClock(c: Cpu, tb: nat, dec: Word, offset: int, aa: bool)
    ensures Target(Clocked(c, tb, dec), offset, aa) == Target(c, offset, aa)
  {
    hide Wrap;
  }

  lemma GotoClock(c: Cpu, tb: nat, dec: Word, lk: bool, ctr: Word, taken: bool, dest: Word)
    ensures Link(Clocked(c, tb, dec), lk) == Clocked(Link(c, lk), tb, dec) && Link(c, lk).(ctr := c.ctr) == Link(c, lk)
    ensures var l := Link(c, lk).(ctr := ctr); Goto(Clocked(l, tb, dec), taken, dest) == Clocked(Goto(l, taken, dest), tb, dec)
  {
    hide NextPc;
  }

  lemma SprClock(c: Cpu, tb: nat, dec: Word, spr: Spr, v: Word)
    ensures !spr.SprDec? ==> ReadSpr(Clocked(c, tb, dec), spr) == ReadSpr(c, spr)
    ensures var d := WriteSpr(Clocked(c, tb, dec), spr, v); d == Clocked(WriteSpr(c, spr, v), tb, d.dec)
  {
  }

  lemma ScClock(m: Machine, tb: nat, dec: Word)
    ensures TakeException(Advance(WithClock(m, tb, dec)), EXC_SC, m.cpu.msr)
         == WithClock(TakeException(Advance(m), EXC_SC, m.cpu.msr), tb, dec)
  {
    hide WordAligned, IP, NextPc, InHandler;
  }

  lemma SystemClock(env: Env, m: Machine, tb: nat, dec: Word, i: Inst)
    requires ConfigOk(m.arch.cfg) && InstOk(i) && !i.Integer? && !IsMemory(i) && !IsBranch(i) && !ReadsClock(i)
    ensures SameOutcome(ExecSystem(env, m, i), ExecSystem(env, WithClock(m, tb, dec), i))
  {
    hide ConfigOk, Traps, WordAligned, NextPc, ArchStep, IR, DR, RaiseProg, TakeException, InstOk, ReadSpr, WriteSpr,
         InHandler, ToOp, OpOk;
    match i
    case Sc => ScClock(m, tb, dec);
    case Tw(to, ra, rb) => ProgClock(m, tb, dec, 0x2_0000);
    case MtSpr(spr, rs) => SprClock(m.cpu, tb, dec, spr, m.cpu.gpr[rs]);
    case MfSpr(rt, spr) => SprClock(m.cpu, tb, dec, spr, 0);
    case Unknown => ProgClock(m, tb, dec, 0x8_0000);
    case _ =>
  }

  /** Every instruction but a read of DEC does the same at any other time. */
  lemma ClockIgnored(env: Env, m: Machine, m': Machine, i: Inst, inst: Word)
    requires ConfigOk(m.arch.cfg) && InstOk(i) && !ReadsClock(i) && SameButClock(m, m')
    ensures SameOutcome(Exec(env, m, i, inst), Exec(env, m', i, inst))
  {
    hide ConfigOk, ExecMemory, ExecBranch, ExecSystem, RunAlu;
    var tb, dec := m'.cpu.tb, m'.cpu.dec;
    if i.Integer? {
      AluClock(m.cpu, tb, dec, i.op);
    } else if IsMemory(i) {
      MemoryClock(env, m, tb, dec, i, inst);
    } else if IsBranch(i) {
      BranchClock(m, tb, dec, i);
    } else {
      SystemClock(env, m, tb, dec, i);
    }
  }

  // ---------------------------------------------------------------- Whole steps

  lemma RaiseMemClock(m: Machine, tb: nat, dec: Word, addr: Word, fault: Fault)
    ensures RaiseMem(WithClock(m, tb, dec), true, true, addr, fault, 0)
         == WithClock(RaiseMem(m, true, true, addr, fault, 0), tb, dec)
  {
    hide FaultDsisr, IsiSrr1, WordAligned, IP, InHandler;
  }

  lemma FetchClock(env: Env, m: Machine, tb: nat, dec: Word)
    requires ConfigOk(m.arch.cfg)
    ensures var (m', v) := Fetch32(env, m); Fetch32(env, WithClock(m, tb, dec)) == (WithClock(m', tb, dec), v)
  {
    hide ConfigOk, Translate, LoadVia, Truncate;
    TranslateClock(env, m, tb, dec, m.cpu.pc, true, true);
  }

  lemma {:induction false} FetchLoopClock(env: Env, m: Machine, tb: nat, dec: Word)
    requires ConfigOk(m.arch.cfg)
    ensures var (m', w) := FetchLoop(env, m); FetchLoop(env, WithClock(m, tb, dec)) == (WithClock(m', tb, dec), w)
    decreases m.arch.ir
  {
    hide ConfigOk, Fetch32, RaiseMem, InHandler;
    FetchClock(env, m, tb, dec);
    var (m', v) := Fetch32(env, m);
    if v.LoadFault? {
      RaiseMemClock(m', tb, dec, m.cpu.pc, v.fault);
      var e := RaiseMem(m', true, true, m.cpu.pc, v.fault, 0);
      assert m.arch.ir && !e.arch.ir by {
        hide *;
        FaultsOnlyMapped(env, m);
        HandlerUnmapped(m', m.cpu.pc, v.fault);
      }
      FetchLoopClock(env, e, tb, dec);
    }
  }

  lemma FaultsOnlyMapped(env: Env, m: Machine)
    requires ConfigOk(m.arch.cfg)
    ensures Fetch32(env, m).1.LoadFault? ==> m.arch.ir
  {
    hide ConfigOk;
  }

  lemma HandlerUnmapped(m: Machine, addr: Word, fault: Fault)
    ensures !RaiseMem(m, true, true, addr, fault, 0).arch.ir
  {
    hide MemFaultRegs;
  }

  /** The instruction that the next step runs. */
  function NextInst(env: Env, m: Machine, decode: Word -> Inst): Inst
    requires ConfigOk(m.arch.cfg)
  {
    decode(FetchLoop(env, m).1)
  }

  lemma StepClock(env: Env, m: Machine, m': Machine, decode: Word -> Inst)
    requires ConfigOk(m.arch.cfg) && DecodeOk(decode) && SameButClock(m, m') && !ReadsClock(NextInst(env, m, decode))
    ensures ConfigOk(m'.arch.cfg) && SameButClock(Step(env, m, decode), Step(env, m', decode))
    ensures NextInst(env, m', decode) == NextInst(env, m, decode)
  {
    hide ConfigOk, FetchLoop, Exec, ReadsClock, InstOk;
    FetchLoopClock(env, m, m'.cpu.tb, m'.cpu.dec);
    var (f, w) := FetchLoop(env, m);
    ClockIgnored(env, f, WithClock(f, m'.cpu.tb, m'.cpu.dec), decode(w), w);
  }

  /** None of the next `n` steps reads DEC. */
  ghost predicate NoClockReads(env: Env, m: Machine, decode: Word -> Inst, n: nat)
    requires ConfigOk(m.arch.cfg) && DecodeOk(decode)
    decreases n
  {
    n > 0 ==> !ReadsClock(NextInst(env, m, decode)) && NoClockReads(env, Step(env, m, decode), decode, n - 1)
  }

  lemma {:induction false} StepsClock(env: Env, m: Machine, m': Machine, decode: Word -> Inst, n: nat)
    requires ConfigOk(m.arch.cfg) && DecodeOk(decode) && SameButClock(m, m') && NoClockReads(env, m, decode, n)
    ensures ConfigOk(m'.arch.cfg) && NoClockReads(env, m', decode, n)
    ensures SameButClock(Steps(env, m, decode, n), Steps(env, m', decode, n))
    decreases n
  {
    hide ConfigOk, Step, NextInst, SameButClock, DecodeOk, ReadsClock;
    SameConfig(m, m');
    if n > 0 {
      StepClock(env, m, m', decode);
      StepsClock(env, Step(env, m, decode), Step(env, m', decode), decode, n - 1);
    }
  }

  lemma SameConfig(m: Machine, m': Machine)
    requires SameButClock(m, m')
    ensures m'.arch == m.arch
  {
  }

  lemma {:induction false} StepsSplit(env: Env, m: Machine, decode: Word -> Inst, a: nat, b: nat)
    requires ConfigOk(m.arch.cfg) && DecodeOk(decode)
    ensures ConfigOk(Steps(env, m, decode, a).arch.cfg)
    ensures Steps(env, m, decode, a + b) == Steps(env, Steps(env, m, decode, a), decode, b)
    ensures NoClockReads(env, m, decode, a + b) ==>
      NoClockReads(env, m, decode, a) && NoClockReads(env, Steps(env, m, decode, a), decode, b)
    decreases a
  {
    hide ConfigOk, Step, NextInst, DecodeOk, ReadsClock;
    if a > 0 {
      StepsSplit(env, Step(env, m, decode), decode, a - 1, b);
    }
  }
}
