/** The interpreter as a function on machine states: fetch, execute, exception entry (PPCInterpreter.h, PPCCPUState.cc,
    PPCInterpreter_Branch.cc, _Memory.cc, _Special.cc, _Trap.cc, tools/PPC.csv). Memory is reached by walking from
    scratch; the uTLBs are invisible. */
module Interp {
  import opened Words
  import opened MmuTypes
  import opened PageWalk
  import opened BusMap
  import opened DirectTlb
  import opened DataPath
  import opened CpuTypes
  import opened Alu

  /** The bus, and what a device read answers after the device writes so far. */
  datatype Env = Env(devs: seq<Device>, answer: (seq<(Word, nat, nat)>, Word, nat) -> nat)

  /** `gen`, `resAddr` and `resGen` are exc_generation_count and the reservation; `stop` is want_break. */
  datatype Machine = Machine(cpu: Cpu, arch: Arch, data: Data, gen: nat, resAddr: Word, resGen: nat, stop: bool)

  datatype Ea = Disp(ra: Reg, d: int) | Indexed(ra: Reg, rb: Reg)

  datatype Spr = SprLr | SprCtr | SprSrr0 | SprSrr1 | SprDec | SprDar | SprDsisr

  datatype MmuReg = IbatU(i: nat) | IbatL(i: nat) | DbatU(i: nat) | DbatL(i: nat) | SegReg(i: nat) | Sdr1

  /** A decoded instruction. `LoadZ` and `StoreZ` cover the byte, halfword and word forms with their indexed and update
      variants. */
  datatype Inst =
    | Integer(op: AluOp)
    | LoadZ(rt: Reg, ea: Ea, n: nat, update: bool)
    | StoreZ(rs: Reg, ea: Ea, n: nat, update: bool)
    | Lmw(rt: Reg, ra: Reg, d: int)
    | Stmw(rs: Reg, ra: Reg, d: int)
    | Lwarx(rt: Reg, ra: Reg, rb: Reg)
    | Stwcx(rs: Reg, ra: Reg, rb: Reg)
    | B(li: int, aa: bool, lk: bool)
    | Bc(bo: nat, bi: Reg, bd: int, aa: bool, lk: bool)
    | Bclr(bo: nat, bi: Reg, lk: bool)
    | Bcctr(bo: nat, bi: Reg, lk: bool)
    | Sc
    | Tw(to: nat, ra: Reg, rb: Reg)
    | Rfi
    | Mtmsr(rs: Reg)
    | MfMsr(rt: Reg)
    | MtSpr(spr: Spr, rs: Reg)
    | MfSpr(rt: Reg, spr: Spr)
    | MtMmu(reg: MmuReg, rs: Reg)
    | TlbInvalidate
    | Barrier
    | Unknown

  predicate Sized124(n: nat) { n == 1 || n == 2 || n == 4 }

  /** What the instruction fields can hold: in particular branch displacements are multiples of 4. */
  predicate InstOk(i: Inst) {
    match i
    case Integer(op) => AluOk(op)
    case LoadZ(_, _, n, _) => Sized124(n)
    case StoreZ(_, _, n, _) => Sized124(n)
    case B(li, _, _) => li % 4 == 0
    case Bc(_, _, bd, _, _) => bd % 4 == 0
    case MtMmu(reg, _) => OpOk(ToOp(reg, 0))
    case _ => true
  }

  function ToOp(reg: MmuReg, v: Word): Op {
    match reg
    case IbatU(i) => SetIbatUpper(i, v)
    case IbatL(i) => SetIbatLower(i, v)
    case DbatU(i) => SetDbatUpper(i, v)
    case DbatL(i) => SetDbatLower(i, v)
    case SegReg(i) => SetSegment(i, v)
    case Sdr1 => SetSdr1(v)
  }

  /** What must end a generated block: those of the modelled instructions that the End column of the instruction table marks, and
      the undecoded instruction. */
  predicate Ends(i: Inst) {
    i.B? || i.Bc? || i.Bclr? || i.Bcctr? || i.Sc? || i.Rfi? || i.Mtmsr? || i.TlbInvalidate? || i.Unknown?
  }

  /** Instructions that move the MMU's generation count on. */
  predicate Reconfigures(i: Inst) { i.MtMmu? || i.TlbInvalidate? }

  // ---------------------------------------------------------------- Memory

  predicate Privileged(m: Machine) { !PR(m.cpu.msr) }

  function Translate(env: Env, m: Machine, ea: Word, ind: bool, rnw: bool): (r: (Machine, Outcome))
    requires ConfigOk(m.arch.cfg)
    ensures r.0 == m.(arch := m.arch.(mem := r.0.arch.mem)) && r.1 != Done
  {
    var (a, out) := ScratchTranslate(env.devs, m.arch, Access(ea, ind, rnw, Privileged(m)));
    (m.(arch := a), out)
  }

  datatype Loaded = LoadOk(val: Word) | LoadFault(fault: Fault)

  function Truncate(v: nat, n: nat): Word
    requires Sized124(n)
  {
    if n == 1 then v % 0x100 else if n == 2 then v % 0x10000 else v % WORD_LIMIT
  }

  /** What the devices answer now. */
  function DeviceFn(env: Env, d: Data): (Word, nat) -> nat { (a, k) => env.answer(d.io, a, k) }

  function ReadHost(env: Env, m: Machine, host: nat, n: nat): Word
    requires Sized124(n)
  {
    Truncate(LoadVia(env.devs, m.data, DeviceFn(env, m.data), host, n), n)
  }

  /** load8, load16, load32. */
  function Load(env: Env, m: Machine, ea: Word, n: nat): (r: (Machine, Loaded))
    requires ConfigOk(m.arch.cfg) && Sized124(n)
    ensures r.0 == m.(arch := m.arch.(mem := r.0.arch.mem))
  {
    var (m', out) := Translate(env, m, ea, false, true);
    if out.Faulted? then (m', LoadFault(out.fault))
    else if Misaligned(out.host, n) then (m', LoadFault(AlignFault))
    else (m', LoadOk(ReadHost(env, m', out.host, n)))
  }

  /** store8, store16, store32: the store is done before alignment is looked at. */
  function Store(env: Env, m: Machine, ea: Word, n: nat, v: Word): (r: (Machine, Option<Fault>))
    requires ConfigOk(m.arch.cfg) && Sized124(n)
    ensures r.0 == m.(arch := m.arch.(mem := r.0.arch.mem), data := r.0.data)
  {
    var (m', out) := Translate(env, m, ea, false, false);
    if out.Faulted? then (m', Some(out.fault))
    else
      (m'.(data := StoreVia(env.devs, m'.data, out.host, n, Truncate(v, n))),
       if Misaligned(out.host, n) then Some(AlignFault) else None)
  }

  /** loadInst32: an instruction fetch is not checked for alignment. In real mode it cannot fault. */
  function Fetch32(env: Env, m: Machine): (r: (Machine, Loaded))
    requires ConfigOk(m.arch.cfg)
    ensures r.0 == m.(arch := m.arch.(mem := r.0.arch.mem))
    ensures !m.arch.ir ==> r.1.LoadOk?
  {
    var (m', out) := Translate(env, m, m.cpu.pc, true, true);
    if out.Faulted? then (m', LoadFault(out.fault)) else (m', LoadOk(ReadHost(env, m', out.host, 4)))
  }

  // ---------------------------------------------------------------- Exceptions

  const EXC_DSI: Word := 0x300
  const EXC_ISI: Word := 0x400
  const EXC_IRQ: Word := 0x500
  const EXC_ALIGN: Word := 0x600
  const EXC_PROG: Word := 0x700
  const EXC_DEC: Word := 0x900
  const EXC_SC: Word := 0xc00

  predicate IsVector(v: Word) { v % 4 == 0 && v < 0x1000 }

  /** The state in which every handler starts: aligned PC, translation off, and an MSR with nothing but IP. */
  predicate InHandler(m: Machine) {
    m.cpu.pc % 4 == 0 && !m.arch.ir && !m.arch.dr && (m.cpu.msr == 0 || m.cpu.msr == 0x40)
  }

  /** takeException */
  function TakeException(m: Machine, vector: Word, srr1: Word): (r: Machine)
    requires IsVector(vector)
    ensures InHandler(r) && r == m.(cpu := r.cpu, arch := m.arch.(ir := false, dr := false))
    ensures r.cpu == m.cpu.(pc := r.cpu.pc, msr := r.cpu.msr, srr0 := WordAligned(m.cpu.pc), srr1 := srr1)
    ensures r.cpu.pc == (if IP(m.cpu.msr) then 0xfff0_0000 else 0) + vector && (r.cpu.msr != 0 <==> IP(m.cpu.msr))
  {
    m.(cpu := EntryRegs(m.cpu, vector, srr1), arch := m.arch.(ir := false, dr := false))
  }

  /** The registers at the entry of a handler. */
  function EntryRegs(c: Cpu, vector: Word, srr1: Word): Cpu
    requires IsVector(vector)
  {
    var ip := IP(c.msr);
    c.(srr0 := WordAligned(c.pc), srr1 := srr1, msr := if ip then 0x40 else 0, pc := (if ip then 0xfff0_0000 else 0) + vector)
  }

  /** DSISR for an alignment fault: fields of the instruction, from where its form has them. */
  function AlignDsisr(inst: Word): Word {
    (if inst / 0x8000_0000 % 2 == 1
     then inst / 0x400_0000 % 2 * 0x4000 + inst / 0x800_0000 % 16 * 0x400
     else inst / 2 % 4 * 0x8000 + inst / 0x40 % 2 * 0x4000 + inst / 0x80 % 16 * 0x400)
    + inst / 0x20_0000 % 32 * 0x20 + inst / 0x1_0000 % 32
  }

  function FaultDsisr(rnw: bool, fault: Fault, inst: Word): Word {
    if fault == AlignFault then AlignDsisr(inst)
    else (if fault == PermsFault then 0x800_0000 else 0x4000_0000) + (if rnw then 0 else 0x200_0000)
  }

  /** SRR1 of an instruction storage interrupt: the cause replaces the top five bits. */
  function IsiSrr1(msr: Word, fault: Fault): Word {
    msr % 0x800_0000
    + (if fault == PermsFault then 0x800_0000 else if fault == PermsNX then 0x1000_0000 else 0x4000_0000)
  }

  /** raiseMemException. `inst` is the interpreter's instruction field, which only an alignment fault looks at. */
  function RaiseMem(m: Machine, rnw: bool, ind: bool, addr: Word, fault: Fault, inst: Word): (r: Machine)
    ensures InHandler(r) && r == m.(cpu := r.cpu, arch := m.arch.(ir := false, dr := false))
  {
    m.(cpu := MemFaultRegs(m.cpu, rnw, ind, addr, fault, inst), arch := m.arch.(ir := false, dr := false))
  }

  function MemFaultRegs(c: Cpu, rnw: bool, ind: bool, addr: Word, fault: Fault, inst: Word): Cpu {
    if ind && fault != AlignFault then EntryRegs(c, EXC_ISI, IsiSrr1(c.msr, fault))
    else
      EntryRegs(c.(dar := addr, dsisr := FaultDsisr(rnw, fault, inst)), if fault == AlignFault then EXC_ALIGN else EXC_DSI, c.msr)
  }

  /** raisePROGException */
  function RaiseProg(m: Machine, reason: Word): (r: Machine)
    requires reason == 0x2_0000 || reason == 0x8_0000
    ensures InHandler(r) && r == m.(cpu := r.cpu, arch := m.arch.(ir := false, dr := false))
  {
    TakeException(m, EXC_PROG, ProgSrr1(m.cpu.msr, reason))
  }

  /** `(msr & 0x8000ffff) | reason` */
  function ProgSrr1(msr: Word, reason: Word): Word
    requires reason == 0x2_0000 || reason == 0x8_0000
  {
    msr / 0x8000_0000 * 0x8000_0000 + msr % 0x1_0000 + reason
  }

  // ---------------------------------------------------------------- Instructions

  /** What an instruction leads to: on to the next, or into an exception. `fault` is the one that raised it, if any. */
  datatype Result = Next(m: Machine) | Raised(m: Machine, fault: Option<Fault>)

  function WithCpu(m: Machine, c: Cpu): Machine { m.(cpu := c) }

  function Advance(m: Machine): Machine { m.(cpu := IncPc(m.cpu)) }

  function EaOf(c: Cpu, ea: Ea, update: bool): Word {
    var base := if update then c.gpr[ea.ra] else GprOrZero(c, ea.ra);
    match ea
    case Disp(_, d) => Wrap(base + d)
    case Indexed(_, rb) => Wrap(base + c.gpr[rb])
  }

  /** MFCHECK: a recorded fault becomes an exception. */
  function MemFault(m: Machine, rnw: bool, addr: Word, fault: Fault, inst: Word): (r: Result)
    ensures r.Raised? && InHandler(r.m) && r.m == m.(cpu := r.m.cpu, arch := m.arch.(ir := false, dr := false))
  {
    Raised(RaiseMem(m, rnw, false, addr, fault, inst), Some(fault))
  }

  function ExecLoad(env: Env, m: Machine, rt: Reg, ea: Ea, n: nat, update: bool, inst: Word): Result
    requires ConfigOk(m.arch.cfg) && Sized124(n)
  {
    var addr := EaOf(m.cpu, ea, update);
    var (m', v) := Load(env, m, addr, n);
    match v
    case LoadFault(f) => MemFault(m', true, addr, f, inst)
    case LoadOk(val) =>
      var c := SetGpr(m'.cpu, rt, val);
      Next(Advance(WithCpu(m', if update then SetGpr(c, ea.ra, addr) else c)))
  }

  function ExecStore(env: Env, m: Machine, rs: Reg, ea: Ea, n: nat, update: bool, inst: Word): Result
    requires ConfigOk(m.arch.cfg) && Sized124(n)
  {
    var addr := EaOf(m.cpu, ea, update);
    var (m', f) := Store(env, m, addr, n, m.cpu.gpr[rs]);
    match f
    case Some(fault) => MemFault(m', false, addr, fault, inst)
    case None => Next(Advance(if update then WithCpu(m', SetGpr(m'.cpu, ea.ra, addr)) else m'))
  }

  /** The loop of op_lmw from register `n` and address `base`. */
  function LoadMultiple(env: Env, m: Machine, n: nat, base: Word): (r: (Machine, Option<(Fault, Word)>))
    requires ConfigOk(m.arch.cfg) && n <= 32
    ensures r.0 == m.(arch := m.arch.(mem := r.0.arch.mem), cpu := m.cpu.(gpr := r.0.cpu.gpr))
    decreases 32 - n
  {
    if n == 32 then (m, None)
    else
      var (m', v) := Load(env, m, base, 4);
      match v
      case LoadFault(f) => (m', Some((f, base)))
      case LoadOk(val) => LoadMultiple(env, WithCpu(m', SetGpr(m'.cpu, n, val)), n + 1, Wrap(base + 4))
  }

  /** The loop of op_stmw. */
  function StoreMultiple(env: Env, m: Machine, n: nat, base: Word): (r: (Machine, Option<(Fault, Word)>))
    requires ConfigOk(m.arch.cfg) && n <= 32
    ensures r.0 == m.(arch := m.arch.(mem := r.0.arch.mem), data := r.0.data)
    decreases 32 - n
  {
    if n == 32 then (m, None)
    else
      var (m', f) := Store(env, m, base, 4, m.cpu.gpr[n]);
      match f
      case Some(fault) => (m', Some((fault, base)))
      case None => StoreMultiple(env, m', n + 1, Wrap(base + 4))
  }

  function Multiple(r: (Machine, Option<(Fault, Word)>), rnw: bool, inst: Word): Result {
    if r.1.Some? then MemFault(r.0, rnw, r.1.value.1, r.1.value.0, inst) else Next(Advance(r.0))
  }

  /** op_lwarx: the reservation is taken even if the load faults. */
  function ExecLwarx(env: Env, m: Machine, rt: Reg, ra: Reg, rb: Reg, inst: Word): Result
    requires ConfigOk(m.arch.cfg)
  {
    var addr := EaOf(m.cpu, Indexed(ra, rb), false);
    var (m', v) := Load(env, m, addr, 4);
    var reserved := m'.(resAddr := addr, resGen := m'.gen);
    match v
    case LoadFault(f) => MemFault(reserved, true, addr, f, inst)
    case LoadOk(val) => Next(Advance(WithCpu(reserved, SetGpr(reserved.cpu, rt, val))))
  }

  predicate Reserved(m: Machine, addr: Word) { addr == m.resAddr && m.resGen == m.gen }

  /** op_stwcx. */
  function ExecStwcx(env: Env, m: Machine, rs: Reg, ra: Reg, rb: Reg, inst: Word): Result
    requires ConfigOk(m.arch.cfg)
  {
    var addr := EaOf(m.cpu, Indexed(ra, rb), false);
    var so := if m.cpu.so then 1 else 0;
    if !Reserved(m, addr) then Next(Advance(WithCpu(m.(gen := m.gen + 1), SetCrField(m.cpu, 0, so))))
    else
      var (m', f) := Store(env, m, addr, 4, m.cpu.gpr[rs]);
      match f
      case Some(fault) => MemFault(m', false, addr, fault, inst)
      case None => Next(Advance(WithCpu(m'.(gen := m'.gen + 1), SetCrField(m'.cpu, 0, so + 2))))
  }

  // BO: 0x10 ignore the condition, 0x08 the sense of the condition, 0x04 leave CTR alone, 0x02 branch on CTR zero.
  predicate Condition(c: Cpu, bo: nat, bi: Reg) { bo / 0x10 % 2 == 1 || CrBit(c, bi) == (bo / 8 % 2 == 1) }

  /** The CTR after a bc or bclr, and whether the branch is taken. */
  function BranchOn(c: Cpu, bo: nat, bi: Reg): (Word, bool) {
    if bo / 4 % 2 == 1 then (c.ctr, Condition(c, bo, bi))
    else
      var ctr := Wrap(c.ctr - 1);
      (ctr, Condition(c, bo, bi) && (ctr == 0) == (bo / 2 % 2 == 1))
  }

  function Link(c: Cpu, lk: bool): Cpu { if lk then c.(lr := NextPc(c.pc)) else c }

  function Goto(c: Cpu, taken: bool, dest: Word): Cpu { if taken then c.(pc := dest) else IncPc(c) }

  function Target(c: Cpu, offset: int, aa: bool): Word { Wrap(if aa then offset else c.pc + offset) }

  function ReadSpr(c: Cpu, spr: Spr): Word {
    match spr
    case SprLr => c.lr
    case SprCtr => c.ctr
    case SprSrr0 => c.srr0
    case SprSrr1 => c.srr1
    case SprDec => c.dec
    case SprDar => c.dar
    case SprDsisr => c.dsisr
  }

  function WriteSpr(c: Cpu, spr: Spr, v: Word): Cpu {
    match spr
    case SprLr => c.(lr := v)
    case SprCtr => c.(ctr := v)
    case SprSrr0 => c.(srr0 := v)
    case SprSrr1 => c.(srr1 := v)
    case SprDec => c.(dec := v)
    case SprDar => c.(dar := v)
    case SprDsisr => c.(dsisr := v)
  }

  /** WRITE_MSR: the MMU follows. */
  function WriteMsr(m: Machine, v: Word): Machine {
    m.(cpu := m.cpu.(msr := v), arch := m.arch.(ir := IR(v), dr := DR(v)))
  }

  /** does_trap */
  predicate Traps(to: nat, a: Word, b: Word) {
    || (to / 0x10 % 2 == 1 && Signed(a) < Signed(b)) || (to / 8 % 2 == 1 && Signed(a) > Signed(b))
    || (to / 4 % 2 == 1 && a == b) || (to / 2 % 2 == 1 && a < b) || (to % 2 == 1 && a > b)
  }

  predicate IsMemory(i: Inst) { i.LoadZ? || i.StoreZ? || i.Lmw? || i.Stmw? || i.Lwarx? || i.Stwcx? }

  predicate IsBranch(i: Inst) { i.B? || i.Bc? || i.Bclr? || i.Bcctr? }

  function ExecMemory(env: Env, m: Machine, i: Inst, inst: Word): (r: Result)
    requires ConfigOk(m.arch.cfg) && InstOk(i) && IsMemory(i)
    ensures r.m.arch.cfg == m.arch.cfg
  {
    hide ConfigOk, Load, Store, StoreMultiple, LoadMultiple, EaOf, RaiseMem, MemFault, InHandler, NextPc;
    match i
    case LoadZ(rt, ea, n, update) => ExecLoad(env, m, rt, ea, n, update, inst)
    case StoreZ(rs, ea, n, update) => ExecStore(env, m, rs, ea, n, update, inst)
    case Lmw(rt, ra, d) => Multiple(LoadMultiple(env, m, rt, EaOf(m.cpu, Disp(ra, d), false)), true, inst)
    case Stmw(rs, ra, d) => Multiple(StoreMultiple(env, m, rs, EaOf(m.cpu, Disp(ra, d), false)), false, inst)
    case Lwarx(rt, ra, rb) => ExecLwarx(env, m, rt, ra, rb, inst)
    case Stwcx(rs, ra, rb) => ExecStwcx(env, m, rs, ra, rb, inst)
  }

  function ExecBranch(m: Machine, i: Inst): (r: Result)
    requires IsBranch(i)
    ensures r.m.arch.cfg == m.arch.cfg
  {
    hide BranchOn, Condition, Goto, Link, Target, RaiseProg, WordAligned;
    var c := m.cpu;
    match i
    case B(li, aa, lk) =>
      var dest := Target(c, li, aa);
      Next(WithCpu(m, Link(c, lk).(pc := dest)).(stop := m.stop || dest == c.pc))
    case Bc(bo, bi, bd, aa, lk) =>
      var (ctr, taken) := BranchOn(c, bo, bi);
      Next(WithCpu(m, Goto(Link(c, lk).(ctr := ctr), taken, Target(c, bd, aa))))
    case Bclr(bo, bi, lk) =>
      var (ctr, taken) := BranchOn(c, bo, bi);
      Next(WithCpu(m, Goto(Link(c, lk).(ctr := ctr), taken, WordAligned(c.lr))))
    case Bcctr(bo, bi, lk) =>
      if bo / 4 % 2 == 0 then Raised(RaiseProg(m, 0x8_0000), None)
      else Next(WithCpu(m, Goto(Link(c, lk), Condition(c, bo, bi), WordAligned(c.ctr))))
  }

  function ExecSystem(env: Env, m: Machine, i: Inst): (r: Result)
    requires ConfigOk(m.arch.cfg) && InstOk(i) && !i.Integer? && !IsMemory(i) && !IsBranch(i)
    ensures ConfigOk(r.m.arch.cfg)
  {
    hide ConfigOk, Traps, RaiseProg, TakeException, WordAligned, NextPc, ReadSpr, WriteSpr, ArchStep, IR, DR;
    var c := m.cpu;
    match i
    case Sc => Raised(TakeException(Advance(m), EXC_SC, c.msr), None)
    case Tw(to, ra, rb) =>
      if Traps(to, c.gpr[ra], c.gpr[rb]) then Raised(RaiseProg(m, 0x2_0000), None) else Next(Advance(m))
    case Rfi => Next(WriteMsr(WithCpu(m.(gen := m.gen + 1), c.(pc := WordAligned(c.srr0))), c.srr1))
    case Mtmsr(rs) => Next(Advance(WriteMsr(m, c.gpr[rs])))
    case MfMsr(rt) => Next(Advance(WithCpu(m, SetGpr(c, rt, c.msr))))
    case MtSpr(spr, rs) => Next(Advance(WithCpu(m, WriteSpr(c, spr, c.gpr[rs]))))
    case MfSpr(rt, spr) => Next(Advance(WithCpu(m, SetGpr(c, rt, ReadSpr(c, spr)))))
    case MtMmu(reg, rs) =>
      ConfigStep(env.devs, m.arch, ToOp(reg, c.gpr[rs]));
      Next(Advance(m.(arch := ArchStep(env.devs, m.arch, ToOp(reg, c.gpr[rs])).0)))
    case TlbInvalidate => Next(Advance(m))
    case Barrier => Next(Advance(m))
    case Unknown => Raised(RaiseProg(m, 0x8_0000), None)
  }

  /** One instruction. `inst` is what the interpreter's instruction field holds meanwhile. */
  function Exec(env: Env, m: Machine, i: Inst, inst: Word): (r: Result)
    requires ConfigOk(m.arch.cfg) && InstOk(i)
    ensures ConfigOk(r.m.arch.cfg)
  {
    hide ConfigOk, ExecMemory, ExecBranch, ExecSystem, RunAlu;
    if i.Integer? then Next(WithCpu(m, RunAlu(m.cpu, i.op)))
    else if IsMemory(i) then ExecMemory(env, m, i, inst)
    else if IsBranch(i) then ExecBranch(m, i)
    else ExecSystem(env, m, i)
  }

  // ---------------------------------------------------------------- The interpreter loop

  /** The fetch loop of execute: a faulting fetch enters the exception and is tried again there. */
  function FetchLoop(env: Env, m: Machine): (r: (Machine, Word))
    requires ConfigOk(m.arch.cfg)
    ensures r.0.arch.cfg == m.arch.cfg
    decreases m.arch.ir
  {
    var (m', v) := Fetch32(env, m);
    match v
    case LoadOk(w) => (m', w)
    case LoadFault(f) => FetchLoop(env, RaiseMem(m', true, true, m.cpu.pc, f, 0))
  }

  /** What the decoder promises, whichever instruction words it knows. */
  ghost predicate DecodeOk(decode: Word -> Inst) { forall w :: InstOk(decode(w)) }

  /** PPCInterpreter::execute */
  function Step(env: Env, m: Machine, decode: Word -> Inst): (r: Machine)
    requires ConfigOk(m.arch.cfg) && DecodeOk(decode)
    ensures ConfigOk(r.arch.cfg)
  {
    hide ConfigOk;
    var (m', w) := FetchLoop(env, m);
    Exec(env, m', decode(w), w).m
  }

  // ---------------------------------------------------------------- Ticks and asynchronous exceptions

  const TB_LIMIT: nat := 0x1_0000_0000_0000_0000

  /** CPUTick: the time base counts instructions, and every fourth decrements DEC. */
  function Tick(c: Cpu, t: nat): Cpu {
    var tb := (c.tb + t) % TB_LIMIT;
    c.(tb := tb, dec := if tb % 4 == 0 then Wrap(c.dec - 1) else c.dec)
  }

  predicate IrqPending(c: Cpu) { EE(c.msr) && c.irq }

  predicate DecPending(c: Cpu) { EE(c.msr) && c.dec >= HALF }

  /** What the main loops do after an instruction or a block. */
  function Deliver(m: Machine): (r: Machine)
    ensures r.arch.cfg == m.arch.cfg
  {
    if IrqPending(m.cpu) then TakeException(m, EXC_IRQ, m.cpu.msr)
    else if DecPending(m.cpu) then TakeException(m, EXC_DEC, m.cpu.msr)
    else m
  }

  /** One turn of the interpreter's main loop. */
  function Turn(env: Env, m: Machine, decode: Word -> Inst): (r: Machine)
    requires ConfigOk(m.arch.cfg) && DecodeOk(decode)
    ensures ConfigOk(r.arch.cfg)
  {
    hide ConfigOk, Step;
    var s := Step(env, m, decode);
    Deliver(WithCpu(s, Tick(s.cpu, 1)))
  }

  /** `n` turns. */
  function Turns(env: Env, m: Machine, decode: Word -> Inst, n: nat): (r: Machine)
    requires ConfigOk(m.arch.cfg) && DecodeOk(decode)
    ensures ConfigOk(r.arch.cfg)
  {
    if n == 0 then m else Turn(env, Turns(env, m, decode, n - 1), decode)
  }

  /** Whether the main loop gets through `n` turns, `count` instructions having been counted before: no turn before the
      last has asked for a break or taken the count past the limit, where zero is no limit. */
  ghost predicate KeepsGoing(env: Env, m: Machine, decode: Word -> Inst, count: nat, limit: nat, n: nat)
    requires ConfigOk(m.arch.cfg) && DecodeOk(decode)
  {
    n > 0 ==>
      && KeepsGoing(env, m, decode, count, limit, n - 1)
      && !Turns(env, m, decode, n - 1).stop && (n > 1 ==> limit == 0 || count + n - 1 <= limit)
  }

  lemma {:induction false} OneMoreTurn(env: Env, m: Machine, decode: Word -> Inst, count: nat, limit: nat, n: nat)
    requires ConfigOk(m.arch.cfg) && DecodeOk(decode) && KeepsGoing(env, m, decode, count, limit, n)
    requires !Turns(env, m, decode, n).stop && (n > 0 ==> limit == 0 || count + n <= limit)
    ensures Turns(env, m, decode, n + 1) == Turn(env, Turns(env, m, decode, n), decode)
    ensures KeepsGoing(env, m, decode, count, limit, n + 1)
  {
    hide ConfigOk, Turn, DecodeOk;
  }
}
