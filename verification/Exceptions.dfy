/** What the guest finds in its registers after an exception, of every kind, and after the return from one, in the numbers of the
    architecture (PPCCPUState.cc, PPCCPUState.h, main.cc, PPCInterpreter_Trap.cc, PPCInterpreter_Special.cc). */
module Exceptions {
  import opened Words
  import opened MmuTypes
  import opened PageWalk
  import opened BusMap
  import opened DirectTlb
  import opened DataPath
  import opened CpuTypes
  import opened Interp
  import opened DataAccess
  import opened AluResults

  // MSR: EE 0x8000, PR 0x4000, IP 0x40, IR 0x20, DR 0x10.

  predicate Has(x: nat, bit: nat)
    requires bit > 0
  {
    x / bit % 2 == 1
  }

  /** `e` is at the start of a handler for something that happened to `m`: PC at the vector, high or low as IP says, SRR0 and SRR1
      as given, nothing left of MSR but IP, and translation off. DAR and DSISR apart, the rest is as it was. */
  predicate Entered(m: Machine, e: Machine, vector: Word, srr0: Word, srr1: Word) {
    && e.cpu.pc == (if Has(m.cpu.msr, 0x40) then 0xfff0_0000 else 0) + vector
    && e.cpu.msr == (if Has(m.cpu.msr, 0x40) then 0x40 else 0) && e.cpu.srr0 == srr0 && e.cpu.srr1 == srr1
    && e.arch == m.arch.(ir := false, dr := false)
    && e == m.(arch := e.arch, cpu := m.cpu.(pc := e.cpu.pc, msr := e.cpu.msr, srr0 := srr0, srr1 := srr1,
                                             dar := e.cpu.dar, dsisr := e.cpu.dsisr))
  }

  function Aligned(pc: Word): Word { pc / 4 * 4 }

  lemma AlignedIs(pc: Word)
    ensures WordAligned(pc) == Aligned(pc)
  {
  }

  // ---------------------------------------------------------------- Data storage and alignment

  /** DSISR after a fault of a load or a store. An alignment fault leaves fields of the instruction's word `inst`: bits 11 to 15 and 6
      to 10, and for a form with displacement bits 1 to 4 and 5, for one with an index bits 21 to 24, 25, and 29 and 30. */
  predicate Reports(dsisr: Word, f: Fault, store: bool, inst: Word) {
    match f
    case NoPage => dsisr == if store then 0x4200_0000 else 0x4000_0000
    case PermsFault => dsisr == if store then 0x0a00_0000 else 0x0800_0000
    case AlignFault =>
      && dsisr % 0x20 == inst / 0x1_0000 % 0x20 && dsisr / 0x20 % 0x20 == inst / 0x20_0000 % 0x20
      && (if inst >= 0x8000_0000 then
            dsisr / 0x400 % 0x10 == inst / 0x800_0000 % 0x10 && dsisr / 0x4000 == inst / 0x400_0000 % 2
          else
            dsisr / 0x400 % 0x10 == inst / 0x80 % 0x10 && dsisr / 0x4000 % 2 == inst / 0x40 % 2
            && dsisr / 0x8000 == inst / 2 % 4)
    case _ => false
  }

  lemma AlignReport(inst: Word)
    ensures Reports(AlignDsisr(inst), AlignFault, false, inst) && Reports(AlignDsisr(inst), AlignFault, true, inst)
  {
    var rt, ra := inst / 0x20_0000 % 32, inst / 0x1_0000 % 32;
    var d := inst >= 0x8000_0000;
    var mid := if d then inst / 0x800_0000 % 16 else inst / 0x80 % 16;
    var one := if d then inst / 0x400_0000 % 2 else inst / 0x40 % 2;
    var top := if d then 0 else inst / 2 % 4;
    assert (inst / 0x8000_0000 % 2 == 1) == d;
    FieldsOf(top, one, mid, rt, ra, AlignDsisr(inst));
  }

  lemma FieldsOf(top: nat, one: nat, mid: nat, rt: nat, ra: nat, w: nat)
    requires top < 4 && one < 2 && mid < 16 && rt < 32 && ra < 32
    requires w == top * 0x8000 + one * 0x4000 + mid * 0x400 + rt * 0x20 + ra
    ensures w % 0x20 == ra && w / 0x20 % 0x20 == rt && w / 0x400 % 0x10 == mid && w / 0x4000 == 2 * top + one
    ensures w / 0x4000 % 2 == one && w / 0x8000 == top
  {
    var a := 2 * top + one;
    var b := 16 * a + mid;
    var c := 32 * b + rt;
    assert w == 32 * c + ra;
    assert w / 0x20 == c;
    assert w / 0x400 == c / 32 == b;
    assert w / 0x4000 == b / 16 == a;
    assert w / 0x8000 == a / 2 == top;
  }

  /** What the exception of a load or store that faults leaves. */
  lemma DataEntry(m: Machine, store: bool, addr: Word, f: Fault, inst: Word)
    requires f == NoPage || f == PermsFault || f == AlignFault
    ensures var e := MemFault(m, !store, addr, f, inst).m;
      && Entered(m, e, if f == AlignFault then 0x600 else 0x300, Aligned(m.cpu.pc), m.cpu.msr)
      && e.cpu.dar == addr && Reports(e.cpu.dsisr, f, store, inst)
  {
    AlignReport(inst);
    AlignedIs(m.cpu.pc);
    hide AlignDsisr, WordAligned, Aligned;
  }

  /** A data access faults for want of a page or of permission, a fetch also by a no-execute segment. */
  lemma FaultKinds(env: Env, m: Machine, ea: Word, ind: bool, rnw: bool)
    requires ConfigOk(m.arch.cfg)
    ensures var out := Translate(env, m, ea, ind, rnw).1;
      out.Faulted? ==> out.fault == NoPage || out.fault == PermsFault || (ind && out.fault == PermsNX)
  {
    hide ConfigOk, FirstBat, FindPte, HostOf, Allowed, TouchMem, PagePerms, BlockTarget;
  }

  /** The storage instructions of one access. */
  predicate OneAccess(i: Inst) { i.LoadZ? || i.StoreZ? || i.Lwarx? || i.Stwcx? }

  predicate Stores(i: Inst) { i.StoreZ? || i.Stwcx? }

  function AddressOf(c: Cpu, i: Inst): Word
    requires OneAccess(i)
  {
    if i.LoadZ? then Address(c, i.ea, i.update) else if i.StoreZ? then Address(c, i.ea, i.update)
    else if i.Lwarx? then Address(c, Indexed(i.ra, i.rb), false) else Address(c, Indexed(i.ra, i.rb), false)
  }

  /** A load, store, lwarx or stwcx. that raises: for its translation's fault, or for alignment if that succeeded; what the handler
      finds; and what it has done by then. */
  lemma DataFaultReports(env: Env, m: Machine, i: Inst, inst: Word)
    requires ConfigOk(m.arch.cfg) && InstOk(i) && OneAccess(i) && Exec(env, m, i, inst).Raised?
    ensures var r, addr := Exec(env, m, i, inst), AddressOf(m.cpu, i);
      var (m', out) := Translate(env, m, addr, false, !Stores(i));
      && r.fault.Some?
      && r.fault.value == (if out.Faulted? then out.fault else AlignFault)
      && Entered(m.(arch := m'.arch, data := r.m.data, resAddr := r.m.resAddr, resGen := r.m.resGen), r.m,
                 if r.fault.value == AlignFault then 0x600 else 0x300, Aligned(m.cpu.pc), m.cpu.msr)
      && r.m.cpu.dar == addr && Reports(r.m.cpu.dsisr, r.fault.value, Stores(i), inst)
      && (r.fault.value != AlignFault || !Stores(i) ==> r.m.data == m.data)
  {
    hide ConfigOk, ScratchTranslate, EaOf, Address, MemFault, Entered, Reports, Aligned, InHandler, InstOk, ExecMemory;
    var addr := AddressOf(m.cpu, i);
    FaultKinds(env, m, addr, false, !Stores(i));
    var before, f := RaisedBy(env, m, i, inst);
    DataEntry(before, Stores(i), addr, f, inst);
  }

  /** The machine that raises, and why. */
  lemma RaisedBy(env: Env, m: Machine, i: Inst, inst: Word) returns (before: Machine, f: Fault)
    requires ConfigOk(m.arch.cfg) && InstOk(i) && OneAccess(i) && Exec(env, m, i, inst).Raised?
    ensures var addr := AddressOf(m.cpu, i);
      var (m', out) := Translate(env, m, addr, false, !Stores(i));
      && f == (if out.Faulted? then out.fault else AlignFault)
      && before == m.(arch := m'.arch, data := before.data, resAddr := before.resAddr, resGen := before.resGen)
      && (f != AlignFault || !Stores(i) ==> before.data == m.data)
      && Exec(env, m, i, inst) == MemFault(before, !Stores(i), addr, f, inst)
    ensures var r := Exec(env, m, i, inst).m;
      r.data == before.data && r.resAddr == before.resAddr && r.resGen == before.resGen && Exec(env, m, i, inst).fault == Some(f)
  {
    hide ConfigOk, Translate, EaOf, Address, StoreVia, ReadHost, InHandler, NextPc, RaiseMem, SetCrField;
    var addr := AddressOf(m.cpu, i);
    var (m', out) := Translate(env, m, addr, false, !Stores(i));
    f := if out.Faulted? then out.fault else AlignFault;
    before := m';
    match i
    case LoadZ(_, ea, _, update) => AddressIs(m.cpu, ea, update);
    case StoreZ(rs, ea, n, update) =>
      AddressIs(m.cpu, ea, update);
      before := Store(env, m, addr, n, m.cpu.gpr[rs]).0;
    case Lwarx(_, ra, rb) =>
      AddressIs(m.cpu, Indexed(ra, rb), false);
      before := m'.(resAddr := addr, resGen := m'.gen);
    case Stwcx(rs, ra, rb) =>
      AddressIs(m.cpu, Indexed(ra, rb), false);
      before := Store(env, m, addr, 4, m.cpu.gpr[rs]).0;
  }

  /** An lmw or stmw that raises does so at one of its words. */
  lemma {:induction false} MultipleFaultReports(env: Env, m: Machine, i: Inst, inst: Word) returns (k: nat)
    requires ConfigOk(m.arch.cfg) && (i.Lmw? || i.Stmw?) && Exec(env, m, i, inst).Raised?
    ensures var r := Exec(env, m, i, inst);
      && r.fault.Some? && r.fault.value in {NoPage, PermsFault, AlignFault}
      && Entered(m.(arch := r.m.arch.(ir := m.arch.ir, dr := m.arch.dr), data := r.m.data, cpu := m.cpu.(gpr := r.m.cpu.gpr)), r.m,
                 if r.fault.value == AlignFault then 0x600 else 0x300, Aligned(m.cpu.pc), m.cpu.msr)
      && r.m.cpu.dar == WordAddress(Address(m.cpu, Disp(i.ra, i.d), false), k)
      && k < 32 && Reports(r.m.cpu.dsisr, r.fault.value, i.Stmw?, inst)
  {
    hide ConfigOk, EaOf, Address, MemFault, Entered, Reports, Aligned, InHandler, LoadMultiple, StoreMultiple, NextPc, WordAddress;
    var base := Address(m.cpu, Disp(i.ra, i.d), false);
    AddressIs(m.cpu, Disp(i.ra, i.d), false);
    if i.Lmw? {
      k := LoadFaultsAt(env, m, i.rt, base);
      var (l, f) := LoadMultiple(env, m, i.rt, base);
      RaisedFrame(l, true, f.value.1, f.value.0, inst);
      DataEntry(l, false, f.value.1, f.value.0, inst);
    } else {
      k := StoreFaultsAt(env, m, i.rs, base);
      var (s, f) := StoreMultiple(env, m, i.rs, base);
      RaisedFrame(s, false, f.value.1, f.value.0, inst);
      DataEntry(s, true, f.value.1, f.value.0, inst);
    }
  }

  lemma RaisedFrame(m: Machine, rnw: bool, addr: Word, f: Fault, inst: Word)
    ensures var r := MemFault(m, rnw, addr, f, inst);
      && r.Raised? && r.fault == Some(f) && r.m.cpu.gpr == m.cpu.gpr
      && r.m == m.(cpu := r.m.cpu, arch := m.arch.(ir := false, dr := false))
  {
    hide AlignDsisr, WordAligned, FaultDsisr, IsiSrr1;
  }

  lemma {:induction false} LoadFaultsAt(env: Env, m: Machine, n: nat, base: Word) returns (k: nat)
    requires ConfigOk(m.arch.cfg) && n <= 32 && LoadMultiple(env, m, n, base).1.Some?
    ensures var f := LoadMultiple(env, m, n, base).1.value;
      n + k < 32 && f.1 == WordAddress(base, k) && f.0 in {NoPage, PermsFault, AlignFault}
    decreases 32 - n
  {
    hide ConfigOk, Translate, ReadHost, WordAddress;
    NextAddress(base, 0);
    FaultKinds(env, m, base, false, true);
    var (m', v) := Load(env, m, base, 4);
    k := 0;
    if v.LoadOk? {
      k := LoadFaultsAt(env, WithCpu(m', SetGpr(m'.cpu, n, v.val)), n + 1, Wrap(base + 4));
      NextAddress(base, k);
      k := k + 1;
    }
  }

  lemma {:induction false} StoreFaultsAt(env: Env, m: Machine, n: nat, base: Word) returns (k: nat)
    requires ConfigOk(m.arch.cfg) && n <= 32 && StoreMultiple(env, m, n, base).1.Some?
    ensures var f := StoreMultiple(env, m, n, base).1.value;
      n + k < 32 && f.1 == WordAddress(base, k) && f.0 in {NoPage, PermsFault, AlignFault}
    decreases 32 - n
  {
    hide ConfigOk, Translate, StoreVia, WordAddress;
    NextAddress(base, 0);
    FaultKinds(env, m, base, false, false);
    var (m', f) := Store(env, m, base, 4, m.cpu.gpr[n]);
    k := 0;
    if f.None? {
      k := StoreFaultsAt(env, m', n + 1, Wrap(base + 4));
      NextAddress(base, k);
      k := k + 1;
    }
  }

  // ---------------------------------------------------------------- Instruction storage

  /** SRR1 after a fetch that faulted: the cause in place of the top five bits of MSR. */
  function FetchCause(msr: Word, f: Fault): int {
    msr % 0x800_0000
    + match f case NoPage => 0x4000_0000 case PermsFault => 0x800_0000 case PermsNX => 0x1000_0000 case _ => 0
  }

  /** What an instruction is executed in after a fetch that faulted: the handler, DAR and DSISR being left alone, at its first
      instruction, which is fetched untranslated. */
  lemma {:induction false} FetchFaultReports(env: Env, m: Machine)
    requires ConfigOk(m.arch.cfg) && Fetch32(env, m).1.LoadFault?
    ensures var (m', v) := Fetch32(env, m);
      var (e, w) := FetchLoop(env, m);
      && (v.fault == NoPage || v.fault == PermsFault || v.fault == PermsNX)
      && FetchCause(m.cpu.msr, v.fault) < 0x1_0000_0000
      && Entered(m', e, 0x400, Aligned(m.cpu.pc), FetchCause(m.cpu.msr, v.fault))
      && e.cpu.dar == m.cpu.dar && e.cpu.dsisr == m.cpu.dsisr && w == ReadHost(env, e, HostOf(env.devs, e.cpu.pc), 4)
  {
    hide ConfigOk, Walk, HostOf, ReadHost, Entered, RaiseMem, Aligned, InHandler, FetchCause;
    FaultKinds(env, m, m.cpu.pc, true, true);
    var (m', v) := Fetch32(env, m);
    var e := RaiseMem(m', true, true, m.cpu.pc, v.fault, 0);
    FetchEntryIs(m', v.fault);
    RealFetch(env, e);
  }

  lemma FetchEntryIs(m: Machine, f: Fault)
    requires f == NoPage || f == PermsFault || f == PermsNX
    ensures FetchCause(m.cpu.msr, f) < 0x1_0000_0000
    ensures var e := RaiseMem(m, true, true, m.cpu.pc, f, 0);
      && Entered(m, e, 0x400, Aligned(m.cpu.pc), FetchCause(m.cpu.msr, f))
      && e.cpu.dar == m.cpu.dar && e.cpu.dsisr == m.cpu.dsisr && !e.arch.ir && e.arch.cfg == m.arch.cfg
  {
    AlignedIs(m.cpu.pc);
    hide WordAligned, Aligned;
  }

  lemma {:induction false} RealFetch(env: Env, e: Machine)
    requires ConfigOk(e.arch.cfg) && !e.arch.ir
    ensures FetchLoop(env, e) == (e, ReadHost(env, e, HostOf(env.devs, e.cpu.pc), 4))
  {
    hide ConfigOk, HostOf, ReadHost;
  }

  // ---------------------------------------------------------------- System call, trap, illegal instruction

  lemma SystemCallReports(env: Env, m: Machine)
    requires ConfigOk(m.arch.cfg)
    ensures var r := Exec(env, m, Sc, 0);
      && r.Raised? && Entered(m, r.m, 0xc00, Aligned((m.cpu.pc + 4) % 0x1_0000_0000), m.cpu.msr)
      && r.m.cpu.dar == m.cpu.dar && r.m.cpu.dsisr == m.cpu.dsisr
  {
    hide ConfigOk, Aligned, WordAligned;
    AlignedIs(NextPc(m.cpu.pc));
  }

  /** A program exception: SRR1 has bit 0 and the low half of MSR, and the reason. */
  predicate ProgramException(m: Machine, e: Machine, reason: Word) {
    var srr1 := m.cpu.msr / 0x8000_0000 * 0x8000_0000 + m.cpu.msr % 0x1_0000 + reason;
    && srr1 < 0x1_0000_0000 && Entered(m, e, 0x700, Aligned(m.cpu.pc), srr1)
    && e.cpu.dar == m.cpu.dar && e.cpu.dsisr == m.cpu.dsisr
  }

  lemma ProgramIs(m: Machine, reason: Word)
    requires reason == 0x2_0000 || reason == 0x8_0000
    ensures ProgramException(m, RaiseProg(m, reason), reason)
  {
    hide Aligned, WordAligned;
    AlignedIs(m.cpu.pc);
  }

  /** What tw compares, signed or not, and that it is a trap or nothing. */
  lemma TrapReports(env: Env, m: Machine, to: nat, ra: Reg, rb: Reg)
    requires ConfigOk(m.arch.cfg)
    ensures var r := Exec(env, m, Tw(to, ra, rb), 0);
      var a, b := m.cpu.gpr[ra], m.cpu.gpr[rb];
      var x, y := TwosComplement(a), TwosComplement(b);
      if || (Has(to, 0x10) && x < y) || (Has(to, 8) && x > y)
         || (Has(to, 4) && a == b) || (Has(to, 2) && a < b) || (Has(to, 1) && a > b)
      then r.Raised? && ProgramException(m, r.m, 0x2_0000)
      else r == Next(m.(cpu := m.cpu.(pc := (m.cpu.pc + 4) % 0x1_0000_0000)))
  {
    hide ConfigOk, ProgramException, RaiseProg, InHandler;
    ProgramIs(m, 0x2_0000);
  }

  /** An instruction that is not decoded, and a bcctr that would count. */
  lemma IllegalReports(env: Env, m: Machine, i: Inst)
    requires ConfigOk(m.arch.cfg) && (i.Unknown? || (i.Bcctr? && !Has(i.bo, 4)))
    ensures var r := Exec(env, m, i, 0); r.Raised? && ProgramException(m, r.m, 0x8_0000)
  {
    hide ConfigOk, ProgramException, RaiseProg, InHandler, WordAligned;
    ProgramIs(m, 0x8_0000);
  }

  // ---------------------------------------------------------------- Returning, and MSR

  /** rfi and mtmsr: the new MSR in full, and with it the two translation modes. */
  lemma ReturnRestores(env: Env, m: Machine)
    requires ConfigOk(m.arch.cfg)
    ensures var s := m.cpu.srr1;
      Exec(env, m, Rfi, 0)
      == Next(m.(cpu := m.cpu.(pc := m.cpu.srr0 / 4 * 4, msr := s), arch := m.arch.(ir := Has(s, 0x20), dr := Has(s, 0x10)),
                 gen := m.gen + 1))
  {
    hide ConfigOk, WordAligned;
    AlignedIs(m.cpu.srr0);
  }

  lemma MsrWritten(env: Env, m: Machine, rs: Reg)
    requires ConfigOk(m.arch.cfg)
    ensures var v := m.cpu.gpr[rs];
      Exec(env, m, Mtmsr(rs), 0)
      == Next(m.(cpu := m.cpu.(pc := (m.cpu.pc + 4) % 0x1_0000_0000, msr := v),
                 arch := m.arch.(ir := Has(v, 0x20), dr := Has(v, 0x10))))
  {
    hide ConfigOk;
  }

  /** Accesses are made with the privilege of MSR. */
  lemma PrivilegeOf(env: Env, m: Machine, ea: Word, ind: bool, rnw: bool)
    requires ConfigOk(m.arch.cfg)
    ensures var (a, out) := ScratchTranslate(env.devs, m.arch, Access(ea, ind, rnw, !Has(m.cpu.msr, 0x4000)));
      Translate(env, m, ea, ind, rnw) == (m.(arch := a), out)
  {
    hide ConfigOk, ScratchTranslate;
  }

  // ---------------------------------------------------------------- A turn of the main loop

  /** After its instruction a turn counts one instruction of time, and every fourth takes one off DEC; then, if MSR permits, an
      interrupt is taken, or else a decrementer that is negative by then. */
  lemma TurnDelivers(env: Env, m: Machine, decode: Word -> Inst)
    requires ConfigOk(m.arch.cfg) && DecodeOk(decode)
    ensures var s := Step(env, m, decode);
      var tb := (s.cpu.tb + 1) % 0x1_0000_0000_0000_0000;
      var dec := if tb % 4 == 0 then (s.cpu.dec - 1) % 0x1_0000_0000 else s.cpu.dec;
      var ticked, t := s.(cpu := s.cpu.(tb := tb, dec := dec)), Turn(env, m, decode);
      if Has(s.cpu.msr, 0x8000) && (s.cpu.irq || dec >= 0x8000_0000) then
        && Entered(ticked, t, if s.cpu.irq then 0x500 else 0x900, Aligned(s.cpu.pc), s.cpu.msr)
        && t.cpu.dar == s.cpu.dar && t.cpu.dsisr == s.cpu.dsisr
      else t == ticked
  {
    hide ConfigOk, Step, DecodeOk, WordAligned, Aligned;
    AlignedIs(Step(env, m, decode).cpu.pc);
  }

  /** The clock after `n` single ticks. */
  function Ticked(c: Cpu, n: nat): Cpu { if n == 0 then c else Tick(Ticked(c, n - 1), 1) }

  /** TB has gone up by n, and DEC down by the number of multiples of four that it has reached. */
  lemma {:induction false} TicksCount(c: Cpu, n: nat)
    requires c.tb + n < 0x1_0000_0000_0000_0000
    ensures Ticked(c, n) == c.(tb := c.tb + n, dec := (c.dec - ((c.tb + n) / 4 - c.tb / 4)) % 0x1_0000_0000)
  {
    hide Tick;
    if n == 0 {
      assert c.dec % 0x1_0000_0000 == c.dec;
    } else {
      TicksCount(c, n - 1);
      OneTick(c, n - 1);
    }
  }

  lemma OneTick(c: Cpu, n: nat)
    requires c.tb + n + 1 < 0x1_0000_0000_0000_0000
    ensures var dec := (c.dec - ((c.tb + n) / 4 - c.tb / 4)) % 0x1_0000_0000;
      Tick(c.(tb := c.tb + n, dec := dec), 1)
      == c.(tb := c.tb + n + 1, dec := (c.dec - ((c.tb + n + 1) / 4 - c.tb / 4)) % 0x1_0000_0000)
  {
    var t := c.tb + n + 1;
    assert t / 4 == (t - 1) / 4 + (if t % 4 == 0 then 1 else 0);
    BorrowOn(c.dec - ((t - 1) / 4 - c.tb / 4));
  }

  lemma BorrowOn(x: int)
    ensures (x % 0x1_0000_0000 - 1) % 0x1_0000_0000 == (x - 1) % 0x1_0000_0000
  {
  }
}
