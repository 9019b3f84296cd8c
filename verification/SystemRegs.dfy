/** Moves to and from the special registers, MSR and the registers of the MMU, and what the moved values then do
    (PPCInterpreter_Special.cc). */
module SystemRegs {
  import opened Words
  import opened MmuTypes
  import opened PageWalk
  import opened DirectTlb
  import opened CpuTypes
  import opened Interp
  import opened Translation

  function Moved(m: Machine): Word { (m.cpu.pc + 4) % 0x1_0000_0000 }

  /** mtspr and then mfspr: what was moved to a register is what it holds, and every other holds what it held. */
  lemma SprMoves(env: Env, m: Machine, to: Spr, rs: Reg, from: Spr, rt: Reg)
    requires ConfigOk(m.arch.cfg)
    ensures var after := Exec(env, m, MtSpr(to, rs), 0);
      && after.Next? && ConfigOk(after.m.arch.cfg) && after.m.cpu.gpr == m.cpu.gpr
      && after.m == m.(cpu := after.m.cpu) && after.m.cpu.pc == Moved(m)
      && var read := Exec(env, after.m, MfSpr(rt, from), 0);
         && read.Next? && read.m == after.m.(cpu := after.m.cpu.(gpr := read.m.cpu.gpr, pc := Moved(after.m)))
         && read.m.cpu.gpr == m.cpu.gpr[rt := if from == to then m.cpu.gpr[rs] else Exec(env, m, MfSpr(rt, from), 0).m.cpu.gpr[rt]]
  {
    hide ConfigOk, ReadSpr, WriteSpr;
    OneSpr(m.cpu, to, m.cpu.gpr[rs], from);
  }

  lemma OneSpr(c: Cpu, to: Spr, v: Word, from: Spr)
    ensures var d := WriteSpr(c, to, v);
      d == c.(lr := d.lr, ctr := d.ctr, srr0 := d.srr0, srr1 := d.srr1, dec := d.dec, dar := d.dar, dsisr := d.dsisr)
    ensures ReadSpr(IncPc(WriteSpr(c, to, v)), from) == (if from == to then v else ReadSpr(c, from))
  {
  }

  /** The registers are those that branches, rfi, the clock and exceptions use. */
  lemma SprsAre(env: Env, m: Machine, rs: Reg)
    requires ConfigOk(m.arch.cfg)
    ensures var c, v := m.cpu.(pc := Moved(m)), m.cpu.gpr[rs];
      && Exec(env, m, MtSpr(SprLr, rs), 0) == Next(m.(cpu := c.(lr := v)))
      && Exec(env, m, MtSpr(SprCtr, rs), 0) == Next(m.(cpu := c.(ctr := v)))
      && Exec(env, m, MtSpr(SprSrr0, rs), 0) == Next(m.(cpu := c.(srr0 := v)))
      && Exec(env, m, MtSpr(SprSrr1, rs), 0) == Next(m.(cpu := c.(srr1 := v)))
      && Exec(env, m, MtSpr(SprDec, rs), 0) == Next(m.(cpu := c.(dec := v)))
      && Exec(env, m, MtSpr(SprDar, rs), 0) == Next(m.(cpu := c.(dar := v)))
      && Exec(env, m, MtSpr(SprDsisr, rs), 0) == Next(m.(cpu := c.(dsisr := v)))
  {
    hide ConfigOk, Exec, WriteSpr, IncPc;
    forall to ensures Exec(env, m, MtSpr(to, rs), 0) == Next(m.(cpu := IncPc(WriteSpr(m.cpu, to, m.cpu.gpr[rs])))) {
      SprWrite(env, m, to, rs);
    }
    SprFields(m.cpu, m.cpu.gpr[rs]);
  }

  lemma SprWrite(env: Env, m: Machine, to: Spr, rs: Reg)
    requires ConfigOk(m.arch.cfg)
    ensures Exec(env, m, MtSpr(to, rs), 0) == Next(m.(cpu := IncPc(WriteSpr(m.cpu, to, m.cpu.gpr[rs]))))
  {
    hide ConfigOk, WriteSpr;
  }

  lemma SprFields(c: Cpu, v: Word)
    ensures var d := c.(pc := (c.pc + 4) % 0x1_0000_0000);
      && IncPc(WriteSpr(c, SprLr, v)) == d.(lr := v) && IncPc(WriteSpr(c, SprCtr, v)) == d.(ctr := v)
      && IncPc(WriteSpr(c, SprSrr0, v)) == d.(srr0 := v) && IncPc(WriteSpr(c, SprSrr1, v)) == d.(srr1 := v)
      && IncPc(WriteSpr(c, SprDec, v)) == d.(dec := v) && IncPc(WriteSpr(c, SprDar, v)) == d.(dar := v)
      && IncPc(WriteSpr(c, SprDsisr, v)) == d.(dsisr := v)
  {
  }

  /** mfmsr; and the instructions that only order or invalidate, which change nothing that the model has. */
  lemma MsrRead(env: Env, m: Machine, rt: Reg)
    requires ConfigOk(m.arch.cfg)
    ensures Exec(env, m, MfMsr(rt), 0) == Next(m.(cpu := m.cpu.(gpr := m.cpu.gpr[rt := m.cpu.msr], pc := Moved(m))))
    ensures Exec(env, m, Barrier, 0) == Exec(env, m, TlbInvalidate, 0) == Next(m.(cpu := m.cpu.(pc := Moved(m))))
  {
    hide ConfigOk;
  }

  /** Writing both registers of a BAT, or SDR1 and a segment register, programs the MMU with their values. */
  lemma {:induction false} MmuMoves(env: Env, m: Machine, ind: bool, i: nat, ru: Reg, rl: Reg)
    requires ConfigOk(m.arch.cfg) && i < 4
    ensures var upper := Exec(env, m, MtMmu(if ind then IbatU(i) else DbatU(i), ru), 0);
      && upper.Next? && ConfigOk(upper.m.arch.cfg)
      && Exec(env, upper.m, MtMmu(if ind then IbatL(i) else DbatL(i), rl), 0)
         == Next(m.(cpu := m.cpu.(pc := Moved(upper.m)),
                    arch := WithBat(env.devs, m.arch, ind, i, m.cpu.gpr[ru], m.cpu.gpr[rl])))
  {
    hide ConfigOk, BatWithUpper, BatWithLower;
  }

  lemma {:induction false} TableMoves(env: Env, m: Machine, rt: Reg, rs: Reg, ea: Word)
    requires ConfigOk(m.arch.cfg)
    ensures var table := Exec(env, m, MtMmu(Sdr1, rt), 0);
      && table.Next? && ConfigOk(table.m.arch.cfg)
      && var r := Exec(env, table.m, MtMmu(SegReg(ea / 0x1000_0000), rs), 0);
         && r.Next? && Programmed(r.m.arch.cfg, m.cpu.gpr[rt], m.cpu.gpr[rs], ea)
         && r.m == m.(cpu := m.cpu.(pc := Moved(table.m)), arch := m.arch.(cfg := r.m.arch.cfg))
         && r.m.arch.cfg.ibat == m.arch.cfg.ibat && r.m.arch.cfg.dbat == m.arch.cfg.dbat
         && r.m.arch.cfg.seg == m.arch.cfg.seg[ea / 0x1000_0000 := r.m.arch.cfg.seg[ea / 0x1000_0000]]
  {
    ProgrammedBy(env.devs, m.arch, m.cpu.gpr[rt], m.cpu.gpr[rs], ea);
    hide HtabBase, HtabMask, SegOf;
  }
}
