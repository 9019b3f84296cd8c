/** lmw and stmw: restart after a fault, and the round trip (PPCInterpreter_Memory.cc). */
module Multiples {
  import opened Words
  import opened MmuTypes
  import opened PageWalk
  import opened WalkSpec
  import opened BusMap
  import opened DirectTlb
  import opened DataPath
  import opened CpuTypes
  import opened Interp
  import opened CpuRuns

  // ---------------------------------------------------------------- Data accesses add R and C bits only

  lemma AccessGrows(env: Env, m: Machine, ea: Word, rnw: bool)
    requires ConfigOk(m.arch.cfg)
    ensures OnlyRCGrew(m.arch.mem, Translate(env, m, ea, false, rnw).0.arch.mem)
  {
    hide Walk, ConfigOk, OnlyRCGrew, HostOf;
    WalkGrowsRC(m.arch.cfg, m.arch.dr, m.arch.mem, ea, false, rnw, Privileged(m));
    GrewSelf(m.arch.mem);
  }

  lemma {:induction false} LoadMultipleGrows(env: Env, m: Machine, n: nat, base: Word)
    requires ConfigOk(m.arch.cfg) && n <= 32
    ensures OnlyRCGrew(m.arch.mem, LoadMultiple(env, m, n, base).0.arch.mem)
    decreases 32 - n
  {
    hide Translate, ConfigOk, OnlyRCGrew, ReadHost;
    GrewSelf(m.arch.mem);
    if n < 32 {
      AccessGrows(env, m, base, true);
      var (m', v) := Load(env, m, base, 4);
      if v.LoadOk? {
        var next := WithCpu(m', SetGpr(m'.cpu, n, v.val));
        LoadMultipleGrows(env, next, n + 1, Wrap(base + 4));
        OnlyRCGrewTrans(m.arch.mem, next.arch.mem, LoadMultiple(env, next, n + 1, Wrap(base + 4)).0.arch.mem);
      }
    }
  }

  lemma {:induction false} StoreMultipleGrows(env: Env, m: Machine, n: nat, base: Word)
    requires ConfigOk(m.arch.cfg) && n <= 32
    ensures OnlyRCGrew(m.arch.mem, StoreMultiple(env, m, n, base).0.arch.mem)
    decreases 32 - n
  {
    hide Translate, ConfigOk, OnlyRCGrew;
    GrewSelf(m.arch.mem);
    if n < 32 {
      AccessGrows(env, m, base, false);
      var (m', f) := Store(env, m, base, 4, m.cpu.gpr[n]);
      if f.None? {
        StoreMultipleGrows(env, m', n + 1, Wrap(base + 4));
        OnlyRCGrewTrans(m.arch.mem, m'.arch.mem, StoreMultiple(env, m', n + 1, Wrap(base + 4)).0.arch.mem);
      }
    }
  }

  // ---------------------------------------------------------------- lmw again

  predicate SameBelow(g: Gprs, g': Gprs, n: nat)
    requires n <= 32
  {
    forall i :: 0 <= i < n ==> g[i] == g'[i]
  }

  /** Loading registers `n` to 31 looks at no register, so two machines that differ in those registers only fault alike,
      and agree afterwards if they do not fault. */
  lemma {:induction false} LoadIgnoresTargets(env: Env, m: Machine, g: Gprs, n: nat, base: Word)
    requires ConfigOk(m.arch.cfg) && n <= 32 && SameBelow(m.cpu.gpr, g, n)
    ensures var (m1, f1) := LoadMultiple(env, m, n, base);
      var (m2, f2) := LoadMultiple(env, WithGprs(m, g), n, base);
      f1 == f2 && WithGprs(m2, m1.cpu.gpr) == m1 && (f1 == None ==> m1 == m2)
    decreases 32 - n
  {
    hide ConfigOk, Translate, ReadHost;
    if n == 32 {
      assert m.cpu.gpr == g;
    } else {
      LoadIgnoresGprs(env, m, g, base);
      var (m', v) := Load(env, m, base, 4);
      if v.LoadOk? {
        LoadIgnoresTargets(env, WithCpu(m', SetGpr(m'.cpu, n, v.val)), g[n := v.val], n + 1, Wrap(base + 4));
      }
    }
  }

  function WithGprs(m: Machine, g: Gprs): Machine { m.(cpu := m.cpu.(gpr := g)) }

  lemma LoadIgnoresGprs(env: Env, m: Machine, g: Gprs, ea: Word)
    requires ConfigOk(m.arch.cfg)
    ensures var (m1, v1) := Load(env, m, ea, 4); Load(env, WithGprs(m, g), ea, 4) == (WithGprs(m1, g), v1)
  {
    hide ConfigOk, ScratchTranslate;
  }

  lemma {:induction false} LoadKeepsBelow(env: Env, m: Machine, n: nat, base: Word)
    requires ConfigOk(m.arch.cfg) && n <= 32
    ensures SameBelow(LoadMultiple(env, m, n, base).0.cpu.gpr, m.cpu.gpr, n)
    decreases 32 - n
  {
    hide ConfigOk, Load;
    if n < 32 {
      var (m', v) := Load(env, m, base, 4);
      if v.LoadOk? {
        LoadKeepsBelow(env, WithCpu(m', SetGpr(m'.cpu, n, v.val)), n + 1, Wrap(base + 4));
      }
    }
  }

  /** An lmw that faulted at any register and is executed again, on whatever memory map and with whatever special registers,
      but with the general registers as the fault left them, ends as an lmw with the registers from before the fault would:
      provided the partial loads left its base register alone. */
  lemma LmwRestarts(env: Env, m: Machine, m': Machine, rt: Reg, ra: Reg, d: int, inst: Word, inst': Word)
    requires ConfigOk(m.arch.cfg) && ConfigOk(m'.arch.cfg) && Exec(env, m, Lmw(rt, ra, d), inst).Raised?
    requires m'.cpu.gpr == Exec(env, m, Lmw(rt, ra, d), inst).m.cpu.gpr
    requires GprOrZero(m'.cpu, ra) == GprOrZero(m.cpu, ra)
    ensures var again := Exec(env, m', Lmw(rt, ra, d), inst');
      var unfaulted := Exec(env, WithGprs(m', m.cpu.gpr), Lmw(rt, ra, d), inst');
      again.Next? == unfaulted.Next? && (unfaulted.Next? ==> again == unfaulted)
  {
    hide ConfigOk, LoadMultiple, MemFault, WordAligned, NextPc;
    var base := EaOf(m.cpu, Disp(ra, d), false);
    var (m1, f) := LoadMultiple(env, m, rt, base);
    FaultEntry(m1, true, f.value.1, f.value.0, inst);
    LoadKeepsBelow(env, m, rt, base);
    LoadIgnoresTargets(env, m', m.cpu.gpr, rt, base);
  }

  /** Where a data fault enters its handler, and with which registers. */
  lemma FaultEntry(m: Machine, rnw: bool, addr: Word, fault: Fault, inst: Word)
    ensures var e := MemFault(m, rnw, addr, fault, inst).m;
      e.cpu.srr0 == WordAligned(m.cpu.pc) && e.cpu.srr1 == m.cpu.msr && e.cpu.gpr == m.cpu.gpr && e.data == m.data
  {
    hide AlignDsisr, WordAligned;
  }

  /** It did, when RA is 0 or not one of the registers loaded. */
  lemma BaseIsKept(env: Env, m: Machine, rt: Reg, ra: Reg, d: int, inst: Word)
    requires ConfigOk(m.arch.cfg) && (ra == 0 || ra < rt)
    ensures GprOrZero(Exec(env, m, Lmw(rt, ra, d), inst).m.cpu, ra) == GprOrZero(m.cpu, ra)
  {
    hide ConfigOk, LoadMultiple, MemFault, WordAligned, NextPc, EaOf;
    var base := EaOf(m.cpu, Disp(ra, d), false);
    LoadKeepsBelow(env, m, rt, base);
    var (m1, f) := LoadMultiple(env, m, rt, base);
    if f.Some? {
      FaultEntry(m1, true, f.value.1, f.value.0, inst);
    }
  }

  // ---------------------------------------------------------------- The stores of an stmw

  /** The host addresses that storing registers `n` to 31 from `base` on writes, up to a fault. */
  function StoreHosts(env: Env, m: Machine, n: nat, base: Word): (r: seq<nat>)
    requires ConfigOk(m.arch.cfg) && n <= 32
    ensures |r| <= 32 - n
    decreases 32 - n
  {
    if n == 32 then []
    else
      var (m', out) := Translate(env, m, base, false, false);
      if out.Faulted? then []
      else if Misaligned(out.host, 4) then [out.host]
      else [out.host] + StoreHosts(env, m', n + 1, Wrap(base + 4))
  }

  /** Data after those stores. */
  function StoreAll(devs: seq<Device>, d: Data, hosts: seq<nat>, g: Gprs, n: nat): Data
    requires n + |hosts| <= 32
    decreases |hosts|
  {
    if hosts == [] then d else StoreAll(devs, StoreVia(devs, d, hosts[0], 4, g[n]), hosts[1..], g, n + 1)
  }

  lemma TranslateIgnoresData(env: Env, m: Machine, d: Data, ea: Word, ind: bool, rnw: bool)
    requires ConfigOk(m.arch.cfg)
    ensures var (m1, out) := Translate(env, m, ea, ind, rnw); Translate(env, m.(data := d), ea, ind, rnw) == (m1.(data := d), out)
  {
    hide ConfigOk, ScratchTranslate;
  }

  lemma {:induction false} HostsIgnoreData(env: Env, m: Machine, d: Data, n: nat, base: Word)
    requires ConfigOk(m.arch.cfg) && n <= 32
    ensures StoreHosts(env, m.(data := d), n, base) == StoreHosts(env, m, n, base)
    decreases 32 - n
  {
    hide ConfigOk, Translate;
    if n < 32 {
      TranslateIgnoresData(env, m, d, base, false, false);
      var (m', out) := Translate(env, m, base, false, false);
      HostsIgnoreData(env, m', d, n + 1, Wrap(base + 4));
    }
  }

  /** An stmw stores to those addresses; everything else about it does not depend on the data. */
  lemma {:induction false} StoreMultipleStores(env: Env, m: Machine, n: nat, base: Word)
    requires ConfigOk(m.arch.cfg) && n <= 32
    ensures StoreMultiple(env, m, n, base).0.data == StoreAll(env.devs, m.data, StoreHosts(env, m, n, base), m.cpu.gpr, n)
    decreases 32 - n
  {
    hide ConfigOk, Translate, StoreVia;
    if n < 32 {
      var (m', out) := Translate(env, m, base, false, false);
      if out.Translated? {
        WholeWord(m.cpu.gpr[n]);
        var d := StoreVia(env.devs, m'.data, out.host, 4, m.cpu.gpr[n]);
        if Misaligned(out.host, 4) {
          assert [out.host][1..] == [];
        } else {
          StoreMultipleStores(env, m'.(data := d), n + 1, Wrap(base + 4));
          HostsIgnoreData(env, m', d, n + 1, Wrap(base + 4));
          var rest := StoreHosts(env, m', n + 1, Wrap(base + 4));
          assert ([out.host] + rest)[1..] == rest;
        }
      }
    }
  }

  lemma WholeWord(w: Word)
    ensures Truncate(w, 4) == w
  {
  }

  // ---------------------------------------------------------------- Storing twice

  predicate AllDirect(hosts: seq<nat>) { forall i :: 0 <= i < |hosts| ==> IsDirect(hosts[i]) }

  /** The stores on host memory, when they all go straight there. */
  function PutAll(h: HostMem, hosts: seq<nat>, g: Gprs, n: nat): HostMem
    requires n + |hosts| <= 32
    decreases |hosts|
  {
    if hosts == [] then h else PutAll(Put(h, hosts[0], 4, g[n]), hosts[1..], g, n + 1)
  }

  lemma {:induction false} DirectStores(devs: seq<Device>, d: Data, hosts: seq<nat>, g: Gprs, n: nat)
    requires n + |hosts| <= 32 && AllDirect(hosts)
    ensures StoreAll(devs, d, hosts, g, n) == d.(host := PutAll(d.host, hosts, g, n))
    decreases |hosts|
  {
    hide Put, IsDirect;
    if hosts != [] {
      DirectStores(devs, StoreVia(devs, d, hosts[0], 4, g[n]), hosts[1..], g, n + 1);
    }
  }

  predicate Covers(a: nat, b: nat) { a <= b < a + 4 }

  predicate Written(hosts: seq<nat>, b: nat) { exists i :: 0 <= i < |hosts| && Covers(hosts[i], b) }

  /** A byte of a map, with its presence. */
  function Cell(h: HostMem, b: nat): Option<Byte> { if b in h then Some(h[b]) else None }

  lemma {:induction false} PutCell(h: HostMem, h': HostMem, a: nat, n: nat, v: nat, b: nat)
    ensures (a <= b < a + n) ==> Cell(Put(h, a, n, v), b) == Cell(Put(h', a, n, v), b)
    ensures !(a <= b < a + n) ==> Cell(Put(h, a, n, v), b) == Cell(h, b)
  {
    if n > 0 {
      PutCell(h, h', a, n - 1, v / 256, b);
    }
  }

  lemma {:induction false} PutAllCell(h: HostMem, h': HostMem, hosts: seq<nat>, g: Gprs, n: nat, b: nat)
    requires n + |hosts| <= 32
    ensures Written(hosts, b) || Cell(h, b) == Cell(h', b) ==> Cell(PutAll(h, hosts, g, n), b) == Cell(PutAll(h', hosts, g, n), b)
    ensures !Written(hosts, b) ==> Cell(PutAll(h, hosts, g, n), b) == Cell(h, b)
    decreases |hosts|
  {
    hide Put, Cell;
    if hosts != [] {
      var rest := hosts[1..];
      PutCell(h, h', hosts[0], 4, g[n], b);
      PutCell(h', h, hosts[0], 4, g[n], b);
      PutAllCell(Put(h, hosts[0], 4, g[n]), Put(h', hosts[0], 4, g[n]), rest, g, n + 1, b);
      WrittenSplit(hosts, b);
    }
  }

  lemma WrittenSplit(hosts: seq<nat>, b: nat)
    requires hosts != []
    ensures Written(hosts, b) <==> Covers(hosts[0], b) || Written(hosts[1..], b)
  {
    if Written(hosts, b) {
      var i :| 0 <= i < |hosts| && Covers(hosts[i], b);
      assert i > 0 ==> hosts[1..][i - 1] == hosts[i];
    }
    if Written(hosts[1..], b) {
      var i :| 0 <= i < |hosts[1..]| && Covers(hosts[1..][i], b);
      assert hosts[i + 1] == hosts[1..][i];
    }
  }

  lemma SameCells(h: HostMem, h': HostMem)
    requires forall b :: Cell(h, b) == Cell(h', b)
    ensures h == h'
  {
    forall b ensures b in h <==> b in h' {
      assert Cell(h, b) == Cell(h', b);
    }
    forall b | b in h ensures h[b] == h'[b] {
      assert Cell(h, b) == Cell(h', b);
    }
  }

  /** Storing a list of words twice is storing it once. */
  lemma {:induction false} StoringTwice(h: HostMem, hosts: seq<nat>, g: Gprs, n: nat)
    requires n + |hosts| <= 32
    ensures PutAll(PutAll(h, hosts, g, n), hosts, g, n) == PutAll(h, hosts, g, n)
  {
    hide Cell, PutAll, Written;
    var once := PutAll(h, hosts, g, n);
    forall b ensures Cell(PutAll(once, hosts, g, n), b) == Cell(once, b) {
      PutAllCell(once, h, hosts, g, n, b);
    }
    SameCells(PutAll(once, hosts, g, n), once);
  }

  lemma {:induction false} StoreAllSplit(devs: seq<Device>, d: Data, first: seq<nat>, rest: seq<nat>, g: Gprs, n: nat)
    requires n + |first| + |rest| <= 32
    ensures StoreAll(devs, d, first + rest, g, n) == StoreAll(devs, StoreAll(devs, d, first, g, n), rest, g, n + |first|)
    decreases |first|
  {
    hide StoreVia;
    if first == [] {
      assert first + rest == rest;
    } else {
      assert (first + rest)[1..] == first[1..] + rest;
      StoreAllSplit(devs, StoreVia(devs, d, first[0], 4, g[n]), first[1..], rest, g, n + 1);
    }
  }

  /** Storing a list of words over what its first part left is storing it over the original, when the first part is in
      memory. */
  lemma {:induction false} StoringAgain(devs: seq<Device>, d: Data, done: seq<nat>, hosts: seq<nat>, g: Gprs, n: nat)
    requires n + |hosts| <= 32 && done <= hosts && AllDirect(done)
    ensures StoreAll(devs, StoreAll(devs, d, done, g, n), hosts, g, n) == StoreAll(devs, d, hosts, g, n)
  {
    hide IsDirect, StoreAll, PutAll;
    var rest := hosts[|done|..];
    assert hosts == done + rest;
    var once := StoreAll(devs, d, done, g, n);
    DirectStores(devs, d, done, g, n);
    DirectStores(devs, once, done, g, n);
    StoringTwice(d.host, done, g, n);
    StoreAllSplit(devs, d, done, rest, g, n);
    StoreAllSplit(devs, once, done, rest, g, n);
  }

  /** An stmw that faulted and is executed again with the same general registers and data leaves what one that never faulted
      would, when the stores it had done went to memory rather than devices and translate as they did. Nothing is asked
      of the special registers or of the rest of the memory map. */
  lemma {:induction false} StmwRestarts(env: Env, m: Machine, m': Machine, rs: Reg, ra: Reg, d: int, inst: Word, inst': Word)
    requires ConfigOk(m.arch.cfg) && ConfigOk(m'.arch.cfg) && m'.cpu.gpr == m.cpu.gpr
    ensures SameStores(env, m, m', rs, ra, d, inst) ==>
      Exec(env, m', Stmw(rs, ra, d), inst') == Exec(env, m'.(data := m.data), Stmw(rs, ra, d), inst')
  {
    hide ConfigOk, Exec, SameStores;
    if SameStores(env, m, m', rs, ra, d, inst) {
      StoresOver(env, m, m', rs, ra, d, inst, inst');
    }
  }

  /** An stmw of `m` faults; `m'` has the data it left, and the stores it had done went to memory and would go there again. */
  ghost predicate SameStores(env: Env, m: Machine, m': Machine, rs: Reg, ra: Reg, d: int, inst: Word)
    requires ConfigOk(m.arch.cfg) && ConfigOk(m'.arch.cfg)
  {
    var base := EaOf(m.cpu, Disp(ra, d), false);
    && Exec(env, m, Stmw(rs, ra, d), inst).Raised? && m'.data == Exec(env, m, Stmw(rs, ra, d), inst).m.data
    && AllDirect(StoreHosts(env, m, rs, base)) && StoreHosts(env, m, rs, base) <= StoreHosts(env, m', rs, base)
  }

  lemma {:induction false} StoresOver(env: Env, m: Machine, m': Machine, rs: Reg, ra: Reg, d: int, inst: Word, inst': Word)
    requires ConfigOk(m.arch.cfg) && ConfigOk(m'.arch.cfg) && m'.cpu.gpr == m.cpu.gpr && SameStores(env, m, m', rs, ra, d, inst)
    ensures Exec(env, m', Stmw(rs, ra, d), inst') == Exec(env, m'.(data := m.data), Stmw(rs, ra, d), inst')
  {
    hide ConfigOk, StoreMultiple, StoreHosts, MemFault, WordAligned, NextPc, StoreAll, IsDirect, AllDirect;
    var base := EaOf(m.cpu, Disp(ra, d), false);
    var (m1, f) := StoreMultiple(env, m, rs, base);
    FaultEntry(m1, false, f.value.1, f.value.0, inst);
    var done, hosts := StoreHosts(env, m, rs, base), StoreHosts(env, m', rs, base);
    StoreMultipleStores(env, m, rs, base);
    SameStmw(env, m', m.data, rs, base);
    StoreMultipleStores(env, m', rs, base);
    StoreMultipleStores(env, m'.(data := m.data), rs, base);
    HostsIgnoreData(env, m', m.data, rs, base);
    StoringAgain(env.devs, m.data, done, hosts, m.cpu.gpr, rs);
  }

  /** Apart from the data it leaves, an stmw does not depend on the data it finds. */
  lemma {:induction false} SameStmw(env: Env, m: Machine, d: Data, n: nat, base: Word)
    requires ConfigOk(m.arch.cfg) && n <= 32
    ensures var (m1, f1) := StoreMultiple(env, m, n, base);
      var (m2, f2) := StoreMultiple(env, m.(data := d), n, base);
      f1 == f2 && m1 == m2.(data := m1.data)
    decreases 32 - n
  {
    hide ConfigOk, Translate, StoreVia;
    if n < 32 {
      TranslateIgnoresData(env, m, d, base, false, false);
      var (m1, f1) := Store(env, m, base, 4, m.cpu.gpr[n]);
      var (m2, f2) := Store(env, m.(data := d), base, 4, m.cpu.gpr[n]);
      if f1.None? {
        SameStmw(env, m1, m2.data, n + 1, Wrap(base + 4));
      }
    }
  }

  // ---------------------------------------------------------------- Fault, handler, rfi, and again

  /** Where an lmw or stmw that faults leaves the interrupted context. */
  lemma MultipleFaults(env: Env, m: Machine, i: Inst, inst: Word)
    requires ConfigOk(m.arch.cfg) && (i.Lmw? || i.Stmw?) && Exec(env, m, i, inst).Raised?
    ensures var e := Exec(env, m, i, inst).m.cpu; e.srr0 == WordAligned(m.cpu.pc) && e.srr1 == m.cpu.msr
    ensures i.Stmw? ==> Exec(env, m, i, inst).m.cpu.gpr == m.cpu.gpr
  {
    hide ConfigOk, LoadMultiple, StoreMultiple, MemFault, WordAligned, NextPc, EaOf;
    var (m1, f) := if i.Lmw? then LoadMultiple(env, m, i.rt, EaOf(m.cpu, Disp(i.ra, i.d), false))
                   else StoreMultiple(env, m, i.rs, EaOf(m.cpu, Disp(i.ra, i.d), false));
    FaultEntry(m1, i.Lmw?, f.value.1, f.value.0, inst);
  }

  /** rfi in a handler state that still has the SRR0 and SRR1 of such a fault: back at the instruction, in its mode, with the
      handler's general registers, memory map and data. */
  lemma ReturnsToFault(env: Env, m: Machine, i: Inst, inst: Word, h: Machine)
    requires Consistent(m) && ConfigOk(h.arch.cfg) && (i.Lmw? || i.Stmw?)
    ensures var r, back := Exec(env, m, i, inst), Exec(env, h, Rfi, 0).m;
      r.Raised? && h.cpu.srr0 == r.m.cpu.srr0 && h.cpu.srr1 == r.m.cpu.srr1 ==>
      && back.cpu.pc == m.cpu.pc && back.cpu.msr == m.cpu.msr && back.arch.ir == m.arch.ir && back.arch.dr == m.arch.dr
      && back.cpu.gpr == h.cpu.gpr && back.data == h.data && back.arch.cfg == h.arch.cfg && back.arch.mem == h.arch.mem
  {
    hide ConfigOk, IR, DR, ExecMemory;
    if Exec(env, m, i, inst).Raised? {
      MultipleFaults(env, m, i, inst);
    }
  }

  /** A faulting lmw, any handler that keeps SRR0, SRR1 and the general registers, rfi, and the lmw again: the second
      execution is in the interrupted context, faults exactly if an lmw that starts there with the registers from before the
      fault would, and otherwise ends exactly as that one. */
  lemma LmwResumes(env: Env, m: Machine, rt: Reg, ra: Reg, d: int, inst: Word, h: Machine, inst': Word)
    requires Consistent(m) && ConfigOk(h.arch.cfg) && Exec(env, m, Lmw(rt, ra, d), inst).Raised?
    requires var e := Exec(env, m, Lmw(rt, ra, d), inst).m.cpu;
      h.cpu.srr0 == e.srr0 && h.cpu.srr1 == e.srr1 && h.cpu.gpr == e.gpr && GprOrZero(e, ra) == GprOrZero(m.cpu, ra)
    ensures var back := Exec(env, h, Rfi, 0).m;
      var again := Exec(env, back, Lmw(rt, ra, d), inst');
      var unfaulted := Exec(env, WithGprs(back, m.cpu.gpr), Lmw(rt, ra, d), inst');
      && back.cpu.pc == m.cpu.pc && back.cpu.msr == m.cpu.msr && back.arch.ir == m.arch.ir && back.arch.dr == m.arch.dr
      && again.Next? == unfaulted.Next? && (unfaulted.Next? ==> again == unfaulted)
  {
    hide ConfigOk, Exec;
    ReturnsToFault(env, m, Lmw(rt, ra, d), inst, h);
    LmwRestarts(env, m, Exec(env, h, Rfi, 0).m, rt, ra, d, inst, inst');
  }

  /** The same for stmw, when the handler leaves the words stored so far alone and mapped where they were. */
  lemma {:induction false} StmwResumes(env: Env, m: Machine, rs: Reg, ra: Reg, d: int, inst: Word, h: Machine, inst': Word)
    requires Consistent(m) && ConfigOk(h.arch.cfg) && h.cpu.gpr == m.cpu.gpr
    ensures var e, back := Exec(env, m, Stmw(rs, ra, d), inst), Exec(env, h, Rfi, 0).m;
      && ConfigOk(back.arch.cfg)
      && (e.Raised? && h.cpu.srr0 == e.m.cpu.srr0 && h.cpu.srr1 == e.m.cpu.srr1 ==>
            && back.cpu.pc == m.cpu.pc && back.cpu.msr == m.cpu.msr && back.arch.ir == m.arch.ir && back.arch.dr == m.arch.dr
            && (SameStores(env, m, back, rs, ra, d, inst) ==>
                  Exec(env, back, Stmw(rs, ra, d), inst') == Exec(env, back.(data := m.data), Stmw(rs, ra, d), inst')))
  {
    hide ConfigOk, Exec, StoreHosts, AllDirect, EaOf, SameStores;
    var e, back := Exec(env, m, Stmw(rs, ra, d), inst), Exec(env, h, Rfi, 0).m;
    ReturnsToFault(env, m, Stmw(rs, ra, d), inst, h);
    if e.Raised? && h.cpu.srr0 == e.m.cpu.srr0 && h.cpu.srr1 == e.m.cpu.srr1 {
      StmwRestarts(env, m, back, rs, ra, d, inst, inst');
    }
  }

  // ---------------------------------------------------------------- stmw, then lmw

  /** Once a store to `ea` has been translated, a load from it is translated to the same place, now and after the page
      table's R and C bits have been added to. */
  lemma ReadAfterWrite(env: Env, m: Machine, m': Machine, ea: Word)
    requires ConfigOk(m.arch.cfg) && WellPlaced(env.devs) && Translate(env, m, ea, false, false).1.Translated?
    requires m'.arch == m.arch.(mem := m'.arch.mem) && m'.cpu.msr == m.cpu.msr
    requires OnlyRCGrew(Translate(env, m, ea, false, false).0.arch.mem, m'.arch.mem)
    ensures Translate(env, m', ea, false, true) == (m', Translate(env, m, ea, false, false).1)
  {
    hide Walk, HostOf, WellPlaced, ConfigOk, OnlyRCGrew;
    var c, on, priv := m.arch.cfg, m.arch.dr, Privileged(m);
    var r := Walk(c, on, m.arch.mem, ea, false, false, priv).0;
    OffsetsCarry(env.devs, c, on, m.arch.mem, ea, false, false, priv);
    WalkSettles(c, on, m.arch.mem, m'.arch.mem, BaseOf(ea), false, false, priv);
    OffsetsCarry(env.devs, c, on, m'.arch.mem, ea, false, true, priv);
    WritableIsReadable(c, on, m.arch.mem, ea, priv);
  }

  lemma WritableIsReadable(c: Config, on: bool, m: Mem, ea: Word, priv: bool)
    requires ConfigOk(c)
    ensures var r := Walk(c, on, m, ea, false, false, priv).0; r.WalkHit? && r.perms.w ==> r.perms.r
  {
    hide FirstBat, FindPte, ConfigOk, Touch, TouchMem, BlockTarget, Join, SegIndex;
  }

  predicate Disjoint(hosts: seq<nat>) {
    forall i, j :: 0 <= i < j < |hosts| ==> hosts[i] + 4 <= hosts[j] || hosts[j] + 4 <= hosts[i]
  }

  /** Each place holds the word of its register. */
  predicate Holds(h: HostMem, hosts: seq<nat>, g: Gprs, n: nat)
    requires n + |hosts| <= 32
  {
    forall i :: 0 <= i < |hosts| ==> Fetch(h, hosts[i], 4) == g[n + i]
  }

  lemma {:induction false} PutAllKeeps(h: HostMem, hosts: seq<nat>, g: Gprs, n: nat, a: nat)
    requires n + |hosts| <= 32 && forall i :: 0 <= i < |hosts| ==> hosts[i] + 4 <= a || a + 4 <= hosts[i]
    ensures Fetch(PutAll(h, hosts, g, n), a, 4) == Fetch(h, a, 4)
    decreases |hosts|
  {
    hide Put, Fetch;
    if hosts != [] {
      var h' := Put(h, hosts[0], 4, g[n]);
      forall b | a <= b < a + 4 ensures ByteAt(h', b) == ByteAt(h, b) {
        PutFrame(h, hosts[0], 4, g[n], b);
      }
      FetchFrame(h', h, a, 4);
      PutAllKeeps(h', hosts[1..], g, n + 1, a);
    }
  }

  lemma {:induction false} PutAllHolds(h: HostMem, hosts: seq<nat>, g: Gprs, n: nat)
    requires n + |hosts| <= 32 && Disjoint(hosts)
    ensures Holds(PutAll(h, hosts, g, n), hosts, g, n)
    decreases |hosts|
  {
    hide Put, Fetch;
    if hosts != [] {
      var h' := Put(h, hosts[0], 4, g[n]);
      var rest := hosts[1..];
      assert Disjoint(rest) by {
        forall i, j | 0 <= i < j < |rest| ensures rest[i] + 4 <= rest[j] || rest[j] + 4 <= rest[i] {
          assert rest[i] == hosts[i + 1] && rest[j] == hosts[j + 1];
        }
      }
      forall i | 0 <= i < |rest| ensures rest[i] + 4 <= hosts[0] || hosts[0] + 4 <= rest[i] {
        assert rest[i] == hosts[i + 1];
      }
      PutAllHolds(h', rest, g, n + 1);
      PutAllKeeps(h', rest, g, n + 1, hosts[0]);
      StoredWord(h, hosts[0], g[n]);
      forall i | 0 <= i < |hosts| ensures Fetch(PutAll(h, hosts, g, n), hosts[i], 4) == g[n + i] {
        assert i > 0 ==> hosts[i] == rest[i - 1];
      }
    }
  }

  lemma {:induction false} StoredWord(h: HostMem, a: nat, w: Word)
    ensures Fetch(Put(h, a, 4, w), a, 4) == w
  {
    hide Put, Fetch;
    WordLimit4();
    FetchAfterPut(h, a, 4, w);
  }

  lemma WordLimit4()
    ensures Limit(4) == WORD_LIMIT
  {
    assert Limit(2) == 0x10000;
  }

  /** Registers `n` to 31 of `g`, the others of `low`. */
  function Restored(low: Gprs, g: Gprs, n: nat): (r: Gprs)
    requires n <= 32
  {
    low[..n] + g[n..]
  }

  /** Loading where the registers were stored brings them back. */
  lemma {:induction false} LoadsBack(env: Env, m: Machine, m2: Machine, n: nat, base: Word)
    requires ConfigOk(m.arch.cfg) && WellPlaced(env.devs) && n <= 32 && StoreMultiple(env, m, n, base).1 == None
    requires m2.arch == m.arch.(mem := m2.arch.mem) && m2.cpu.msr == m.cpu.msr
    requires OnlyRCGrew(StoreMultiple(env, m, n, base).0.arch.mem, m2.arch.mem)
    requires AllDirect(StoreHosts(env, m, n, base)) && Holds(m2.data.host, StoreHosts(env, m, n, base), m.cpu.gpr, n)
    ensures LoadMultiple(env, m2, n, base) == (WithGprs(m2, Restored(m2.cpu.gpr, m.cpu.gpr, n)), None)
    decreases 32 - n
  {
    hide ConfigOk, Translate, OnlyRCGrew, WellPlaced, Fetch, Store, IsDirect, StoreHosts, StoreMultiple, Holds, AllDirect,
         Restored, ReadHost;
    if n == 32 {
      AllRestored(m2.cpu.gpr, m.cpu.gpr);
    } else {
      var (m', out) := Translate(env, m, base, false, false);
      var stored := StoreStep(env, m, n, base);
      StoreMultipleGrows(env, stored, n + 1, Wrap(base + 4));
      OnlyRCGrewTrans(m'.arch.mem, StoreMultiple(env, m, n, base).0.arch.mem, m2.arch.mem);
      ReadAfterWrite(env, m, m2, base);
      FirstHolds(m2.data.host, out.host, StoreHosts(env, stored, n + 1, Wrap(base + 4)), m.cpu.gpr, n);
      DirectWord(env, m2, out.host, m.cpu.gpr[n]);
      var next := WithCpu(m2, SetGpr(m2.cpu, n, m.cpu.gpr[n]));
      assert Load(env, m2, base, 4) == (m2, LoadOk(m.cpu.gpr[n]));
      LoadsBack(env, stored, next, n + 1, Wrap(base + 4));
      RestoredStep(m2.cpu.gpr, m.cpu.gpr, n);
    }
  }

  lemma AllRestored(low: Gprs, g: Gprs)
    ensures Restored(low, g, 32) == low
  {
  }

  lemma RestoredStep(low: Gprs, g: Gprs, n: nat)
    requires n < 32
    ensures Restored(low[n := g[n]], g, n + 1) == Restored(low, g, n)
  {
  }

  lemma {:induction false} FirstHolds(h: HostMem, a: nat, rest: seq<nat>, g: Gprs, n: nat)
    requires n + 1 + |rest| <= 32 && Holds(h, [a] + rest, g, n) && AllDirect([a] + rest)
    ensures IsDirect(a) && AllDirect(rest) && Fetch(h, a, 4) == g[n] && Holds(h, rest, g, n + 1)
  {
    hide Fetch, IsDirect;
    var hosts := [a] + rest;
    assert hosts[0] == a;
    assert IsDirect(hosts[0]) && Fetch(h, hosts[0], 4) == g[n + 0];
    forall i | 0 <= i < |rest| ensures IsDirect(rest[i]) && Fetch(h, rest[i], 4) == g[n + 1 + i] {
      assert rest[i] == hosts[i + 1];
    }
  }

  /** One turn of an stmw that does not fault. */
  lemma StoreStep(env: Env, m: Machine, n: nat, base: Word) returns (stored: Machine)
    requires ConfigOk(m.arch.cfg) && n < 32 && StoreMultiple(env, m, n, base).1 == None
    ensures var (m', out) := Translate(env, m, base, false, false);
      && out.Translated? && !Misaligned(out.host, 4) && stored == m'.(data := stored.data)
      && StoreMultiple(env, m, n, base) == StoreMultiple(env, stored, n + 1, Wrap(base + 4))
      && StoreHosts(env, m, n, base) == [out.host] + StoreHosts(env, stored, n + 1, Wrap(base + 4))
  {
    hide ConfigOk, Translate, StoreVia;
    stored := Store(env, m, base, 4, m.cpu.gpr[n]).0;
    HostsIgnoreData(env, Translate(env, m, base, false, false).0, stored.data, n + 1, Wrap(base + 4));
  }

  lemma {:induction false} DirectWord(env: Env, m: Machine, host: nat, w: Word)
    requires IsDirect(host) && Fetch(m.data.host, host, 4) == w
    ensures ReadHost(env, m, host, 4) == w
  {
  }

  /** stmw, then lmw with the same base: the registers come back whatever happened to them in between, when the words went
      to different places in memory. The base may wrap round the end of the address space. */
  lemma {:induction false} StmwThenLmw(env: Env, m: Machine, m2: Machine, rs: Reg, ra: Reg, d: int, inst: Word)
    requires ConfigOk(m.arch.cfg) && ConfigOk(m2.arch.cfg) && WellPlaced(env.devs) && m2.cpu.msr == m.cpu.msr
    requires EaOf(m2.cpu, Disp(ra, d), false) == EaOf(m.cpu, Disp(ra, d), false)
    ensures var stored := Exec(env, m, Stmw(rs, ra, d), inst);
      var hosts := StoreHosts(env, m, rs, EaOf(m.cpu, Disp(ra, d), false));
      stored.Next? && AllDirect(hosts) && Disjoint(hosts) && m2.arch == stored.m.arch && m2.data == stored.m.data ==>
        Exec(env, m2, Lmw(rs, ra, d), inst) == Next(Advance(WithGprs(m2, Restored(m2.cpu.gpr, m.cpu.gpr, rs))))
  {
    hide ConfigOk, StoreMultiple, LoadMultiple, StoreHosts, WellPlaced, OnlyRCGrew, EaOf, IsDirect, Fetch, PutAll,
         StoreAll, Restored, NextPc, Disjoint, AllDirect, Holds, MemFault;
    var base := EaOf(m.cpu, Disp(ra, d), false);
    var hosts := StoreHosts(env, m, rs, base);
    var (stored, f) := StoreMultiple(env, m, rs, base);
    if f.None? && AllDirect(hosts) && Disjoint(hosts) && m2.arch == stored.arch && m2.data == stored.data {
      StoreMultipleStores(env, m, rs, base);
      DirectStores(env.devs, m.data, hosts, m.cpu.gpr, rs);
      PutAllHolds(m.data.host, hosts, m.cpu.gpr, rs);
      GrewSelf(m2.arch.mem);
      LoadsBack(env, m, m2, rs, base);
    }
  }

  /** A store, and then a load of the same size from the same address: the stored part of the register, zero-extended, when
      the place is in memory. */
  lemma StoreThenLoad(env: Env, m: Machine, ea: Word, n: nat, v: Word)
    requires ConfigOk(m.arch.cfg) && WellPlaced(env.devs) && Sized124(n)
    ensures var (stored, f) := Store(env, m, ea, n, v);
      f == None && IsDirect(Translate(env, m, ea, false, false).1.host) ==>
        Load(env, stored, ea, n) == (stored, LoadOk(Truncate(v, n)))
  {
    hide ConfigOk, Translate, OnlyRCGrew, WellPlaced, Fetch, Put, IsDirect, Truncate;
    var (m', out) := Translate(env, m, ea, false, false);
    var (stored, f) := Store(env, m, ea, n, v);
    if f == None && IsDirect(out.host) {
      GrewSelf(stored.arch.mem);
      ReadAfterWrite(env, m, stored, ea);
      TruncateFits(v, n);
      FetchAfterPut(m.data.host, out.host, n, Truncate(v, n));
    }
  }

  lemma {:induction false} TruncateFits(v: nat, n: nat)
    requires Sized124(n)
    ensures Truncate(v, n) < Limit(n) && Truncate(Truncate(v, n), n) == Truncate(v, n)
  {
    WordLimit4();
    assert Limit(1) == 0x100 && Limit(2) == 0x10000;
  }
}
