/** Where loads and stores go and what they move, byte by byte: the effective address, the place it translates to, and the bytes there
    most significant first (tools/PPC.csv, PPCInterpreter_Memory.cc, PPCMMU.cc). */
module DataAccess {
  import opened Words
  import opened MmuTypes
  import opened PageWalk
  import opened WalkSpec
  import opened BusMap
  import opened DirectTlb
  import opened DataPath
  import opened CpuTypes
  import opened Interp
  import opened Multiples
  import CpuRuns

  // ---------------------------------------------------------------- In plain terms

  /** The sum of base and displacement or index, on 32 bits. Register 0 as a base stands for zero, but not in a form with update. */
  function Address(c: Cpu, ea: Ea, update: bool): Word {
    var base := if ea.ra == 0 && !update then 0 else c.gpr[ea.ra];
    var offset := match ea case Disp(_, d) => d case Indexed(_, rb) => c.gpr[rb];
    (base + offset) % 0x1_0000_0000
  }

  function Size(n: nat): nat { if n == 1 then 0x100 else if n == 2 then 0x1_0000 else 0x1_0000_0000 }

  /** `n` bytes of host memory, most significant first. */
  function BigEndian(h: HostMem, a: nat, n: nat): nat {
    if n == 1 then ByteAt(h, a)
    else if n == 2 then ByteAt(h, a) * 0x100 + ByteAt(h, a + 1)
    else ByteAt(h, a) * 0x100_0000 + ByteAt(h, a + 1) * 0x1_0000 + ByteAt(h, a + 2) * 0x100 + ByteAt(h, a + 3)
  }

  /** Byte `i` of the low `n` bytes of a register, the most significant of them being byte 0. */
  function RegByte(v: Word, n: nat, i: nat): nat {
    if i + 1 == n then v % 0x100
    else if i + 2 == n then v / 0x100 % 0x100
    else if i + 3 == n then v / 0x1_0000 % 0x100
    else v / 0x100_0000
  }

  /** What a load finds at a place: bytes of host memory below 2^63, and above the answer of the device. */
  function Found(env: Env, d: Data, host: nat, n: nat): nat {
    if host < 0x8000_0000_0000_0000 then BigEndian(d.host, host, n) else env.answer(d.io, host % 0x1_0000_0000, n) % Size(n)
  }

  /** What a store of the low `n` bytes of a register does there. */
  ghost predicate Left(d: Data, d': Data, host: nat, n: nat, v: Word) {
    if host < 0x8000_0000_0000_0000 then
      && d'.io == d.io
      && forall b: nat :: ByteAt(d'.host, b) == if host <= b < host + n then RegByte(v, n, b - host) else ByteAt(d.host, b)
    else d' == d.(io := d.io + [(host % 0x1_0000_0000, n, v % Size(n))])
  }

  // ---------------------------------------------------------------- Loads and stores

  lemma AddressIs(c: Cpu, ea: Ea, update: bool)
    ensures EaOf(c, ea, update) == Address(c, ea, update)
  {
  }

  /** A load completes exactly when its address translates and its bytes do not cross a multiple of 8. Then the register holds
      what is found, with zeros above; the update form leaves the address in RA; and the PC moves on. */
  lemma LoadDoes(env: Env, m: Machine, rt: Reg, ea: Ea, n: nat, update: bool, inst: Word)
    requires ConfigOk(m.arch.cfg) && Sized124(n) && WellPlaced(env.devs)
    ensures var addr := Address(m.cpu, ea, update);
      var (m', out) := Translate(env, m, addr, false, true);
      var r := Exec(env, m, LoadZ(rt, ea, n, update), inst);
      && (r.Next? <==> out.Translated? && out.host % 8 + n <= 8)
      && (r.Next? ==>
            var v := Found(env, m.data, out.host, n);
            && v < 0x1_0000_0000
            && r.m == m'.(cpu := m.cpu.(pc := (m.cpu.pc + 4) % 0x1_0000_0000,
                                        gpr := if update then m.cpu.gpr[rt := v][ea.ra := addr] else m.cpu.gpr[rt := v])))
  {
    hide ConfigOk, Translate, EaOf, Address, MemFault, Found, ReadHost, WellPlaced;
    AddressIs(m.cpu, ea, update);
    var (m', out) := Translate(env, m, Address(m.cpu, ea, update), false, true);
    if out.Translated? {
      FoundThere(env, m, Address(m.cpu, ea, update), true, n);
    }
  }

  /** Reading where an address was translated to. */
  lemma FoundThere(env: Env, m: Machine, ea: Word, rnw: bool, n: nat)
    requires ConfigOk(m.arch.cfg) && Sized124(n) && WellPlaced(env.devs)
    ensures var (m', out) := Translate(env, m, ea, false, rnw);
      out.Translated? ==> ReadHost(env, m', out.host, n) == Found(env, m.data, out.host, n) && m'.data == m.data
  {
    hide ConfigOk, Walk, Found, ReadHost, WellPlaced, HostOf;
    var pa := Walk(m.arch.cfg, m.arch.dr, m.arch.mem, ea, false, rnw, Privileged(m)).0;
    if pa.WalkHit? {
      ReadsFound(env, m.(arch := Translate(env, m, ea, false, rnw).0.arch), pa.pa, n);
    }
  }

  lemma {:induction false} ReadsFound(env: Env, m: Machine, pa: Word, n: nat)
    requires Sized124(n) && WellPlaced(env.devs)
    ensures ReadHost(env, m, HostOf(env.devs, pa), n) == Found(env, m.data, HostOf(env.devs, pa), n)
  {
    hide WellPlaced, Fetch, HostOf;
    var host := HostOf(env.devs, pa);
    DirectIffRam(env.devs, pa);
    if IsDirect(host) {
      FetchBytes(m.data.host, host);
    } else {
      Tagged(env.devs, pa);
    }
  }

  lemma Tagged(devs: seq<Device>, pa: Word)
    requires WellPlaced(devs) && !IsDirect(HostOf(devs, pa))
    ensures HostOf(devs, pa) == pa + IO_BIT && (pa + IO_BIT) % WORD_LIMIT == pa
  {
    DirectIffRam(devs, pa);
    UntagIo(pa);
  }

  /** A store goes where its address translates to, and completes if its bytes do not cross a multiple of 8; when they do, they
      have been stored all the same. */
  lemma StoreDoes(env: Env, m: Machine, rs: Reg, ea: Ea, n: nat, update: bool, inst: Word)
    requires ConfigOk(m.arch.cfg) && Sized124(n) && WellPlaced(env.devs)
    ensures var addr := Address(m.cpu, ea, update);
      var (m', out) := Translate(env, m, addr, false, false);
      var r := Exec(env, m, StoreZ(rs, ea, n, update), inst);
      && (r.Next? <==> out.Translated? && out.host % 8 + n <= 8)
      && (if out.Translated? then Left(m.data, r.m.data, out.host, n, m.cpu.gpr[rs]) else r.m.data == m.data)
      && (r.Next? ==>
            r.m == m'.(data := r.m.data,
                       cpu := m.cpu.(pc := (m.cpu.pc + 4) % 0x1_0000_0000,
                                     gpr := if update then m.cpu.gpr[ea.ra := addr] else m.cpu.gpr)))
  {
    hide ConfigOk, Translate, EaOf, Address, MemFault, Left, StoreVia, Truncate, WellPlaced, InHandler;
    AddressIs(m.cpu, ea, update);
    var (m', out) := Translate(env, m, Address(m.cpu, ea, update), false, false);
    if out.Translated? {
      LeftThere(env, m, Address(m.cpu, ea, update), n, m.cpu.gpr[rs]);
    }
  }

  lemma LeftThere(env: Env, m: Machine, ea: Word, n: nat, v: Word)
    requires ConfigOk(m.arch.cfg) && Sized124(n) && WellPlaced(env.devs)
    ensures var (m', out) := Translate(env, m, ea, false, false);
      out.Translated? ==> m'.data == m.data && Left(m.data, StoreVia(env.devs, m.data, out.host, n, Truncate(v, n)), out.host, n, v)
  {
    hide ConfigOk, Walk, Left, StoreVia, Truncate, WellPlaced, HostOf;
    var pa := Walk(m.arch.cfg, m.arch.dr, m.arch.mem, ea, false, false, Privileged(m)).0;
    if pa.WalkHit? {
      StoresLeft(env.devs, m.data, pa.pa, n, v);
    }
  }

  lemma {:induction false} StoresLeft(devs: seq<Device>, d: Data, pa: Word, n: nat, v: Word)
    requires Sized124(n) && WellPlaced(devs)
    ensures Left(d, StoreVia(devs, d, HostOf(devs, pa), n, Truncate(v, n)), HostOf(devs, pa), n, v)
  {
    hide WellPlaced, Put, HostOf, Truncate, RegByte;
    var host := HostOf(devs, pa);
    DirectIffRam(devs, pa);
    if IsDirect(host) {
      var h := Put(d.host, host, n, Truncate(v, n));
      forall b: nat ensures ByteAt(h, b) == if host <= b < host + n then RegByte(v, n, b - host) else ByteAt(d.host, b) {
        if host <= b < host + n {
          PutByte(d.host, host, n, Truncate(v, n), b - host);
          ByteIs(v, n, b - host);
        } else {
          PutFrame(d.host, host, n, Truncate(v, n), b);
        }
      }
    } else {
      Tagged(devs, pa);
      TruncateIs(v, n);
    }
  }

  lemma TruncateIs(v: Word, n: nat)
    requires Sized124(n)
    ensures Truncate(v, n) == v % Size(n)
  {
  }

  lemma {:induction false} ByteIs(v: Word, n: nat, i: nat)
    requires Sized124(n) && i < n
    ensures Truncate(v, n) / Limit(n - 1 - i) % 256 == RegByte(v, n, i)
  {
    Limits();
    ByteOfWord(v);
    hide Limit;
  }

  lemma {:induction false} Limits()
    ensures Limit(0) == 1 && Limit(1) == 0x100 && Limit(2) == 0x1_0000 && Limit(3) == 0x100_0000
  {
  }

  lemma ByteOfWord(v: Word)
    ensures v % WORD_LIMIT == v && v / 0x100_0000 % 256 == v / 0x100_0000
    ensures v % 0x1_0000 / 0x100 % 256 == v / 0x100 % 0x100 && v % 0x1_0000 % 256 == v % 0x100
  {
    TopByte(v);
    MiddleByte(v);
  }

  lemma TopByte(v: Word)
    ensures v / 0x100_0000 % 256 == v / 0x100_0000
  {
  }

  lemma MiddleByte(v: Word)
    ensures v % 0x1_0000 / 0x100 % 256 == v / 0x100 % 0x100 && v % 0x1_0000 % 256 == v % 0x100
  {
    var q, r := v / 0x1_0000, v % 0x1_0000;
    assert v == 0x100 * (0x100 * q + r / 0x100) + r % 0x100;
    assert r / 0x100 < 0x100;
  }

  // ---------------------------------------------------------------- lmw and stmw

  /** The address of word `k` behind `base`. */
  function WordAddress(base: Word, k: nat): Word { (base + 4 * k) % 0x1_0000_0000 }

  lemma NextAddress(base: Word, k: nat)
    ensures WordAddress(Wrap(base + 4), k) == WordAddress(base, k + 1) && WordAddress(base, 0) == base
  {
    if base + 4 >= WORD_LIMIT {
      CpuRuns.WrapShift(base + 4 + 4 * k, -1);
    }
  }

  /** Once a load from `ea` has been translated, it is translated so again, also after R and C bits have been added. */
  lemma ReadAgain(env: Env, m: Machine, m': Machine, ea: Word)
    requires ConfigOk(m.arch.cfg) && WellPlaced(env.devs) && Translate(env, m, ea, false, true).1.Translated?
    requires m'.arch == m.arch.(mem := m'.arch.mem) && m'.cpu.msr == m.cpu.msr
    requires OnlyRCGrew(Translate(env, m, ea, false, true).0.arch.mem, m'.arch.mem)
    ensures Translate(env, m', ea, false, true) == (m', Translate(env, m, ea, false, true).1)
  {
    hide Walk, HostOf, WellPlaced, ConfigOk, OnlyRCGrew;
    var c, on, priv := m.arch.cfg, m.arch.dr, Privileged(m);
    var r := Walk(c, on, m.arch.mem, ea, false, true, priv).0;
    var r' := Walk(c, on, m'.arch.mem, ea, false, true, priv).0;
    OffsetsCarry(env.devs, c, on, m.arch.mem, ea, false, true, priv);
    WalkSettles(c, on, m.arch.mem, m'.arch.mem, BaseOf(ea), false, true, priv);
    OffsetsCarry(env.devs, c, on, m'.arch.mem, ea, false, true, priv);
    assert r.WalkHit? && r'.WalkHit? && r'.perms.r == r.perms.r;
  }

  /** Word `k` of the registers from `n` on is what is found at the place of its address, as that is translated afterwards. */
  ghost predicate LoadedFrom(env: Env, r: Machine, n: nat, base: Word, k: nat)
    requires ConfigOk(r.arch.cfg) && n + k < 32
  {
    var (same, out) := Translate(env, r, WordAddress(base, k), false, true);
    same == r && out.Translated? && out.host % 8 <= 4 && r.cpu.gpr[n + k] == Found(env, r.data, out.host, 4)
  }

  lemma {:induction false} LoadsAll(env: Env, m: Machine, n: nat, base: Word)
    requires ConfigOk(m.arch.cfg) && WellPlaced(env.devs) && n <= 32 && LoadMultiple(env, m, n, base).1.None?
    ensures var r := LoadMultiple(env, m, n, base).0; forall k: nat :: n + k < 32 ==> LoadedFrom(env, r, n, base, k)
    decreases 32 - n
  {
    hide ConfigOk, Translate, WellPlaced, OnlyRCGrew, WordAddress, LoadedFrom, LoadMultiple, ReadHost, Found;
    if n < 32 {
      var (m', out) := Translate(env, m, base, false, true);
      var next := LoadStep(env, m, n, base);
      var r := LoadMultiple(env, next, n + 1, Wrap(base + 4)).0;
      LoadMultipleGrows(env, next, n + 1, Wrap(base + 4));
      LoadKeepsBelow(env, next, n + 1, Wrap(base + 4));
      LoadsAll(env, next, n + 1, Wrap(base + 4));
      ReadAgain(env, m, r, base);
      FoundThere(env, m, base, true, 4);
      forall k: nat | n + k < 32 ensures LoadedFrom(env, r, n, base, k) {
        if k > 0 {
          NextAddress(base, k - 1);
          LoadedShift(env, r, n, base, k - 1);
        } else {
          NextAddress(base, 0);
          LoadedNow(env, r, n, base, out.host);
        }
      }
    }
  }

  lemma LoadedShift(env: Env, r: Machine, n: nat, base: Word, k: nat)
    requires ConfigOk(r.arch.cfg) && n + 1 + k < 32 && LoadedFrom(env, r, n + 1, Wrap(base + 4), k)
    ensures LoadedFrom(env, r, n, base, k + 1)
  {
    hide ConfigOk, Translate, Found, WordAddress;
    NextAddress(base, k);
  }

  lemma LoadedNow(env: Env, r: Machine, n: nat, base: Word, host: nat)
    requires ConfigOk(r.arch.cfg) && n < 32 && Translate(env, r, base, false, true) == (r, Translated(host)) && host % 8 <= 4
    requires r.cpu.gpr[n] == Found(env, r.data, host, 4)
    ensures LoadedFrom(env, r, n, base, 0)
  {
    hide ConfigOk, Translate, Found, WordAddress;
    NextAddress(base, 0);
  }

  /** One turn of an lmw that does not fault. */
  lemma LoadStep(env: Env, m: Machine, n: nat, base: Word) returns (next: Machine)
    requires ConfigOk(m.arch.cfg) && n < 32 && LoadMultiple(env, m, n, base).1.None?
    ensures var (m', out) := Translate(env, m, base, false, true);
      && out.Translated? && out.host % 8 <= 4
      && next == WithCpu(m', SetGpr(m.cpu, n, ReadHost(env, m', out.host, 4)))
      && LoadMultiple(env, m, n, base) == LoadMultiple(env, next, n + 1, Wrap(base + 4))
  {
    hide ConfigOk, Translate, ReadHost;
    var (m', v) := Load(env, m, base, 4);
    next := WithCpu(m', SetGpr(m'.cpu, n, v.val));
  }

  /** An lmw that completes: every word comes from base + D + 4k, and nothing else changes but R and C bits. */
  lemma LmwDoes(env: Env, m: Machine, rt: Reg, ra: Reg, d: int, inst: Word)
    requires ConfigOk(m.arch.cfg) && WellPlaced(env.devs)
    ensures var r := Exec(env, m, Lmw(rt, ra, d), inst);
      r.Next? ==>
        && r.m.cpu == m.cpu.(gpr := r.m.cpu.gpr, pc := (m.cpu.pc + 4) % 0x1_0000_0000)
        && r.m == m.(cpu := r.m.cpu, arch := m.arch.(mem := r.m.arch.mem))
        && (forall i :: 0 <= i < rt ==> r.m.cpu.gpr[i] == m.cpu.gpr[i])
        && forall k: nat :: rt + k < 32 ==> LoadedFrom(env, r.m, rt, Address(m.cpu, Disp(ra, d), false), k)
  {
    hide ConfigOk, LoadMultiple, EaOf, Address, MemFault, WellPlaced, LoadedFrom;
    var base := Address(m.cpu, Disp(ra, d), false);
    AddressIs(m.cpu, Disp(ra, d), false);
    var (l, f) := LoadMultiple(env, m, rt, base);
    if f.None? {
      LoadsAll(env, m, rt, base);
      LoadKeepsBelow(env, m, rt, base);
      forall k: nat | rt + k < 32 ensures LoadedFrom(env, Advance(l), rt, base, k) {
        LoadedAdvanced(env, l, rt, base, k);
      }
    }
  }

  lemma LoadedAdvanced(env: Env, l: Machine, n: nat, base: Word, k: nat)
    requires ConfigOk(l.arch.cfg) && n + k < 32 && LoadedFrom(env, l, n, base, k)
    ensures LoadedFrom(env, Advance(l), n, base, k)
  {
    hide ConfigOk, ScratchTranslate, Found, WordAddress, NextPc;
  }

  /** Where word `k` behind `base` is, when it is read afterwards. */
  function PlaceOf(env: Env, r: Machine, base: Word, k: nat): Outcome
    requires ConfigOk(r.arch.cfg)
  {
    Translate(env, r, WordAddress(base, k), false, true).1
  }

  lemma {:induction false} StoresAll(env: Env, m: Machine, n: nat, base: Word)
    requires ConfigOk(m.arch.cfg) && WellPlaced(env.devs) && n <= 32 && StoreMultiple(env, m, n, base).1.None?
    ensures var r := StoreMultiple(env, m, n, base).0; var hosts := StoreHosts(env, m, n, base);
      && |hosts| == 32 - n
      && forall k: nat :: k < |hosts| ==> PlaceOf(env, r, base, k) == Translated(hosts[k]) && hosts[k] % 8 <= 4
    decreases 32 - n
  {
    hide ConfigOk, Translate, WellPlaced, OnlyRCGrew, WordAddress, PlaceOf, StoreMultiple, StoreHosts;
    var hosts := StoreHosts(env, m, n, base);
    if n < 32 {
      var (m', out) := Translate(env, m, base, false, false);
      var stored := StoreStep(env, m, n, base);
      var r := StoreMultiple(env, stored, n + 1, Wrap(base + 4)).0;
      StoreMultipleGrows(env, stored, n + 1, Wrap(base + 4));
      StoresAll(env, stored, n + 1, Wrap(base + 4));
      ReadAfterWrite(env, m, r, base);
      forall k: nat | k < |hosts| ensures PlaceOf(env, r, base, k) == Translated(hosts[k]) && hosts[k] % 8 <= 4 {
        if k > 0 {
          PlaceShift(env, r, base, k - 1);
        } else {
          PlaceNow(env, r, base);
        }
      }
    } else {
      NoHosts(env, m, base);
    }
  }

  lemma {:induction false} NoHosts(env: Env, m: Machine, base: Word)
    requires ConfigOk(m.arch.cfg)
    ensures StoreHosts(env, m, 32, base) == []
  {
    hide ConfigOk;
  }

  lemma PlaceShift(env: Env, r: Machine, base: Word, k: nat)
    requires ConfigOk(r.arch.cfg)
    ensures PlaceOf(env, r, Wrap(base + 4), k) == PlaceOf(env, r, base, k + 1)
  {
    hide ConfigOk, Translate, WordAddress;
    NextAddress(base, k);
  }

  lemma PlaceNow(env: Env, r: Machine, base: Word)
    requires ConfigOk(r.arch.cfg)
    ensures PlaceOf(env, r, base, 0) == Translate(env, r, base, false, true).1
  {
    hide ConfigOk, Translate, WordAddress;
    NextAddress(base, 0);
  }

  /** The places of those words are in host memory, and do not overlap. */
  ghost predicate SeparatePlaces(env: Env, r: Machine, base: Word, n: nat)
    requires ConfigOk(r.arch.cfg)
  {
    forall k: nat :: k < n ==>
      && PlaceOf(env, r, base, k).Translated? && PlaceOf(env, r, base, k).host < 0x8000_0000_0000_0000
      && forall j: nat :: j < k ==>
           PlaceOf(env, r, base, j).Translated?
           && (PlaceOf(env, r, base, j).host + 4 <= PlaceOf(env, r, base, k).host
               || PlaceOf(env, r, base, k).host + 4 <= PlaceOf(env, r, base, j).host)
  }

  /** An stmw that completes: every word has gone to base + D + 4k, when those are different places in memory, and no register
      changes. */
  lemma {:induction false} StmwDoes(env: Env, m: Machine, rs: Reg, ra: Reg, d: int, inst: Word)
    requires ConfigOk(m.arch.cfg) && WellPlaced(env.devs)
    ensures var r := Exec(env, m, Stmw(rs, ra, d), inst);
      var base := Address(m.cpu, Disp(ra, d), false);
      r.Next? ==>
        && r.m == m.(cpu := m.cpu.(pc := (m.cpu.pc + 4) % 0x1_0000_0000), arch := m.arch.(mem := r.m.arch.mem), data := r.m.data)
        && (forall k: nat :: rs + k < 32 ==> PlaceOf(env, r.m, base, k).Translated? && PlaceOf(env, r.m, base, k).host % 8 <= 4)
        && (SeparatePlaces(env, r.m, base, 32 - rs) ==>
              forall k: nat :: rs + k < 32 ==> BigEndian(r.m.data.host, PlaceOf(env, r.m, base, k).host, 4) == m.cpu.gpr[rs + k])
  {
    hide ConfigOk, StoreMultiple, EaOf, Address, MemFault, WellPlaced, PlaceOf, StoreHosts, BigEndian, SeparatePlaces, PutAll,
         Holds, Fetch, Disjoint, AllDirect, StoreAll;
    var base := Address(m.cpu, Disp(ra, d), false);
    AddressIs(m.cpu, Disp(ra, d), false);
    var (s, f) := StoreMultiple(env, m, rs, base);
    if f.None? {
      var hosts := StoreHosts(env, m, rs, base);
      StoresAll(env, m, rs, base);
      forall k: nat ensures PlaceOf(env, Advance(s), base, k) == PlaceOf(env, s, base, k) {
        PlaceAdvanced(env, s, base, k);
      }
      if SeparatePlaces(env, Advance(s), base, 32 - rs) {
        Separate(env, Advance(s), base, hosts);
        StoreMultipleStores(env, m, rs, base);
        DirectStores(env.devs, m.data, hosts, m.cpu.gpr, rs);
        PutAllHolds(m.data.host, hosts, m.cpu.gpr, rs);
        forall k: nat | rs + k < 32 ensures BigEndian(s.data.host, hosts[k], 4) == m.cpu.gpr[rs + k] {
          HeldWord(s.data.host, hosts, m.cpu.gpr, rs, k);
        }
      }
    }
  }

  lemma PlaceAdvanced(env: Env, s: Machine, base: Word, k: nat)
    requires ConfigOk(s.arch.cfg)
    ensures PlaceOf(env, Advance(s), base, k) == PlaceOf(env, s, base, k)
  {
    hide ConfigOk, ScratchTranslate, WordAddress, NextPc;
  }

  lemma Separate(env: Env, r: Machine, base: Word, hosts: seq<nat>)
    requires ConfigOk(r.arch.cfg) && SeparatePlaces(env, r, base, |hosts|)
    requires forall k: nat :: k < |hosts| ==> PlaceOf(env, r, base, k) == Translated(hosts[k])
    ensures AllDirect(hosts) && Disjoint(hosts)
  {
    hide ConfigOk, PlaceOf;
  }

  lemma {:induction false} HeldWord(h: HostMem, hosts: seq<nat>, g: Gprs, n: nat, k: nat)
    requires n + |hosts| <= 32 && Holds(h, hosts, g, n) && k < |hosts|
    ensures BigEndian(h, hosts[k], 4) == g[n + k]
  {
    FetchBytes(h, hosts[k]);
    hide Fetch;
  }
}
