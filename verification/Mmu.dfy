/** The MMU as the simulator implements it: registers and uTLBs updated in place (PPCMMU.h, PPCMMU.cc,
    PPCMMU_utlb_dm.h). Each method is tied to the function on values that DirectTlb reasons about. */
module Mmu {
  import opened Words
  import opened MmuTypes
  import opened PageWalk
  import opened WalkSpec
  import opened BusMap
  import opened DirectTlb
  import opened DataPath

  class PpcMmu {
    const devs: seq<Device>
    const ibat: array<Bat>
    const dbat: array<Bat>
    const segreg: array<Seg>
    const pi: array<Utlb>
    const pd: array<Utlb>
    const ui: array<Utlb>
    const ud: array<Utlb>
    var enabledI: bool
    var enabledD: bool
    var htabPhys: Word
    var htabMask: nat
    var generationCount: nat
    var mem: Mem
    var data: Data

    ghost function Cfg(): Config
      reads this, ibat, dbat, segreg
    {
      Config(ibat[..], dbat[..], segreg[..], htabPhys, htabMask)
    }

    /** The abstract state. */
    ghost function Now(): State
      reads this, ibat, dbat, segreg, pi, pd, ui, ud
    {
      State(Arch(Cfg(), enabledI, enabledD, mem), Tlbs(pi[..], pd[..], ui[..], ud[..]), generationCount)
    }

    ghost predicate Shape() {
      && ibat != dbat && pi != pd && pi != ui && pi != ud && pd != ui && pd != ud && ui != ud
      && pi.Length == pd.Length == ui.Length == ud.Length == ENTRIES
    }

    ghost predicate Valid()
      reads this, ibat, dbat, segreg, pi, pd, ui, ud
    {
      Shape() && WellPlaced(devs) && Coherent(devs, Now())
    }

    /** The BATs start disabled and the uTLBs empty; the fields the source leaves uninitialised start as zero. */
    constructor (devs: seq<Device>, mem: Mem, data: Data)
      requires WellPlaced(devs)
      ensures Valid() && this.devs == devs && this.data == data && Now().arch.mem == mem && !Now().arch.ir && !Now().arch.dr
      ensures Now().arch.cfg == ResetConfig() && generationCount == 0
      ensures fresh(ibat) && fresh(dbat) && fresh(segreg) && fresh(pi) && fresh(pd) && fresh(ui) && fresh(ud)
    {
      this.devs := devs;
      this.mem, this.data := mem, data;
      ibat := new Bat[NR_BATS](_ => Bat(0, 0, false, false, 0, 0, 0));
      dbat := new Bat[NR_BATS](_ => Bat(0, 0, false, false, 0, 0, 0));
      segreg := new Seg[NR_SEGS](_ => Seg(0, false, false, false));
      pi := new Utlb[ENTRIES](_ => EMPTY);
      pd := new Utlb[ENTRIES](_ => EMPTY);
      ui := new Utlb[ENTRIES](_ => EMPTY);
      ud := new Utlb[ENTRIES](_ => EMPTY);
      enabledI, enabledD, htabPhys, htabMask, generationCount := false, false, 0, 0, 0;
      new;
      hide SideOk, WellPlaced;
      assert ibat[..] == ResetConfig().ibat && dbat[..] == ResetConfig().dbat && segreg[..] == ResetConfig().seg;
      assert pi[..] == Empty() && pd[..] == Empty() && ui[..] == Empty() && ud[..] == Empty();
      ResetCoherent(devs, Now());
    }

    // -------------------------------------------------------------- uTLB primitives

    function SelectUtlb(ind: bool, priv: bool): (u: array<Utlb>)
      ensures u == (if priv then (if ind then pi else pd) else if ind then ui else ud)
    {
      if priv && ind then pi else if priv && !ind then pd else if !priv && ind then ui else ud
    }

    method IutlbInv()
      requires Shape()
      modifies pi, ui
      ensures Now() == old(Now()).(tlb := FlushI(old(Now().tlb)))
    {
      forall i | 0 <= i < pi.Length { pi[i] := EMPTY; }
      forall i | 0 <= i < ui.Length { ui[i] := EMPTY; }
      assert pi[..] == Empty() && ui[..] == Empty();
    }

    method DutlbInv()
      requires Shape()
      modifies pd, ud
      ensures Now() == old(Now()).(tlb := FlushD(old(Now().tlb)))
    {
      forall i | 0 <= i < pd.Length { pd[i] := EMPTY; }
      forall i | 0 <= i < ud.Length { ud[i] := EMPTY; }
      assert pd[..] == Empty() && ud[..] == Empty();
    }

    /** A hit gives the translated address and the entry's permissions. */
    method UtlbLookup(ind: bool, priv: bool, addr: Word) returns (hit: bool, host: nat, perms: Perms)
      requires Shape()
      ensures var e := Side(Now().tlb, ind, priv)[Index(addr)];
        && (hit <==> e.ea == Tag(addr, On(Now().arch, ind)))
        && (hit ==> host == HostAddr(e, addr) && perms == e.perms)
    {
      var u := SelectUtlb(ind, priv);
      var t := u[Index(addr)];
      var findEa := Tag(addr, if ind then enabledI else enabledD);
      hit, host, perms := t.ea == findEa, 0, t.perms;
      if hit {
        host := HostAddr(t, addr);
      }
    }

    method UtlbInsert(ind: bool, priv: bool, addr: Word, pa: Word, perms: Perms)
      requires Shape()
      modifies pi, pd, ui, ud
      ensures var s := old(Now());
        Now() == s.(tlb := WithSide(s.tlb, ind, priv,
          Side(s.tlb, ind, priv)[Index(addr) := NewEntry(devs, addr, On(s.arch, ind), pa, perms)]))
    {
      var u := SelectUtlb(ind, priv);
      u[Index(addr)] := NewEntry(devs, addr, if ind then enabledI else enabledD, pa, perms);
    }

    // -------------------------------------------------------------- The walk

    method MatchBat(addr: Word, ind: bool, priv: bool) returns (r: Option<WalkResult>)
      requires ConfigOk(Cfg())
      ensures var bats := BatsFor(Cfg(), ind); var bat := FirstBat(bats, 0, addr, priv);
        r == (if bat.Some? then Some(BatTranslate(bats[bat.value], addr)) else None)
    {
      var tab := if ind then ibat else dbat;
      var i := 0;
      while i < NR_BATS
        invariant 0 <= i <= NR_BATS
        invariant FirstBat(tab[..], 0, addr, priv) == FirstBat(tab[..], i, addr, priv)
      {
        if BatMatches(tab[i], addr, priv) {
          return Some(BatTranslate(tab[i], addr));
        }
        i := i + 1;
      }
      r := None;
    }

    /** The two probes of the hashed page table. */
    method SearchHtab(sr: Seg, addr: Word) returns (slot: Option<Word>)
      requires ConfigOk(Cfg())
      ensures slot == FindPte(Cfg(), mem, sr.vsid, addr)
    {
      var hashfn := PrimaryHash(sr.vsid, addr);
      var wantH := false;
      var lookup := 0;
      ghost var c := Cfg();
      while lookup < 2
        invariant 0 <= lookup <= 2 && hashfn < HASH_LIMIT && wantH == (lookup > 0)
        invariant lookup == 0 ==> hashfn == PrimaryHash(sr.vsid, addr)
        invariant lookup == 1 ==> hashfn == SecondaryHash(PrimaryHash(sr.vsid, addr))
        invariant forall h :: (lookup >= 1 && !h) || lookup == 2 ==>
          ScanGroup(mem, ProbeGroup(c, sr.vsid, addr, h), 0, h, sr.vsid, addr).None?
      {
        var group := GroupAddr(htabPhys, htabMask, hashfn);
        var pte := 0;
        while pte < PTES_PER_GROUP
          invariant 0 <= pte <= PTES_PER_GROUP
          invariant ScanGroup(mem, group, 0, wantH, sr.vsid, addr) == ScanGroup(mem, group, pte, wantH, sr.vsid, addr)
        {
          if PteMatches(Rd(mem, PteAddr(group, pte)), wantH, sr.vsid, addr) {
            return Some(PteAddr(group, pte));
          }
          pte := pte + 1;
        }
        hashfn := SecondaryHash(hashfn);
        wantH := true;
        lookup := lookup + 1;
      }
      slot := None;
    }

    /** What a matching PTE grants, with its R and C bits updated as the access requires. */
    method HitPte(slot: Word, sr: Seg, x: Access) returns (pa: Word, perms: Perms)
      requires slot % 8 == 0
      modifies this`mem
      ensures mem == TouchMem(old(mem), slot, KeyOf(sr, x.priv), x.rnw)
      ensures var w := Rd(old(mem), Second(slot)); var key := KeyOf(sr, x.priv);
        pa == Join(PageOf(w), x.ea) && perms == PagePerms(Touch(w, key, x.rnw), key)
    {
      hide Join, PageOf, Referenced, Changed, SetR, SetRC, PP;
      var pteh := Rd(mem, Second(slot));
      var key := if x.priv then sr.ks else sr.kp;
      var updateR := !Referenced(pteh);
      var updateC := !x.rnw && Writable(key, PP(pteh)) && !Changed(pteh);
      perms := Perms(Readable(key, PP(pteh)), Writable(key, PP(pteh)), !(Changed(pteh) || updateC));
      pa := Join(PageOf(pteh), x.ea);
      if updateR || updateC {
        mem := mem[Second(slot) := if updateC then SetRC(pteh) else SetR(pteh)];
      }
      TouchPerms(pteh, key, x.rnw);
    }

    /** translateEA: on a hit the page table has R and C updated and the uTLB holds the new entry. */
    method TranslateEA(x: Access) returns (r: WalkResult)
      requires Shape() && ConfigOk(Cfg())
      modifies this`mem, pi, pd, ui, ud
      ensures WalkAndInsert(devs, old(Now()), x) == (Now(), r)
    {
      hide FirstBat, FindPte, NewEntry, BatTranslate, Join, SegIndex, Touch, TouchMem, PagePerms;
      if (x.ind && !enabledI) || (!x.ind && !enabledD) {
        r := WalkHit(x.ea, Perms(true, true, false));
        UtlbInsert(x.ind, x.priv, x.ea, x.ea, r.perms);
        return;
      }
      var bat := MatchBat(x.ea, x.ind, x.priv);
      if bat.Some? {
        r := bat.value;
        if r.WalkHit? {
          UtlbInsert(x.ind, x.priv, x.ea, r.pa, r.perms);
        }
        return;
      }
      var sr := segreg[SegIndex(x.ea)];
      if x.ind && sr.n {
        return WalkFault(PermsNX);
      }
      var slot := SearchHtab(sr, x.ea);
      if slot.None? {
        return WalkFault(NoPage);
      }
      var pa, perms := HitPte(slot.value, sr, x);
      UtlbInsert(x.ind, x.priv, x.ea, pa, perms);
      r := WalkHit(pa, perms);
    }

    /** translateAddr: look up, walk on a miss, and walk again when a store meets an entry that is only unclean.
        The walk runs at most once, and the lookup after it always hits (the source's fatal exit is unreachable). */
    method TranslateAddr(x: Access) returns (out: Outcome, walks: nat)
      requires Valid() && AccessOk(x)
      modifies this`mem, pi, pd, ui, ud
      ensures Valid() && walks <= 1
      ensures CachedTranslate(devs, old(Now()), x) == (Now(), out)
      ensures ScratchTranslate(devs, old(Now().arch), x) == (Now().arch, out)
    {
      hide WellPlaced, SideOk, Walk, Tag, Index, HostAddr, OnlyRCGrew;
      ghost var start := Now();
      TranslateSimulates(devs, start, x);
      walks := 0;
      var hit, host, perms := UtlbLookup(x.ind, x.priv, x.ea);
      var doLookup := !hit;
      while true
        invariant walks == 0 && Now() == start && (doLookup ==> NeedsWalk(start, x))
        invariant !doLookup ==> var e := Side(start.tlb, x.ind, x.priv)[Index(x.ea)];
          Hits(start, x) && host == HostAddr(e, x.ea) && perms == e.perms
        decreases if doLookup then 0 else 1
      {
        if doLookup {
          var r := TranslateEA(x);
          walks := walks + 1;
          if r.WalkFault? {
            return Faulted(r.fault), walks;
          }
          hit, host, perms := UtlbLookup(x.ind, x.priv, x.ea);
          assert hit;
        }
        if Allowed(perms, x.rnw, x.ind) {
          return Translated(host), walks;
        }
        if !OnlyUnclean(perms, x.rnw, x.ind) {
          return Faulted(PermsFault), walks;
        }
        doLookup := true;
      }
    }

    // -------------------------------------------------------------- Register writes and invalidation

    method SetIrDr(ir: bool, dr: bool)
      requires Valid()
      modifies this`enabledI, this`enabledD
      ensures Valid() && CachedStep(devs, old(Now()), Op.SetIrDr(ir, dr)) == (Now(), Done)
    {
      enabledD, enabledI := dr, ir;
      StepSimulates(devs, old(Now()), Op.SetIrDr(ir, dr));
    }

    method SetIbatUpper(bat: nat, val: Word)
      requires Valid() && bat < NR_BATS
      modifies this`generationCount, ibat, pi, ui
      ensures Valid() && CachedStep(devs, old(Now()), Op.SetIbatUpper(bat, val)) == (Now(), Done)
    {
      ibat[bat] := BatWithUpper(ibat[bat], val);
      IutlbInv();
      generationCount := generationCount + 1;
      StepSimulates(devs, old(Now()), Op.SetIbatUpper(bat, val));
    }

    method SetIbatLower(bat: nat, val: Word)
      requires Valid() && bat < NR_BATS
      modifies this`generationCount, ibat, pi, ui
      ensures Valid() && CachedStep(devs, old(Now()), Op.SetIbatLower(bat, val)) == (Now(), Done)
    {
      ibat[bat] := BatWithLower(ibat[bat], val);
      IutlbInv();
      generationCount := generationCount + 1;
      StepSimulates(devs, old(Now()), Op.SetIbatLower(bat, val));
    }

    method SetDbatUpper(bat: nat, val: Word)
      requires Valid() && bat < NR_BATS
      modifies this`generationCount, dbat, pd, ud
      ensures Valid() && CachedStep(devs, old(Now()), Op.SetDbatUpper(bat, val)) == (Now(), Done)
    {
      dbat[bat] := BatWithUpper(dbat[bat], val);
      DutlbInv();
      generationCount := generationCount + 1;
      StepSimulates(devs, old(Now()), Op.SetDbatUpper(bat, val));
    }

    method SetDbatLower(bat: nat, val: Word)
      requires Valid() && bat < NR_BATS
      modifies this`generationCount, dbat, pd, ud
      ensures Valid() && CachedStep(devs, old(Now()), Op.SetDbatLower(bat, val)) == (Now(), Done)
    {
      dbat[bat] := BatWithLower(dbat[bat], val);
      DutlbInv();
      generationCount := generationCount + 1;
      StepSimulates(devs, old(Now()), Op.SetDbatLower(bat, val));
    }

    method SetSegmentReg(sr: nat, val: Word)
      requires Valid() && sr < NR_SEGS
      modifies this`generationCount, segreg, pi, pd, ui, ud
      ensures Valid() && CachedStep(devs, old(Now()), Op.SetSegment(sr, val)) == (Now(), Done)
    {
      segreg[sr] := SegOf(val);
      DutlbInv();
      IutlbInv();
      generationCount := generationCount + 1;
      StepSimulates(devs, old(Now()), Op.SetSegment(sr, val));
    }

    method SetSdr1(val: Word)
      requires Valid()
      modifies this`generationCount, this`htabPhys, this`htabMask, pi, pd, ui, ud
      ensures Valid() && CachedStep(devs, old(Now()), Op.SetSdr1(val)) == (Now(), Done)
    {
      htabPhys := HtabBase(val);
      htabMask := HtabMask(val);
      IutlbInv();
      DutlbInv();
      generationCount := generationCount + 1;
      StepSimulates(devs, old(Now()), Op.SetSdr1(val));
    }

    method Tlbie()
      requires Valid()
      modifies this`generationCount, pi, pd, ui, ud
      ensures Valid() && CachedStep(devs, old(Now()), Op.Tlbie) == (Now(), Done)
    {
      DutlbInv();
      IutlbInv();
      generationCount := generationCount + 1;
      StepSimulates(devs, old(Now()), Op.Tlbie);
    }

    method Tlbia()
      requires Valid()
      modifies this`generationCount, pi, pd, ui, ud
      ensures Valid() && CachedStep(devs, old(Now()), Op.Tlbia) == (Now(), Done)
    {
      DutlbInv();
      IutlbInv();
      generationCount := generationCount + 1;
      StepSimulates(devs, old(Now()), Op.Tlbia);
    }

    // -------------------------------------------------------------- Loads and stores

    /** The bus address a from-scratch walk gives, when it gives one. */
    ghost function BusAddr(a: Arch, x: Access): Word
      requires ConfigOk(a.cfg)
    {
      var r := Walk(a.cfg, On(a, x.ind), a.mem, x.ea, x.ind, x.rnw, x.priv).0;
      if r.WalkHit? then r.pa else 0
    }

    /** load8, load16 and load32, by size. Whatever the uTLB holds, the value is the one a walk from scratch followed
        by a bus read gives, and the faults are the walk's or the access's misalignment in the bus address. */
    method Load(addr: Word, n: nat, priv: bool, device: (Word, nat) -> nat) returns (fault: Option<Fault>, val: nat)
      requires Valid() && n in {1, 2, 4}
      modifies this`mem, pi, pd, ui, ud
      ensures Valid()
      ensures var x := Access(addr, false, true, priv); var (a, out) := ScratchTranslate(devs, old(Now().arch), x);
        && Now().arch == a
        && (out.Faulted? ==> fault == Some(out.fault))
        && (out.Translated? ==>
              var pa := BusAddr(old(Now().arch), x);
              val == BusRead(devs, data, device, pa, n) && fault == if Misaligned(pa, n) then Some(AlignFault) else None)
        && (out.Translated? ==>
              && val == LoadVia(devs, data, device, out.host, n)
              && fault == if Misaligned(out.host, n) then Some(AlignFault) else None)
    {
      hide WellPlaced, Walk, CachedTranslate, BusRead;
      ghost var start := Now().arch;
      var x := Access(addr, false, true, priv);
      var out, _ := TranslateAddr(x);
      val := 0;
      match out
      case Faulted(f) => fault := Some(f);
      case Done =>
      case Translated(host) =>
        val := LoadVia(devs, data, device, host, n);
        fault := if Misaligned(host, n) then Some(AlignFault) else None;
        LoadIsBusRead(devs, data, device, BusAddr(start, x), n);
        SameOffset(devs, BusAddr(start, x));
        hide HostOf, LoadVia;
    }

    /** loadInst32: an instruction fetch; it has no alignment test. */
    method LoadInst32(addr: Word, priv: bool, device: (Word, nat) -> nat) returns (fault: Option<Fault>, val: nat)
      requires Valid()
      modifies this`mem, pi, pd, ui, ud
      ensures Valid()
      ensures var x := Access(addr, true, true, priv); var (a, out) := ScratchTranslate(devs, old(Now().arch), x);
        && Now().arch == a
        && (out.Faulted? ==> fault == Some(out.fault))
        && (out.Translated? ==> fault == None && val == BusRead(devs, data, device, BusAddr(old(Now().arch), x), 4))
        && (out.Translated? ==> val == LoadVia(devs, data, device, out.host, 4))
    {
      hide WellPlaced, Walk, CachedTranslate, BusRead;
      ghost var start := Now().arch;
      var x := Access(addr, true, true, priv);
      var out, _ := TranslateAddr(x);
      fault, val := None, 0;
      match out
      case Faulted(f) => fault := Some(f);
      case Done =>
      case Translated(host) =>
        val := LoadVia(devs, data, device, host, 4);
        LoadIsBusRead(devs, data, device, BusAddr(start, x), 4);
        hide HostOf, LoadVia;
    }

    /** store8, store16 and store32, by size. A translation fault leaves the data alone; a misaligned store is done
        and then reported; and outside ROM what is done is the bus write after a walk from scratch. */
    method Store(addr: Word, n: nat, v: nat, priv: bool) returns (fault: Option<Fault>)
      requires Valid() && n in {1, 2, 4}
      modifies this`mem, this`data, pi, pd, ui, ud
      ensures Valid()
      ensures var x := Access(addr, false, false, priv); var (a, out) := ScratchTranslate(devs, old(Now().arch), x);
        && Now().arch == a
        && (out.Faulted? ==> fault == Some(out.fault) && data == old(data))
        && (out.Translated? ==>
              var pa := BusAddr(old(Now().arch), x);
              && data == StoreVia(devs, old(data), HostOf(devs, pa), n, v)
              && (!InRom(devs, pa) ==> data == BusWrite(devs, old(data), pa, n, v))
              && fault == if Misaligned(pa, n) then Some(AlignFault) else None)
        && (out.Translated? ==>
              && data == StoreVia(devs, old(data), out.host, n, v)
              && fault == if Misaligned(out.host, n) then Some(AlignFault) else None)
    {
      hide WellPlaced, Walk, CachedTranslate, BusWrite, InRom;
      ghost var start := Now().arch;
      var x := Access(addr, false, false, priv);
      var out, _ := TranslateAddr(x);
      match out
      case Faulted(f) => fault := Some(f);
      case Done => fault := None;
      case Translated(host) =>
        StoreIsBusWriteIff(devs, data, BusAddr(start, x), n, v);
        data := StoreVia(devs, data, host, n, v);
        fault := if Misaligned(host, n) then Some(AlignFault) else None;
        SameOffset(devs, BusAddr(start, x));
        hide HostOf, StoreVia;
    }
  }

  lemma SameOffset(devs: seq<Device>, pa: Word)
    requires WellPlaced(devs)
    ensures HostOf(devs, pa) % 8 == pa % 8
  {
    HostPages(devs, pa);
    OffsetMod8(HostOf(devs, pa));
    OffsetMod8(pa);
  }

  lemma OffsetMod8(a: nat)
    ensures a % 8 == a % 0x1000 % 8
  {
    var q, r := a / 0x1000, a % 0x1000;
    assert a == 8 * (0x200 * q + r / 8) + r % 8;
  }
}
