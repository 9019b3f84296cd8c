/** The fully associative uTLB variant (PPCMMU_utlb_assoc.h): eight entries a side, filled in rotation by one index that
    all four sides share, and searched from slot 0. A re-walk can leave a stale duplicate in front of the entry it
    inserts, so the re-walk loop may go round again; it still ends, and its answers are those of a walk from scratch. */
module AssocTlb {
  import opened Words
  import opened MmuTypes
  import opened PageWalk
  import opened WalkSpec
  import opened BusMap
  import opened DirectTlb

  const SLOTS: nat := 8

  /** The first slot at or after `i` whose tag matches; `|side|` if none does. */
  function FirstHit(side: seq<Utlb>, i: nat, tag: nat): (r: nat)
    requires i <= |side|
    ensures i <= r <= |side| && (r < |side| ==> side[r].ea == tag)
    ensures forall k :: i <= k < r ==> side[k].ea != tag
    decreases |side| - i
  {
    if i == |side| || side[i].ea == tag then i else FirstHit(side, i + 1, tag)
  }

  /** How many walks one access takes, when the rotating index is at `idx` and the tag is first found in slot `hit`
      (`SLOTS` if nowhere) with permissions that do or do not call for a walk. */
  function WalksNeeded(idx: nat, hit: nat, unclean: bool): nat {
    if hit < SLOTS && !unclean then 0
    else if idx <= hit then 1
    else if idx <= SLOTS then SLOTS + 1 - idx else 0
  }

  lemma InsertMovesHit(side: seq<Utlb>, idx: nat, tag: nat, e: Utlb)
    requires |side| == SLOTS && idx < SLOTS && e.ea == tag
    ensures FirstHit(side[idx := e], 0, tag) == if idx <= FirstHit(side, 0, tag) then idx else FirstHit(side, 0, tag)
  {
    var s', h, h' := side[idx := e], FirstHit(side, 0, tag), FirstHit(side[idx := e], 0, tag);
    assert s'[idx].ea == tag;
    assert forall k :: 0 <= k < |side| && k != idx ==> s'[k] == side[k];
  }

  function Blank(): seq<Utlb> { seq(SLOTS, _ => EMPTY) }

  lemma BlankOk(devs: seq<Device>, c: Config, m: Mem, ind: bool, priv: bool)
    requires ConfigOk(c)
    ensures SideOk(devs, c, m, ind, priv, Blank())
  {
  }

  /** Whatever an entry remembers, a walk for the same page still hits, for reading or writing. */
  lemma RememberedWalksHit(devs: seq<Device>, a: Arch, x: Access, e: Utlb)
    requires ConfigOk(a.cfg) && WellPlaced(devs)
    requires EntryOk(devs, a.cfg, a.mem, x.ind, x.priv, e) && e.ea == Tag(x.ea, On(a, x.ind))
    ensures Walk(a.cfg, On(a, x.ind), a.mem, x.ea, x.ind, x.rnw, x.priv).0.WalkHit?
  {
    var on := On(a, x.ind);
    assert Remembers(devs, a.cfg, a.mem, x.ea, on, x.ind, x.priv, e);
    OffsetsCarry(devs, a.cfg, on, a.mem, x.ea, x.ind, x.rnw, x.priv);
    HitIgnoresDirection(a.cfg, on, a.mem, BaseOf(x.ea), x.ind, x.priv);
    hide Walk, HostOf, WellPlaced, ConfigOk;
  }

  lemma HitIgnoresDirection(c: Config, on: bool, m: Mem, ea: Word, ind: bool, priv: bool)
    requires ConfigOk(c)
    ensures Walk(c, on, m, ea, ind, true, priv).0.WalkHit? == Walk(c, on, m, ea, ind, false, priv).0.WalkHit?
  {
    hide FirstBat, FindPte, BatTranslate, PagePerms, TouchMem, SegIndex, Join;
  }

  /** Doing an access again, once its walk has hit, gives the same answer and changes nothing. */
  lemma ScratchRepeats(devs: seq<Device>, a: Arch, x: Access)
    requires ConfigOk(a.cfg) && WellPlaced(devs) && AccessOk(x)
    ensures var (r, m) := Walk(a.cfg, On(a, x.ind), a.mem, x.ea, x.ind, x.rnw, x.priv);
      var (a', out) := ScratchTranslate(devs, a, x);
      r.WalkHit? ==> a' == a.(mem := m) && ScratchTranslate(devs, a', x) == (a', out)
  {
    hide Walk, HostOf, WellPlaced, ConfigOk, EntryOk;
    var on := On(a, x.ind);
    var (r, m) := Walk(a.cfg, on, a.mem, x.ea, x.ind, x.rnw, x.priv);
    if r.WalkHit? {
      NewEntryOk(devs, a.cfg, on, a.mem, x);
      WriteWalkCleans(a.cfg, on, a.mem, x.ea, x.ind, x.priv);
      HitIsFresh(devs, a.(mem := m), x, NewEntry(devs, x.ea, on, r.pa, r.perms));
    }
  }

  class AssocMmu {
    const devs: seq<Device>
    const pi: array<Utlb>
    const pd: array<Utlb>
    const ui: array<Utlb>
    const ud: array<Utlb>
    var arch: Arch
    var utlbIdx: nat

    ghost predicate Shape() {
      && pi != pd && pi != ui && pi != ud && pd != ui && pd != ud && ui != ud
      && pi.Length == pd.Length == ui.Length == ud.Length == SLOTS
    }

    ghost predicate Valid()
      reads this, pi, pd, ui, ud
    {
      && Shape() && WellPlaced(devs) && utlbIdx < SLOTS && ConfigOk(arch.cfg)
      && SideOk(devs, arch.cfg, arch.mem, true, true, pi[..])
      && SideOk(devs, arch.cfg, arch.mem, false, true, pd[..])
      && SideOk(devs, arch.cfg, arch.mem, true, false, ui[..])
      && SideOk(devs, arch.cfg, arch.mem, false, false, ud[..])
    }

    constructor (devs: seq<Device>, mem: Mem)
      requires WellPlaced(devs)
      ensures Valid() && this.devs == devs && arch == Arch(ResetConfig(), false, false, mem) && utlbIdx == 0
      ensures pi[..] == pd[..] == ui[..] == ud[..] == Blank()
      ensures fresh(pi) && fresh(pd) && fresh(ui) && fresh(ud)
    {
      this.devs := devs;
      pi := new Utlb[SLOTS](_ => EMPTY);
      pd := new Utlb[SLOTS](_ => EMPTY);
      ui := new Utlb[SLOTS](_ => EMPTY);
      ud := new Utlb[SLOTS](_ => EMPTY);
      arch, utlbIdx := Arch(ResetConfig(), false, false, mem), 0;
      new;
      hide SideOk, WellPlaced, ConfigOk;
      assert pi[..] == Blank() && pd[..] == Blank() && ui[..] == Blank() && ud[..] == Blank();
      forall ind, priv ensures SideOk(devs, arch.cfg, mem, ind, priv, Blank()) {
        BlankOk(devs, arch.cfg, mem, ind, priv);
      }
    }

    function SelectUtlb(ind: bool, priv: bool): array<Utlb> {
      if priv && ind then pi else if priv && !ind then pd else if !priv && ind then ui else ud
    }

    method UtlbLookup(x: Access) returns (i: nat)
      requires Shape()
      ensures i == FirstHit(SelectUtlb(x.ind, x.priv)[..], 0, Tag(x.ea, On(arch, x.ind)))
    {
      var tlb := SelectUtlb(x.ind, x.priv);
      var findEa := Tag(x.ea, On(arch, x.ind));
      i := 0;
      while i < SLOTS
        invariant 0 <= i <= SLOTS && FirstHit(tlb[..], 0, findEa) == FirstHit(tlb[..], i, findEa)
      {
        if tlb[i].ea == findEa {
          return;
        }
        i := i + 1;
      }
    }

    /** A walk, and on success the new entry in the slot the rotating index names. */
    method TranslateEA(x: Access) returns (r: WalkResult)
      requires Valid()
      modifies this, pi, pd, ui, ud
      ensures Valid()
      ensures (r, arch.mem) == Walk(old(arch.cfg), On(old(arch), x.ind), old(arch.mem), x.ea, x.ind, x.rnw, x.priv)
      ensures arch == old(arch).(mem := arch.mem)
      ensures r.WalkFault? ==> arch == old(arch)
      ensures var side := old(SelectUtlb(x.ind, x.priv)[..]); r.WalkHit? ==>
        && utlbIdx == (old(utlbIdx) + 1) % SLOTS
        && SelectUtlb(x.ind, x.priv)[..] == side[old(utlbIdx) := NewEntry(devs, x.ea, On(arch, x.ind), r.pa, r.perms)]
    {
      hide Walk, OnlyRCGrew, SideOk, EntryOk, WellPlaced, NewEntry, ConfigOk;
      var on := On(arch, x.ind);
      ghost var c, m := arch.cfg, arch.mem;
      var walk := Walk(arch.cfg, on, arch.mem, x.ea, x.ind, x.rnw, x.priv);
      r := walk.0;
      WalkGrowsRC(c, on, m, x.ea, x.ind, x.rnw, x.priv);
      WalkFaultsLeaveMemory(c, on, m, x);
      SideStable(devs, c, m, walk.1, true, true, pi[..]);
      SideStable(devs, c, m, walk.1, false, true, pd[..]);
      SideStable(devs, c, m, walk.1, true, false, ui[..]);
      SideStable(devs, c, m, walk.1, false, false, ud[..]);
      NewEntryOk(devs, c, on, m, x);
      arch := arch.(mem := walk.1);
      if r.WalkHit? {
        var tlb := SelectUtlb(x.ind, x.priv);
        SideWithEntry(devs, c, walk.1, x.ind, x.priv, tlb[..], utlbIdx, NewEntry(devs, x.ea, on, r.pa, r.perms));
        tlb[utlbIdx] := NewEntry(devs, x.ea, on, r.pa, r.perms);
        utlbIdx := (utlbIdx + 1) % SLOTS;
      }
    }

    method Flush(i: bool, d: bool)
      requires Shape()
      modifies pi, pd, ui, ud
      ensures pi[..] == (if i then Blank() else old(pi[..])) && ui[..] == (if i then Blank() else old(ui[..]))
      ensures pd[..] == (if d then Blank() else old(pd[..])) && ud[..] == (if d then Blank() else old(ud[..]))
    {
      if i {
        forall k | 0 <= k < SLOTS { pi[k] := EMPTY; }
        forall k | 0 <= k < SLOTS { ui[k] := EMPTY; }
      }
      if d {
        forall k | 0 <= k < SLOTS { pd[k] := EMPTY; }
        forall k | 0 <= k < SLOTS { ud[k] := EMPTY; }
      }
    }

    /** Register writes, mode changes and invalidations, with the flushes of PPCMMU.cc. */
    method Configure(op: Op)
      requires Valid() && OpOk(op) && !op.DoAccess?
      modifies this`arch, pi, pd, ui, ud
      ensures Valid() && ArchStep(devs, old(arch), op) == (arch, Done)
    {
      hide SideOk, WellPlaced, BatWithUpper, BatWithLower, SegOf, HtabBase, HtabMask, BatsOk;
      var keepI := op.SetIrDr? || op.SetDbatUpper? || op.SetDbatLower?;
      var keepD := op.SetIrDr? || op.SetIbatUpper? || op.SetIbatLower?;
      ghost var c := arch.cfg;
      ConfigStep(devs, arch, op);
      arch := ArchStep(devs, arch, op).0;
      Flush(!keepI, !keepD);
      forall ind, priv ensures SideOk(devs, arch.cfg, arch.mem, ind, priv, Blank()) {
        BlankOk(devs, arch.cfg, arch.mem, ind, priv);
      }
      if keepI {
        OtherSideOk(devs, c, arch.cfg, arch.mem, true, true, pi[..]);
        OtherSideOk(devs, c, arch.cfg, arch.mem, true, false, ui[..]);
      }
      if keepD {
        OtherSideOk(devs, c, arch.cfg, arch.mem, false, true, pd[..]);
        OtherSideOk(devs, c, arch.cfg, arch.mem, false, false, ud[..]);
      }
    }

    /** A slot that hits, and is not an unclean one met by a store, answers as a walk from scratch would. */
    lemma SlotIsFresh(x: Access, i: nat)
      requires Valid() && AccessOk(x) && i < SLOTS
      requires SelectUtlb(x.ind, x.priv)[i].ea == Tag(x.ea, On(arch, x.ind))
      requires !OnlyUnclean(SelectUtlb(x.ind, x.priv)[i].perms, x.rnw, x.ind)
      ensures ScratchTranslate(devs, arch, x) == (arch, Checked(SelectUtlb(x.ind, x.priv)[i], x))
    {
      hide Walk, HostOf, ScratchTranslate;
      var side := SelectUtlb(x.ind, x.priv)[..];
      SlotOk(devs, arch.cfg, arch.mem, x.ind, x.priv, side, i);
      HitIsFresh(devs, arch, x, side[i]);
    }

    /** The `do_lookup` block: walk, then look up again. The new entry is found unless a stale one sits in front of it. */
    method WalkThenLookup(x: Access, ghost hit: nat) returns (r: WalkResult, next: nat)
      requires Valid() && AccessOk(x)
      requires var side := SelectUtlb(x.ind, x.priv)[..];
        hit == FirstHit(side, 0, Tag(x.ea, On(arch, x.ind))) && (hit < SLOTS ==> OnlyUnclean(side[hit].perms, x.rnw, x.ind))
      modifies this, pi, pd, ui, ud
      ensures Valid() && arch == old(arch).(mem := arch.mem)
      ensures next == FirstHit(SelectUtlb(x.ind, x.priv)[..], 0, Tag(x.ea, On(arch, x.ind)))
      ensures r.WalkFault? ==> hit == SLOTS && ScratchTranslate(devs, old(arch), x) == (arch, Faulted(r.fault))
      ensures r.WalkHit? ==>
        && ScratchTranslate(devs, arch, x) == ScratchTranslate(devs, old(arch), x)
        && utlbIdx == (old(utlbIdx) + 1) % SLOTS
        && next == (if old(utlbIdx) <= hit then old(utlbIdx) else hit)
        && (OnlyUnclean(SelectUtlb(x.ind, x.priv)[next].perms, x.rnw, x.ind) <==> old(utlbIdx) > hit)
    {
      hide Walk, OnlyRCGrew, EntryOk, WellPlaced, HostAddr, Tag, ConfigOk, HostOf;
      ghost var side, idx, tag, on := SelectUtlb(x.ind, x.priv)[..], utlbIdx, Tag(x.ea, On(arch, x.ind)), On(arch, x.ind);
      ScratchRepeats(devs, arch, x);
      WriteWalkCleans(arch.cfg, on, arch.mem, x.ea, x.ind, x.priv);
      if hit < SLOTS {
        RememberedWalksHit(devs, arch, x, side[hit]);
      }
      r := TranslateEA(x);
      if r.WalkHit? {
        InsertMovesHit(side, idx, tag, NewEntry(devs, x.ea, on, r.pa, r.perms));
      }
      next := UtlbLookup(x);
    }

    /** translateAddr over this uTLB: the same answer and page table as a walk from scratch, after the stated number of
        walks, which is never more than eight. */
    method TranslateAddr(x: Access) returns (out: Outcome, walks: nat)
      requires Valid() && AccessOk(x)
      modifies this, pi, pd, ui, ud
      ensures Valid()
      ensures ScratchTranslate(devs, old(arch), x) == (arch, out)
      ensures var side := old(SelectUtlb(x.ind, x.priv)[..]); var hit := FirstHit(side, 0, Tag(x.ea, On(old(arch), x.ind)));
        walks == WalksNeeded(old(utlbIdx), hit, hit < SLOTS && OnlyUnclean(side[hit].perms, x.rnw, x.ind)) <= SLOTS
    {
      hide Walk, EntryOk, SideOk, WellPlaced, HostAddr, Tag, ConfigOk, ScratchTranslate, FirstHit;
      assert Shape();
      hide Valid;
      ghost var start, total, tag := arch, 0, Tag(x.ea, On(arch, x.ind));
      walks := 0;
      var tlb := SelectUtlb(x.ind, x.priv);
      var hit := UtlbLookup(x);
      total := WalksNeeded(utlbIdx, hit, hit < SLOTS && OnlyUnclean(tlb[hit].perms, x.rnw, x.ind));
      var doLookup := hit == SLOTS;
      while true
        invariant Valid() && arch == start.(mem := arch.mem) && hit == FirstHit(tlb[..], 0, tag)
        invariant ScratchTranslate(devs, arch, x) == ScratchTranslate(devs, start, x)
        invariant doLookup ==> hit == SLOTS || OnlyUnclean(tlb[hit].perms, x.rnw, x.ind)
        invariant hit == SLOTS ==> doLookup && arch == start
        invariant walks + WalksNeeded(utlbIdx, hit, hit < SLOTS && OnlyUnclean(tlb[hit].perms, x.rnw, x.ind)) == total
        decreases if doLookup then 0 else 1, WalksNeeded(utlbIdx, hit, true)
      {
        if doLookup {
          var r;
          r, hit := WalkThenLookup(x, hit);
          walks := walks + 1;
          if r.WalkFault? {
            return Faulted(r.fault), walks;
          }
        }
        var t := tlb[hit];
        if !OnlyUnclean(t.perms, x.rnw, x.ind) {
          SlotIsFresh(x, hit);
        }
        if Allowed(t.perms, x.rnw, x.ind) {
          return Translated(HostAddr(t, x.ea)), walks;
        }
        if !OnlyUnclean(t.perms, x.rnw, x.ind) {
          return Faulted(PermsFault), walks;
        }
        doLookup := true;
      }
    }
  }

  lemma SlotOk(devs: seq<Device>, c: Config, m: Mem, ind: bool, priv: bool, side: seq<Utlb>, i: nat)
    requires ConfigOk(c) && SideOk(devs, c, m, ind, priv, side) && i < |side|
    ensures EntryOk(devs, c, m, ind, priv, side[i])
  {
  }

  lemma WalkFaultsLeaveMemory(c: Config, on: bool, m: Mem, x: Access)
    requires ConfigOk(c)
    ensures var (r, m') := Walk(c, on, m, x.ea, x.ind, x.rnw, x.priv); r.WalkFault? ==> m' == m
  {
  }
}
