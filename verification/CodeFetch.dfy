/** Fetching instructions along a page: what a fetch that was translated says about later ones, while the MMU's
    configuration stands still (loadInst32 and translateAddr as the JIT uses them, blockgen.cc, blockstore.h). */
module CodeFetch {
  import opened Words
  import opened MmuTypes
  import opened PageWalk
  import opened WalkSpec
  import opened BusMap
  import opened DirectTlb
  import opened CpuTypes

  function FetchAccess(va: Word, priv: bool): Access { Access(va, true, true, priv) }

  /** A fetch at `va` is translated to host address `host`, and leaves the page table as it is. */
  ghost predicate Fetchable(devs: seq<Device>, a: Arch, priv: bool, va: Word, host: nat) {
    ConfigOk(a.cfg) && ScratchTranslate(devs, a, FetchAccess(va, priv)) == (a, Translated(host))
  }

  /** That is a fact about the page of `va`. */
  ghost predicate PageFetches(devs: seq<Device>, a: Arch, priv: bool, base: Word, frame: nat, perms: Perms)
    requires ConfigOk(a.cfg)
  {
    var r := Walk(a.cfg, a.ir, a.mem, base, true, true, priv).0;
    r.WalkHit? && Settled(a.cfg, a.ir, a.mem, base, true, priv, r.pa, perms) && HostOf(devs, r.pa) == frame && perms.r
  }

  lemma FetchesByPage(devs: seq<Device>, a: Arch, priv: bool, va: Word, host: nat) returns (perms: Perms)
    requires WellPlaced(devs) && Fetchable(devs, a, priv, va, host)
    ensures host % 0x1000 == va % 0x1000 && host >= va % 0x1000
    ensures PageFetches(devs, a, priv, BaseOf(va), host - va % 0x1000, perms)
  {
    hide Walk, HostOf, WellPlaced, ConfigOk;
    OffsetsCarry(devs, a.cfg, a.ir, a.mem, va, true, true, priv);
    var (r, _) := Walk(a.cfg, a.ir, a.mem, va, true, true, priv);
    assert r.WalkHit? && host == HostOf(devs, r.pa);
    perms := Walk(a.cfg, a.ir, a.mem, BaseOf(va), true, true, priv).0.perms;
  }

  lemma PageGivesFetches(devs: seq<Device>, a: Arch, priv: bool, va: Word, frame: nat, perms: Perms)
    requires WellPlaced(devs) && ConfigOk(a.cfg) && PageFetches(devs, a, priv, BaseOf(va), frame, perms)
    ensures Fetchable(devs, a, priv, va, frame + va % 0x1000)
  {
    hide Walk, HostOf, WellPlaced, ConfigOk;
    OffsetsCarry(devs, a.cfg, a.ir, a.mem, va, true, true, priv);
  }

  /** `a'` is `a` with perhaps R and C bits added to the page table, and data translation switched. */
  ghost predicate SameCodeMap(a: Arch, a': Arch) { a' == a.(mem := a'.mem, dr := a'.dr) && OnlyRCGrew(a.mem, a'.mem) }

  /** Everywhere in the page: fetches come from the same frame, also after R and C bits have been added to. */
  lemma FetchesInPage(devs: seq<Device>, a: Arch, a': Arch, priv: bool, va: Word, host: nat, va': Word)
    requires WellPlaced(devs) && Fetchable(devs, a, priv, va, host) && SameCodeMap(a, a') && BaseOf(va') == BaseOf(va)
    ensures host >= va % 0x1000 && Fetchable(devs, a', priv, va', host - va % 0x1000 + va' % 0x1000)
  {
    hide Walk, HostOf, WellPlaced, ConfigOk, OnlyRCGrew, ScratchTranslate, Settled;
    var perms := FetchesByPage(devs, a, priv, va, host);
    var pa := Walk(a.cfg, a.ir, a.mem, BaseOf(va), true, true, priv).0.pa;
    SettledStable(a.cfg, a.ir, a.mem, a'.mem, BaseOf(va), true, priv, pa, perms);
    SettledAddress(a.cfg, a.ir, a'.mem, BaseOf(va), true, priv, pa, perms);
    PageGivesFetches(devs, a', priv, va', host - va % 0x1000, perms);
  }

  lemma SettledAddress(c: Config, on: bool, m: Mem, base: Word, ind: bool, priv: bool, pa: Word, perms: Perms)
    requires ConfigOk(c) && Settled(c, on, m, base, ind, priv, pa, perms)
    ensures var r := Walk(c, on, m, base, ind, true, priv).0; r.WalkHit? && r.pa == pa
  {
    hide Walk, ConfigOk;
  }

  lemma NextInPage(va: Word)
    requires va % 0x1000 + 4 < 0x1000
    ensures BaseOf(NextPc(va)) == BaseOf(va) && NextPc(va) % 0x1000 == va % 0x1000 + 4
  {
  }

  /** The next word of the page comes from the next word of the frame. */
  lemma NextFetch(devs: seq<Device>, a: Arch, a': Arch, priv: bool, va: Word, host: nat)
    requires WellPlaced(devs) && Fetchable(devs, a, priv, va, host) && SameCodeMap(a, a') && va % 0x1000 + 4 < 0x1000
    ensures Fetchable(devs, a', priv, NextPc(va), host + 4)
  {
    hide Fetchable, WellPlaced, SameCodeMap, NextPc, BaseOf;
    NextInPage(va);
    FetchesInPage(devs, a, a', priv, va, host, NextPc(va));
  }

  /** Once a fetch has been translated, fetching there again gives the same place and writes nothing. */
  lemma FetchSettles(devs: seq<Device>, a: Arch, priv: bool, va: Word)
    requires WellPlaced(devs) && ConfigOk(a.cfg)
    ensures var (a', out) := ScratchTranslate(devs, a, FetchAccess(va, priv));
      && SameCodeMap(a, a') && (out.Translated? ==> Fetchable(devs, a', priv, va, out.host))
  {
    hide Walk, HostOf, WellPlaced, ConfigOk, OnlyRCGrew, Settled;
    var (r, m) := Walk(a.cfg, a.ir, a.mem, va, true, true, priv);
    WalkGrowsRC(a.cfg, a.ir, a.mem, va, true, true, priv);
    GrewSelf(a.mem);
    GrewSelf(m);
    OffsetsCarry(devs, a.cfg, a.ir, a.mem, va, true, true, priv);
    WalkSettles(a.cfg, a.ir, a.mem, m, BaseOf(va), true, true, priv);
    if r.WalkHit? && r.perms.r {
      var base := Walk(a.cfg, a.ir, a.mem, BaseOf(va), true, true, priv).0;
      SettledAddress(a.cfg, a.ir, m, BaseOf(va), true, priv, base.pa, base.perms);
      SettledAgain(devs, a.(mem := m), priv, BaseOf(va), base.pa, base.perms);
      PageGivesFetches(devs, a.(mem := m), priv, va, HostOf(devs, base.pa), base.perms);
    }
  }

  lemma SettledAgain(devs: seq<Device>, a: Arch, priv: bool, base: Word, pa: Word, perms: Perms)
    requires ConfigOk(a.cfg) && Settled(a.cfg, a.ir, a.mem, base, true, priv, pa, perms) && perms.r
    ensures PageFetches(devs, a, priv, base, HostOf(devs, pa), perms)
  {
    hide Walk, HostOf, ConfigOk;
  }
}
