/** The direct-mapped uTLB of the default build as a function on values (PPCMMU_utlb_dm.h, translateAddr in PPCMMU.h),
    and the proof that it is invisible: every run gives the results, faults and page-table contents of a machine that
    walks from scratch on each access. */
module DirectTlb {
  import opened Words
  import opened MmuTypes
  import opened PageWalk
  import opened WalkSpec
  import opened BusMap

  const ENTRIES: nat := 128

  /** `ea` is the page address with flags in the low bits: TR (1) for translation on, VALID (2).
      `frame` is the page part of the host address or I/O-tagged bus address. */
  datatype Utlb = Utlb(ea: nat, frame: nat, perms: Perms)

  const EMPTY: Utlb := Utlb(0, 0, Perms(false, false, false))

  /** The four uTLBs: instruction or data side, privileged or user. */
  datatype Tlbs = Tlbs(pi: seq<Utlb>, pd: seq<Utlb>, ui: seq<Utlb>, ud: seq<Utlb>)

  /** What the architecture can see. */
  datatype Arch = Arch(cfg: Config, ir: bool, dr: bool, mem: Mem)

  datatype State = State(arch: Arch, tlb: Tlbs, gen: nat)

  datatype Outcome = Translated(host: nat) | Faulted(fault: Fault) | Done

  /** One access: its address, instruction or data side, read or write, privileged or not. */
  datatype Access = Access(ea: Word, ind: bool, rnw: bool, priv: bool)

  /** Instruction fetches are reads at every call site of translateAddr. */
  predicate AccessOk(x: Access) { x.ind ==> x.rnw }

  function On(a: Arch, ind: bool): bool { if ind then a.ir else a.dr }

  function Tag(ea: Word, on: bool): nat { ea - ea % 0x1000 + 2 + (if on then 1 else 0) }

  function Index(ea: Word): (i: nat)
    ensures i < ENTRIES
  {
    ea / 0x1000 % ENTRIES
  }

  function Side(t: Tlbs, ind: bool, priv: bool): seq<Utlb> {
    if priv then (if ind then t.pi else t.pd) else if ind then t.ui else t.ud
  }

  function WithSide(t: Tlbs, ind: bool, priv: bool, s: seq<Utlb>): Tlbs {
    if priv then (if ind then t.(pi := s) else t.(pd := s)) else if ind then t.(ui := s) else t.(ud := s)
  }

  predicate Sized(t: Tlbs) { |t.pi| == |t.pd| == |t.ui| == |t.ud| == ENTRIES }

  function NewEntry(devs: seq<Device>, ea: Word, on: bool, pa: Word, perms: Perms): Utlb {
    var host := HostOf(devs, pa);
    Utlb(Tag(ea, on), host - host % 0x1000, perms)
  }

  function HostAddr(e: Utlb, ea: Word): nat { e.frame + ea % 0x1000 }

  // ---------------------------------------------------------------- The two machines

  /** Translation that remembers nothing. */
  function ScratchTranslate(devs: seq<Device>, a: Arch, x: Access): (Arch, Outcome)
    requires ConfigOk(a.cfg)
  {
    var (r, m) := Walk(a.cfg, On(a, x.ind), a.mem, x.ea, x.ind, x.rnw, x.priv);
    match r
    case WalkFault(f) => (a, Faulted(f))
    case WalkHit(pa, perms) =>
      (a.(mem := m), if Allowed(perms, x.rnw, x.ind) then Translated(HostOf(devs, pa)) else Faulted(PermsFault))
  }

  function Checked(e: Utlb, x: Access): Outcome {
    if Allowed(e.perms, x.rnw, x.ind) then Translated(HostAddr(e, x.ea)) else Faulted(PermsFault)
  }

  /** translateEA with its utlbInsert. */
  function WalkAndInsert(devs: seq<Device>, s: State, x: Access): (State, WalkResult)
    requires ConfigOk(s.arch.cfg) && Sized(s.tlb)
  {
    var on := On(s.arch, x.ind);
    var (r, m) := Walk(s.arch.cfg, on, s.arch.mem, x.ea, x.ind, x.rnw, x.priv);
    match r
    case WalkFault(_) => (s, r)
    case WalkHit(pa, perms) =>
      var side := Side(s.tlb, x.ind, x.priv)[Index(x.ea) := NewEntry(devs, x.ea, on, pa, perms)];
      (s.(arch := s.arch.(mem := m), tlb := WithSide(s.tlb, x.ind, x.priv, side)), r)
  }

  predicate Hits(s: State, x: Access)
    requires Sized(s.tlb)
  {
    Side(s.tlb, x.ind, x.priv)[Index(x.ea)].ea == Tag(x.ea, On(s.arch, x.ind))
  }

  predicate NeedsWalk(s: State, x: Access)
    requires Sized(s.tlb)
  {
    !Hits(s, x) || OnlyUnclean(Side(s.tlb, x.ind, x.priv)[Index(x.ea)].perms, x.rnw, x.ind)
  }

  /** Translation through the uTLB: at most one walk. */
  function CachedTranslate(devs: seq<Device>, s: State, x: Access): (State, Outcome)
    requires ConfigOk(s.arch.cfg) && Sized(s.tlb)
  {
    if !NeedsWalk(s, x) then (s, Checked(Side(s.tlb, x.ind, x.priv)[Index(x.ea)], x))
    else
      var (s', r) := WalkAndInsert(devs, s, x);
      match r
      case WalkFault(f) => (s', Faulted(f))
      case WalkHit(_, _) => (s', Checked(Side(s'.tlb, x.ind, x.priv)[Index(x.ea)], x))
  }

  // ---------------------------------------------------------------- Everything else that happens to an MMU

  datatype Op =
    | DoAccess(x: Access)
    | SetIrDr(ir: bool, dr: bool)
    | SetIbatUpper(i: nat, val: Word)
    | SetIbatLower(i: nat, val: Word)
    | SetDbatUpper(i: nat, val: Word)
    | SetDbatLower(i: nat, val: Word)
    | SetSegment(i: nat, val: Word)
    | SetSdr1(val: Word)
    | Tlbie
    | Tlbia
    | EditPte(a: Word, val: Word)  // a guest store to the page table, and the tlbie that must follow it

  predicate OpOk(op: Op) {
    match op
    case DoAccess(x) => AccessOk(x)
    case SetIbatUpper(i, _) => i < NR_BATS
    case SetIbatLower(i, _) => i < NR_BATS
    case SetDbatUpper(i, _) => i < NR_BATS
    case SetDbatLower(i, _) => i < NR_BATS
    case SetSegment(i, _) => i < NR_SEGS
    case _ => true
  }

  function Empty(): seq<Utlb> { seq(ENTRIES, _ => EMPTY) }

  function FlushI(t: Tlbs): Tlbs { t.(pi := Empty(), ui := Empty()) }

  function FlushD(t: Tlbs): Tlbs { t.(pd := Empty(), ud := Empty()) }

  function FlushAll(t: Tlbs): Tlbs { Tlbs(Empty(), Empty(), Empty(), Empty()) }

  function ArchStep(devs: seq<Device>, a: Arch, op: Op): (Arch, Outcome)
    requires ConfigOk(a.cfg) && OpOk(op)
  {
    var c := a.cfg;
    match op
    case DoAccess(x) => ScratchTranslate(devs, a, x)
    case SetIrDr(ir, dr) => (a.(ir := ir, dr := dr), Done)
    case SetIbatUpper(i, v) => (a.(cfg := c.(ibat := c.ibat[i := BatWithUpper(c.ibat[i], v)])), Done)
    case SetIbatLower(i, v) => (a.(cfg := c.(ibat := c.ibat[i := BatWithLower(c.ibat[i], v)])), Done)
    case SetDbatUpper(i, v) => (a.(cfg := c.(dbat := c.dbat[i := BatWithUpper(c.dbat[i], v)])), Done)
    case SetDbatLower(i, v) => (a.(cfg := c.(dbat := c.dbat[i := BatWithLower(c.dbat[i], v)])), Done)
    case SetSegment(i, v) => (a.(cfg := c.(seg := c.seg[i := SegOf(v)])), Done)
    case SetSdr1(v) => (a.(cfg := c.(htabPhys := HtabBase(v), htabMask := HtabMask(v))), Done)
    case Tlbie => (a, Done)
    case Tlbia => (a, Done)
    case EditPte(p, v) => (a.(mem := a.mem[p := v]), Done)
  }

  /** Which uTLBs an operation other than an access flushes: an IR/DR change none, a BAT write its own side. */
  function Flushed(op: Op, t: Tlbs): Tlbs {
    match op
    case DoAccess(_) => t
    case SetIrDr(_, _) => t
    case SetIbatUpper(_, _) => FlushI(t)
    case SetIbatLower(_, _) => FlushI(t)
    case SetDbatUpper(_, _) => FlushD(t)
    case SetDbatLower(_, _) => FlushD(t)
    case _ => FlushAll(t)
  }

  function GenStep(op: Op, gen: nat): nat {
    if op.DoAccess? || op.SetIrDr? then gen else gen + 1
  }

  function CachedStep(devs: seq<Device>, s: State, op: Op): (State, Outcome)
    requires ConfigOk(s.arch.cfg) && Sized(s.tlb) && OpOk(op)
  {
    match op
    case DoAccess(x) => CachedTranslate(devs, s, x)
    case _ =>
      var (a, out) := ArchStep(devs, s.arch, op);
      (State(a, Flushed(op, s.tlb), GenStep(op, s.gen)), out)
  }

  // ---------------------------------------------------------------- Coherence

  /** A valid entry's page, walked for read in the mode of the entry's TR flag, still gives what the entry says and
      would write nothing; only its C bit may have been set since. */
  ghost predicate EntryOk(devs: seq<Device>, c: Config, m: Mem, ind: bool, priv: bool, e: Utlb)
    requires ConfigOk(c)
  {
    forall ea: Word, on: bool {:trigger Tag(ea, on)} :: e.ea == Tag(ea, on) ==> Remembers(devs, c, m, ea, on, ind, priv, e)
  }

  ghost predicate Remembers(devs: seq<Device>, c: Config, m: Mem, ea: Word, on: bool, ind: bool, priv: bool, e: Utlb)
    requires ConfigOk(c)
  {
    var r := Walk(c, on, m, BaseOf(ea), ind, true, priv).0;
    r.WalkHit? && e.frame == HostOf(devs, r.pa) && Settled(c, on, m, BaseOf(ea), ind, priv, r.pa, e.perms)
  }

  ghost predicate SideOk(devs: seq<Device>, c: Config, m: Mem, ind: bool, priv: bool, side: seq<Utlb>)
    requires ConfigOk(c)
  {
    forall e :: e in side ==> EntryOk(devs, c, m, ind, priv, e)
  }

  ghost predicate Coherent(devs: seq<Device>, s: State) {
    && ConfigOk(s.arch.cfg) && Sized(s.tlb)
    && SideOk(devs, s.arch.cfg, s.arch.mem, true, true, s.tlb.pi)
    && SideOk(devs, s.arch.cfg, s.arch.mem, false, true, s.tlb.pd)
    && SideOk(devs, s.arch.cfg, s.arch.mem, true, false, s.tlb.ui)
    && SideOk(devs, s.arch.cfg, s.arch.mem, false, false, s.tlb.ud)
  }

  lemma TagInjective(ea: Word, on: bool, ea': Word, on': bool)
    requires Tag(ea, on) == Tag(ea', on')
    ensures BaseOf(ea) == BaseOf(ea') && on == on'
  {
    assert Tag(ea, on) == ea / 0x1000 * 0x1000 + 2 + (if on then 1 else 0);
    assert Tag(ea', on') == ea' / 0x1000 * 0x1000 + 2 + (if on' then 1 else 0);
  }

  /** How the translation of an address follows from that of its page, physically and on the host. */
  lemma OffsetsCarry(devs: seq<Device>, c: Config, on: bool, m: Mem, ea: Word, ind: bool, rnw: bool, priv: bool)
    requires ConfigOk(c) && WellPlaced(devs)
    ensures var (r, m') := Walk(c, on, m, ea, ind, rnw, priv);
      var (base, m'') := Walk(c, on, m, BaseOf(ea), ind, rnw, priv);
      && m' == m'' && r.WalkHit? == base.WalkHit? && (r.WalkFault? ==> r == base)
      && (r.WalkHit? ==> r.perms == base.perms && HostOf(devs, base.pa) % 0x1000 == 0)
      && (r.WalkHit? ==> HostOf(devs, r.pa) == HostOf(devs, base.pa) + ea % 0x1000)
  {
    hide Walk, HostOf, WellPlaced, ConfigOk;
    PageUniform(c, on, m, ea, ind, rnw, priv);
    BaseFields(ea);
    BaseIsBase(ea);
    PageUniform(c, on, m, BaseOf(ea), ind, rnw, priv);
    var r, base := Walk(c, on, m, ea, ind, rnw, priv).0, Walk(c, on, m, BaseOf(ea), ind, rnw, priv).0;
    if r.WalkHit? {
      JoinOffset(PageOf(base.pa), ea);
      JoinOffset(PageOf(base.pa), BaseOf(ea));
      HostPages(devs, r.pa);
      HostPages(devs, base.pa);
    }
  }

  lemma BaseIsBase(ea: Word)
    ensures BaseOf(BaseOf(ea)) == BaseOf(ea) && BaseOf(ea) % 0x1000 == 0
  {
    assert ea == ea / 0x1000 * 0x1000 + ea % 0x1000;
  }

  lemma JoinOffset(frame: nat, ea: Word)
    requires frame < 0x100000
    ensures Join(frame, ea) % 0x1000 == ea % 0x1000 && Join(frame, ea) - ea % 0x1000 == frame * 0x1000
  {
  }

  lemma NewEntryOk(devs: seq<Device>, c: Config, on: bool, m: Mem, x: Access)
    requires ConfigOk(c) && WellPlaced(devs)
    ensures var (r, m') := Walk(c, on, m, x.ea, x.ind, x.rnw, x.priv);
      r.WalkHit? ==>
        && EntryOk(devs, c, m', x.ind, x.priv, NewEntry(devs, x.ea, on, r.pa, r.perms))
        && HostAddr(NewEntry(devs, x.ea, on, r.pa, r.perms), x.ea) == HostOf(devs, r.pa)
  {
    hide Walk, HostOf, WellPlaced, ConfigOk, OnlyRCGrew;
    var (r, m') := Walk(c, on, m, x.ea, x.ind, x.rnw, x.priv);
    OffsetsCarry(devs, c, on, m, x.ea, x.ind, x.rnw, x.priv);
    GrewSelf(m');
    WalkSettles(c, on, m, m', BaseOf(x.ea), x.ind, x.rnw, x.priv);
    if r.WalkHit? {
      var e := NewEntry(devs, x.ea, on, r.pa, r.perms);
      forall ea: Word, on': bool | e.ea == Tag(ea, on') ensures Remembers(devs, c, m', ea, on', x.ind, x.priv, e) {
        TagInjective(x.ea, on, ea, on');
      }
    }
  }

  lemma EntryStable(devs: seq<Device>, c: Config, m: Mem, m': Mem, ind: bool, priv: bool, e: Utlb)
    requires ConfigOk(c) && OnlyRCGrew(m, m') && EntryOk(devs, c, m, ind, priv, e)
    ensures EntryOk(devs, c, m', ind, priv, e)
  {
    hide Walk, HostOf, ConfigOk, OnlyRCGrew;
    forall ea: Word, on: bool | e.ea == Tag(ea, on) ensures Remembers(devs, c, m', ea, on, ind, priv, e) {
      var pa := Walk(c, on, m, BaseOf(ea), ind, true, priv).0.pa;
      SettledStable(c, on, m, m', BaseOf(ea), ind, priv, pa, e.perms);
    }
  }

  lemma SideStable(devs: seq<Device>, c: Config, m: Mem, m': Mem, ind: bool, priv: bool, side: seq<Utlb>)
    requires ConfigOk(c) && OnlyRCGrew(m, m') && SideOk(devs, c, m, ind, priv, side)
    ensures SideOk(devs, c, m', ind, priv, side)
  {
    forall e | e in side ensures EntryOk(devs, c, m', ind, priv, e) {
      EntryStable(devs, c, m, m', ind, priv, e);
    }
  }

  /** An entry that hits, and is not an unclean one met by a store, answers as a fresh walk would. */
  lemma HitIsFresh(devs: seq<Device>, a: Arch, x: Access, e: Utlb)
    requires ConfigOk(a.cfg) && WellPlaced(devs) && AccessOk(x)
    requires EntryOk(devs, a.cfg, a.mem, x.ind, x.priv, e) && e.ea == Tag(x.ea, On(a, x.ind))
    requires !OnlyUnclean(e.perms, x.rnw, x.ind)
    ensures ScratchTranslate(devs, a, x) == (a, Checked(e, x))
  {
    hide Walk, HostOf, WellPlaced, ConfigOk;
    var on := On(a, x.ind);
    OffsetsCarry(devs, a.cfg, on, a.mem, x.ea, x.ind, x.rnw, x.priv);
    assert Remembers(devs, a.cfg, a.mem, x.ea, on, x.ind, x.priv, e);
    if !x.rnw {
      SettledWrite(a.cfg, on, a.mem, BaseOf(x.ea), x.ind, x.priv,
                   Walk(a.cfg, on, a.mem, BaseOf(x.ea), x.ind, true, x.priv).0.pa, e.perms);
    }
  }

  // ---------------------------------------------------------------- The simulation

  lemma AllSidesStable(devs: seq<Device>, s: State, m': Mem)
    requires Coherent(devs, s) && OnlyRCGrew(s.arch.mem, m')
    ensures Coherent(devs, s.(arch := s.arch.(mem := m')))
  {
    hide OnlyRCGrew, SideOk;
    var c, m := s.arch.cfg, s.arch.mem;
    SideStable(devs, c, m, m', true, true, s.tlb.pi);
    SideStable(devs, c, m, m', false, true, s.tlb.pd);
    SideStable(devs, c, m, m', true, false, s.tlb.ui);
    SideStable(devs, c, m, m', false, false, s.tlb.ud);
  }

  lemma SideWithEntry(devs: seq<Device>, c: Config, m: Mem, ind: bool, priv: bool, side: seq<Utlb>, i: nat, e: Utlb)
    requires ConfigOk(c) && SideOk(devs, c, m, ind, priv, side) && i < |side| && EntryOk(devs, c, m, ind, priv, e)
    ensures SideOk(devs, c, m, ind, priv, side[i := e])
  {
    hide EntryOk;
  }

  lemma InsertCoherent(devs: seq<Device>, s: State, x: Access)
    requires Coherent(devs, s) && WellPlaced(devs)
    ensures Coherent(devs, WalkAndInsert(devs, s, x).0)
  {
    hide Walk, OnlyRCGrew, SideOk, EntryOk, WellPlaced, NewEntry;
    var on := On(s.arch, x.ind);
    var (r, m) := Walk(s.arch.cfg, on, s.arch.mem, x.ea, x.ind, x.rnw, x.priv);
    WalkGrowsRC(s.arch.cfg, on, s.arch.mem, x.ea, x.ind, x.rnw, x.priv);
    AllSidesStable(devs, s, m);
    NewEntryOk(devs, s.arch.cfg, on, s.arch.mem, x);
    if r.WalkHit? {
      SideWithEntry(devs, s.arch.cfg, m, x.ind, x.priv, Side(s.tlb, x.ind, x.priv), Index(x.ea),
                    NewEntry(devs, x.ea, on, r.pa, r.perms));
    }
  }

  /** One access through the uTLB is one access from scratch, and keeps the uTLBs coherent. The entry a walk leaves
      hits at once and is never an unclean one met by a store: one walk is enough. */
  lemma TranslateSimulates(devs: seq<Device>, s: State, x: Access)
    requires Coherent(devs, s) && WellPlaced(devs) && AccessOk(x)
    ensures var (s', out) := CachedTranslate(devs, s, x);
      && Coherent(devs, s')
      && ScratchTranslate(devs, s.arch, x) == (s'.arch, out)
      && (NeedsWalk(s, x) && WalkAndInsert(devs, s, x).1.WalkHit? ==> !NeedsWalk(s', x))
  {
    hide Walk, OnlyRCGrew, EntryOk, WellPlaced, HostOf;
    if NeedsWalk(s, x) {
      InsertCoherent(devs, s, x);
      NewEntryOk(devs, s.arch.cfg, On(s.arch, x.ind), s.arch.mem, x);
      WriteWalkCleans(s.arch.cfg, On(s.arch, x.ind), s.arch.mem, x.ea, x.ind, x.priv);
    } else {
      HitIsFresh(devs, s.arch, x, Side(s.tlb, x.ind, x.priv)[Index(x.ea)]);
    }
  }

  /** An access that gets through translation to a hashed page finds R set in that page's PTE, and C too if it is a
      store, however stale or aliased the uTLB entry that let it through. */
  lemma AccessMeansMarked(devs: seq<Device>, s: State, x: Access)
    requires Coherent(devs, s) && WellPlaced(devs) && AccessOk(x)
    requires ReachesPte(s.arch.cfg, On(s.arch, x.ind), s.arch.mem, x.ea, x.ind, x.priv)
    requires CachedTranslate(devs, s, x).1.Translated?
    ensures var m := CachedTranslate(devs, s, x).0.arch.mem; var c := s.arch.cfg;
      && ReachesPte(c, true, m, x.ea, x.ind, x.priv)
      && Referenced(PteWord(c, m, m, x.ea)) && (!x.rnw ==> Changed(PteWord(c, m, m, x.ea)))
  {
    hide Walk, FindPte, SideOk, HostOf, WellPlaced, Referenced, Changed, CachedTranslate;
    TranslateSimulates(devs, s, x);
    var (r, m) := Walk(s.arch.cfg, true, s.arch.mem, x.ea, x.ind, x.rnw, x.priv);
    assert CachedTranslate(devs, s, x).0.arch.mem == m;
    AllowedMeansMarked(s.arch.cfg, s.arch.mem, x.ea, x.ind, x.rnw, x.priv);
  }

  lemma BatWriteKeepsBatsOk(bats: seq<Bat>, i: nat, val: Word)
    requires BatsOk(bats) && i < NR_BATS
    ensures BatsOk(bats[i := BatWithUpper(bats[i], val)]) && BatsOk(bats[i := BatWithLower(bats[i], val)])
  {
    UpperWriteKeepsBatOk(bats[i], val);
    hide BatWithUpper;
  }

  lemma ConfigStep(devs: seq<Device>, a: Arch, op: Op)
    requires ConfigOk(a.cfg) && OpOk(op)
    ensures ConfigOk(ArchStep(devs, a, op).0.cfg)
  {
    hide BatsOk, BatWithUpper, BatWithLower, Walk;
    match op
    case SetIbatUpper(i, v) => BatWriteKeepsBatsOk(a.cfg.ibat, i, v);
    case SetIbatLower(i, v) => BatWriteKeepsBatsOk(a.cfg.ibat, i, v);
    case SetDbatUpper(i, v) => BatWriteKeepsBatsOk(a.cfg.dbat, i, v);
    case SetDbatLower(i, v) => BatWriteKeepsBatsOk(a.cfg.dbat, i, v);
    case _ =>
  }

  lemma EmptyOk(devs: seq<Device>, c: Config, m: Mem, ind: bool, priv: bool)
    requires ConfigOk(c)
    ensures SideOk(devs, c, m, ind, priv, Empty())
  {
  }

  /** A side's walks do not consult the other side's BATs. */
  lemma OtherSideIrrelevant(c: Config, c': Config, on: bool, m: Mem, ea: Word, ind: bool, rnw: bool, priv: bool)
    requires ConfigOk(c) && ConfigOk(c')
    requires BatsFor(c, ind) == BatsFor(c', ind) && c.seg == c'.seg
    requires c.htabPhys == c'.htabPhys && c.htabMask == c'.htabMask
    ensures Walk(c, on, m, ea, ind, rnw, priv) == Walk(c', on, m, ea, ind, rnw, priv)
  {
    hide FirstBat, ScanGroup, PrimaryHash, BatTranslate, Touch, TouchMem, PagePerms, SegIndex;
    var vsid := c.seg[SegIndex(ea)].vsid;
    assert forall h :: ProbeGroup(c, vsid, ea, h) == ProbeGroup(c', vsid, ea, h);
    assert FindPte(c, m, vsid, ea) == FindPte(c', m, vsid, ea);
  }

  lemma OtherSideOk(devs: seq<Device>, c: Config, c': Config, m: Mem, ind: bool, priv: bool, side: seq<Utlb>)
    requires ConfigOk(c) && ConfigOk(c') && SideOk(devs, c, m, ind, priv, side)
    requires BatsFor(c, ind) == BatsFor(c', ind) && c.seg == c'.seg
    requires c.htabPhys == c'.htabPhys && c.htabMask == c'.htabMask
    ensures SideOk(devs, c', m, ind, priv, side)
  {
    forall e, ea: Word, on: bool | e in side && e.ea == Tag(ea, on) ensures Remembers(devs, c', m, ea, on, ind, priv, e) {
      assert EntryOk(devs, c, m, ind, priv, e);
      OtherSideIrrelevant(c, c', on, m, BaseOf(ea), ind, true, priv);
      hide Walk, HostOf;
    }
    hide Walk, HostOf, Remembers;
  }

  /** Every operation keeps the uTLBs coherent and has the architecture's effect. */
  lemma StepSimulates(devs: seq<Device>, s: State, op: Op)
    requires Coherent(devs, s) && WellPlaced(devs) && OpOk(op)
    ensures var (s', out) := CachedStep(devs, s, op);
      Coherent(devs, s') && ArchStep(devs, s.arch, op) == (s'.arch, out)
  {
    hide WellPlaced, SideOk, BatWithUpper, BatWithLower, SegOf, HtabBase, HtabMask;
    ConfigStep(devs, s.arch, op);
    if op.DoAccess? {
      TranslateSimulates(devs, s, op.x);
    } else {
      var c', m' := ArchStep(devs, s.arch, op).0.cfg, ArchStep(devs, s.arch, op).0.mem;
      forall ind, priv ensures SideOk(devs, c', m', ind, priv, Empty()) {
        EmptyOk(devs, c', m', ind, priv);
      }
      if op.SetIbatUpper? || op.SetIbatLower? {
        OtherSideOk(devs, s.arch.cfg, c', m', false, true, s.tlb.pd);
        OtherSideOk(devs, s.arch.cfg, c', m', false, false, s.tlb.ud);
      } else if op.SetDbatUpper? || op.SetDbatLower? {
        OtherSideOk(devs, s.arch.cfg, c', m', true, true, s.tlb.pi);
        OtherSideOk(devs, s.arch.cfg, c', m', true, false, s.tlb.ui);
      }
    }
  }

  // ---------------------------------------------------------------- Whole runs

  predicate RunOk(ops: seq<Op>) { forall op :: op in ops ==> OpOk(op) }

  function ArchRun(devs: seq<Device>, a: Arch, ops: seq<Op>): (r: (Arch, seq<Outcome>))
    requires ConfigOk(a.cfg) && RunOk(ops)
    ensures ConfigOk(r.0.cfg) && |r.1| == |ops|
    decreases |ops|
  {
    if ops == [] then (a, [])
    else
      ConfigStep(devs, a, ops[0]);
      var (a', out) := ArchStep(devs, a, ops[0]);
      var (a'', outs) := ArchRun(devs, a', ops[1..]);
      (a'', [out] + outs)
  }

  function CachedRun(devs: seq<Device>, s: State, ops: seq<Op>): (State, seq<Outcome>)
    requires Coherent(devs, s) && WellPlaced(devs) && RunOk(ops)
    decreases |ops|
  {
    if ops == [] then (s, [])
    else
      StepSimulates(devs, s, ops[0]);
      var (s', out) := CachedStep(devs, s, ops[0]);
      var (s'', outs) := CachedRun(devs, s', ops[1..]);
      (s'', [out] + outs)
  }

  /** Over every run, the MMU with its uTLBs answers every access as the machine that walks from scratch does, with
      the same faults, and leaves the same page table. */
  lemma {:induction false} RunSimulates(devs: seq<Device>, s: State, ops: seq<Op>)
    requires Coherent(devs, s) && WellPlaced(devs) && RunOk(ops)
    ensures var (s', outs) := CachedRun(devs, s, ops);
      Coherent(devs, s') && ArchRun(devs, s.arch, ops) == (s'.arch, outs)
    decreases |ops|
  {
    hide WellPlaced, CachedTranslate, ScratchTranslate, OpOk, SideOk;
    if ops != [] {
      StepSimulates(devs, s, ops[0]);
      RunSimulates(devs, CachedStep(devs, s, ops[0]).0, ops[1..]);
    }
  }

  /** The state the constructor leaves. */
  lemma ResetCoherent(devs: seq<Device>, s: State)
    requires ConfigOk(s.arch.cfg) && s.tlb == FlushAll(s.tlb)
    ensures Coherent(devs, s)
  {
  }

  /** As long as software edits no PTE, page tables change only by R and C bits coming on. */
  lemma {:induction false} RunGrowsRC(devs: seq<Device>, a: Arch, ops: seq<Op>)
    requires ConfigOk(a.cfg) && RunOk(ops) && forall op :: op in ops ==> !op.EditPte?
    ensures OnlyRCGrew(a.mem, ArchRun(devs, a, ops).0.mem)
    decreases |ops|
  {
    hide Walk, OnlyRCGrew, OpOk, ConfigOk;
    GrewSelf(a.mem);
    if ops != [] {
      var op, a' := ops[0], ArchStep(devs, a, ops[0]).0;
      assert op in ops;
      ConfigStep(devs, a, op);
      if op.DoAccess? {
        WalkGrowsRC(a.cfg, On(a, op.x.ind), a.mem, op.x.ea, op.x.ind, op.x.rnw, op.x.priv);
      }
      RunGrowsRC(devs, a', ops[1..]);
      OnlyRCGrewTrans(a.mem, a'.mem, ArchRun(devs, a', ops[1..]).0.mem);
    }
  }
}
