/** Address translation from scratch: BATs, segments, and the two-probe hashed page table
    (PPCMMU::translateEA and matchBAT). `Walk` is the meaning that every uTLB below is compared with. */
module PageWalk {
  import opened Words
  import opened MmuTypes

  datatype Option<+T> = None | Some(value: T)

  datatype WalkResult = WalkFault(fault: Fault) | WalkHit(pa: Word, perms: Perms)

  const PTES_PER_GROUP: nat := 8
  const HASH_LIMIT: nat := 0x80000

  // ---------------------------------------------------------------- Effective addresses

  function PageOf(ea: Word): (p: nat)
    ensures p < 0x100000
  {
    ea / 0x1000
  }

  /** The address in page `frame` at the offset of `ea`. */
  function Join(frame: nat, ea: Word): Word
    requires frame < 0x100000
  {
    frame * 0x1000 + ea % 0x1000
  }

  function BaseOf(ea: Word): Word { ea - ea % 0x1000 }

  function PageIndex(ea: Word): (p: nat)
    ensures p < 0x10000
  {
    ea / 0x1000 % 0x10000
  }

  function SegIndex(ea: Word): (i: nat)
    ensures i < NR_SEGS
  {
    ea / 0x10000000
  }

  // ---------------------------------------------------------------- BATs

  /** Whether two 128 KiB block numbers agree above their low `n` bits. */
  predicate SameBlock(a: nat, b: nat, n: nat) { a / Pow2(n) == b / Pow2(n) }

  predicate BatMatches(b: Bat, ea: Word, priv: bool) {
    (if priv then b.vs else b.vp) && SameBlock(ea / BLOCK, b.bepi / BLOCK, b.blShift)
  }

  /** The 128 KiB block that the block number `q` of an address inside the BAT maps to. */
  function BlockTarget(brpn: nat, q: nat, n: nat): (r: nat)
    requires brpn < 0x8000 && q < 0x8000
    ensures r < 0x8000
  {
    Pow2Values();
    OrBound(brpn, q % Pow2(n), 15);
    Or(brpn, q % Pow2(n))
  }

  function BatTranslate(b: Bat, ea: Word): WalkResult {
    if b.pp == 0 then WalkFault(PermsFault)
    else WalkHit(BlockTarget(b.brpn / BLOCK, ea / BLOCK, b.blShift) * BLOCK + ea % BLOCK, Perms(true, b.pp == 2, false))
  }

  /** The first matching BAT at or after index `i`. */
  function FirstBat(bats: seq<Bat>, i: nat, ea: Word, priv: bool): (r: Option<nat>)
    requires i <= |bats|
    ensures r.Some? ==> i <= r.value < |bats| && BatMatches(bats[r.value], ea, priv)
    ensures forall k :: i <= k < (if r.Some? then r.value else |bats|) ==> !BatMatches(bats[k], ea, priv)
    decreases |bats| - i
  {
    if i == |bats| then None
    else if BatMatches(bats[i], ea, priv) then Some(i)
    else FirstBat(bats, i + 1, ea, priv)
  }

  // ---------------------------------------------------------------- Hashed page table
  // First word of a PTE: V 0x80000000, VSID 0x7fffff80, H 0x40, API 0x3f.
  // Second word: RPN 0xfffff000, R 0x100, C 0x80, WIMG 0x78, PP 3.

  function PrimaryHash(vsid: nat, ea: Word): (h: nat)
    ensures h < HASH_LIMIT
  {
    Pow2Values();
    XorBound(vsid % HASH_LIMIT, PageIndex(ea), 19);
    Xor(vsid % HASH_LIMIT, PageIndex(ea))
  }

  /** The complement of a 19-bit hash: translateEA complements all 32 bits, of which the group address uses 19. */
  function SecondaryHash(h: nat): (r: nat)
    requires h < HASH_LIMIT
    ensures r < HASH_LIMIT
  {
    HASH_LIMIT - 1 - h
  }

  /** `htabPhys | ((hash << 6) & ((htabMask << 16) | 0xffc0))` */
  function GroupAddr(htabPhys: Word, htabMask: nat, hash: nat): (a: Word)
    requires htabPhys % 0x10000 == 0 && htabMask < 0x200 && hash < HASH_LIMIT
    ensures a % 64 == 0
  {
    var top := And(hash / 0x400, htabMask);
    Pow2Values();
    OrBound(htabPhys / 0x10000, top, 16);
    Or(htabPhys / 0x10000, top) * 0x10000 + hash % 0x400 * 64
  }

  function PteAddr(group: Word, i: nat): (a: Word)
    requires group % 64 == 0 && i < PTES_PER_GROUP
    ensures a % 8 == 0
  {
    assert group == 64 * (group / 64) && group / 64 < 0x4000000;
    group + i * 8
  }

  /** The bus address of a PTE's second word. */
  function Second(slot: Word): (a: Word)
    requires slot % 8 == 0
    ensures a % 8 == 4
  {
    slot + 4
  }

  /** The test of translateEA on the first word of a PTE; `h` selects the secondary hash. */
  predicate PteMatches(pte: Word, h: bool, vsid: nat, ea: Word) {
    && pte / 0x80000000 == 1
    && (pte / 0x40 % 2 == 1) == h
    && pte / 0x80 % 0x1000000 == vsid
    && pte % 0x40 == PageIndex(ea) / 0x400
  }

  /** The first matching PTE of a group at or after slot `i`, as its bus address. */
  function ScanGroup(m: Mem, group: Word, i: nat, h: bool, vsid: nat, ea: Word): (r: Option<Word>)
    requires group % 64 == 0 && i <= PTES_PER_GROUP
    ensures r.Some? ==> r.value % 8 == 0
    decreases PTES_PER_GROUP - i
  {
    if i == PTES_PER_GROUP then None
    else if PteMatches(Rd(m, PteAddr(group, i)), h, vsid, ea) then Some(PteAddr(group, i))
    else ScanGroup(m, group, i + 1, h, vsid, ea)
  }

  function ProbeGroup(c: Config, vsid: nat, ea: Word, h: bool): (a: Word)
    requires ConfigOk(c)
    ensures a % 64 == 0
  {
    var hash := PrimaryHash(vsid, ea);
    GroupAddr(c.htabPhys, c.htabMask, if h then SecondaryHash(hash) else hash)
  }

  /** Primary group first, then the secondary one. */
  function FindPte(c: Config, m: Mem, vsid: nat, ea: Word): (r: Option<Word>)
    requires ConfigOk(c)
    ensures r.Some? ==> r.value % 8 == 0
  {
    var primary := ScanGroup(m, ProbeGroup(c, vsid, ea, false), 0, false, vsid, ea);
    if primary.Some? then primary else ScanGroup(m, ProbeGroup(c, vsid, ea, true), 0, true, vsid, ea)
  }

  predicate Referenced(w: Word) { w / 0x100 % 2 == 1 }

  predicate Changed(w: Word) { w / 0x80 % 2 == 1 }

  function PP(w: Word): nat { w % 4 }

  function SetR(w: Word): (r: Word) { if Referenced(w) then w else w + 0x100 }

  function SetRC(w: Word): (r: Word) { if Changed(w) then SetR(w) else SetR(w) + 0x80 }

  function KeyOf(s: Seg, priv: bool): bool { if priv then s.ks else s.kp }

  predicate Readable(key: bool, pp: nat) { !(key && pp == 0) }

  predicate Writable(key: bool, pp: nat) { (!key && pp < 3) || (key && pp == 2) }

  /** The second word of a PTE after a hit: R always set, C set by a write the page permits. */
  function Touch(w: Word, key: bool, rnw: bool): Word {
    if !rnw && Writable(key, PP(w)) && !Changed(w) then SetRC(w)
    else if !Referenced(w) then SetR(w)
    else w
  }

  function TouchMem(m: Mem, slot: Word, key: bool, rnw: bool): Mem
    requires slot % 8 == 0
  {
    var w := Rd(m, Second(slot));
    if Touch(w, key, rnw) == w then m else m[Second(slot) := Touch(w, key, rnw)]
  }

  function PagePerms(w: Word, key: bool): Perms {
    Perms(Readable(key, PP(w)), Writable(key, PP(w)), !Changed(w))
  }

  function HtabWalk(c: Config, m: Mem, ea: Word, ind: bool, rnw: bool, priv: bool): (WalkResult, Mem)
    requires ConfigOk(c)
  {
    var s := c.seg[SegIndex(ea)];
    if ind && s.n then (WalkFault(PermsNX), m)
    else
      var found := FindPte(c, m, s.vsid, ea);
      if found.None? then (WalkFault(NoPage), m)
      else
        var w := Rd(m, Second(found.value));
        (WalkHit(Join(PageOf(w), ea), PagePerms(Touch(w, KeyOf(s, priv), rnw), KeyOf(s, priv))),
         TouchMem(m, found.value, KeyOf(s, priv), rnw))
  }

  function BatsFor(c: Config, ind: bool): seq<Bat> { if ind then c.ibat else c.dbat }

  /** Translation with the I or D side `on` or off: the result, and memory with R and C updated. */
  function Walk(c: Config, on: bool, m: Mem, ea: Word, ind: bool, rnw: bool, priv: bool): (WalkResult, Mem)
    requires ConfigOk(c)
  {
    if !on then (WalkHit(ea, Perms(true, true, false)), m)
    else
      var bat := FirstBat(BatsFor(c, ind), 0, ea, priv);
      if bat.Some? then (BatTranslate(BatsFor(c, ind)[bat.value], ea), m)
      else HtabWalk(c, m, ea, ind, rnw, priv)
  }

  /** checkPerms */
  predicate Allowed(p: Perms, rnw: bool, ind: bool) {
    if ind || rnw then p.r else p.w && !p.clean
  }

  /** checkFaultWasCleanliness */
  predicate OnlyUnclean(p: Perms, rnw: bool, ind: bool) {
    !rnw && !ind && p.w && p.clean
  }
}
