/** What a translation is in the bits of the guest's registers and page table entries, from outside: which PTE is used and what it
    permits, what a BAT maps, and what is faulted (PPCMMU.cc, PPCMMU.h). */
module Translation {
  import opened Words
  import opened MmuTypes
  import opened PageWalk
  import opened WalkSpec
  import opened BusMap
  import opened DirectTlb
  import opened Alu
  import opened Rotates

  // ---------------------------------------------------------------- Real mode

  /** With translation off an address is its own physical address, for reads, writes and fetches, and nothing is written. */
  lemma RealMode(devs: seq<Device>, a: Arch, x: Access)
    requires ConfigOk(a.cfg)
    ensures !(if x.ind then a.ir else a.dr) ==> ScratchTranslate(devs, a, x) == (a, Translated(HostOf(devs, x.ea)))
  {
    hide ConfigOk, HostOf;
  }

  // ---------------------------------------------------------------- Which PTE

  /** The bits of the hash of an address: those of its VSID against those of its page number in the segment. */
  ghost predicate IsHash(h: nat, vsid: nat, ea: Word) {
    forall i :: 0 <= i < 19 ==> Bit(h, i) == (Bit(vsid, i) != (i < 16 && Bit(ea / 0x1000, i)))
  }

  /** The sixteen places where the PTE of an address may be, for the values written to SDR1 and to its segment register, with a
      table of 2^k times 64 KiB at a multiple of its size: eight slots in the group of the hash, and eight in that of its
      complement. */
  lemma {:induction false} CandidatePlaces(c: Config, sdr1: Word, sr: Word, k: nat, ea: Word, h: nat, n: nat)
    requires h < 0x8_0000 && ConfigOk(c) && c.htabPhys == HtabBase(sdr1) && c.htabMask == HtabMask(sdr1) && k <= 9 && n < 16
    requires sdr1 % 0x200 == Pow2(k) - 1 && sdr1 / 0x1_0000 % Pow2(k) == 0 && IsHash(h, SegOf(sr).vsid, ea)
    ensures Candidate(c, SegOf(sr).vsid, ea, n)
         == sdr1 / 0x1_0000 * 0x1_0000 + (if n < 8 then h else 0x7_ffff - h) % (0x400 * Pow2(k)) * 64 + n % 8 * 8
  {
    hide *;
    var vsid, g := SegOf(sr).vsid, if n < 8 then h else 0x7_ffff - h;
    HashIs(h, vsid, ea);
    CandidateIs(c, vsid, ea, h, n);
    GroupIs(sdr1, k, g);
  }

  lemma CandidateIs(c: Config, vsid: nat, ea: Word, h: nat, n: nat)
    requires ConfigOk(c) && n < 16 && PrimaryHash(vsid, ea) == h
    ensures Candidate(c, vsid, ea, n) == GroupAddr(c.htabPhys, c.htabMask, if n < 8 then h else 0x7_ffff - h) + n % 8 * 8
  {
    hide ConfigOk, PrimaryHash, GroupAddr;
  }

  lemma {:induction false} HashIs(h: nat, vsid: nat, ea: Word)
    requires h < 0x8_0000 && IsHash(h, vsid, ea)
    ensures PrimaryHash(vsid, ea) == h
  {
    Pow2Values();
    hide Pow2, Xor;
    assert Pow2(19) == 0x8_0000;
    forall i | 0 <= i < 19 ensures Bit(PrimaryHash(vsid, ea), i) == Bit(h, i) {
      XorBit(vsid % HASH_LIMIT, PageIndex(ea), i);
      LowBitsKept(vsid, 19, i);
      LowBitsKept(ea / 0x1000, 16, i);
    }
    SameBits(PrimaryHash(vsid, ea), h, 19);
  }

  lemma FromHalf(r: nat)
    ensures r == 2 * (r / 2) + r % 2
  {
  }

  lemma {:induction false} AndOnes(x: nat, k: nat)
    ensures And(x, Pow2(k) - 1) == x % Pow2(k)
    decreases k
  {
    hide And;
    if k == 0 {
      AndZero(x);
      assert x * 1 == x;
    } else {
      var q := Pow2(k - 1);
      AndUnfold(x, Pow2(k) - 1);
      OddMask(q);
      HalfRemainder(x, q);
      AndOnes(x / 2, k - 1);
      FromHalf(x % (2 * q));
      hide Pow2;
    }
  }

  /** The group of a hash in an aligned table. */
  lemma {:induction false} GroupIs(sdr1: Word, k: nat, h: nat)
    requires k <= 9 && h < 0x8_0000 && sdr1 % 0x200 == Pow2(k) - 1 && sdr1 / 0x1_0000 % Pow2(k) == 0
    ensures GroupAddr(HtabBase(sdr1), HtabMask(sdr1), h) == sdr1 / 0x1_0000 * 0x1_0000 + h % (0x400 * Pow2(k)) * 64
  {
    var p, base := Pow2(k), HtabBase(sdr1);
    assert base == sdr1 / 0x1_0000 * 0x1_0000;
    AndOnes(base / 0x1_0000, k);
    AndOnes(h / 0x400, k);
    HashOffset(h, p);
    MaskedDisjoint(base / 0x1_0000, p - 1, h / 0x400);
    OrDisjoint(base / 0x1_0000, And(h / 0x400, p - 1));
    hide And, Or, Pow2, HtabBase;
  }

  lemma HashOffset(h: nat, p: nat)
    requires p > 0
    ensures h % (0x400 * p) == h / 0x400 % p * 0x400 + h % 0x400
  {
    var q := h / 0x400;
    QuotientOf(q, p);
    var s := q % p * 0x400 + h % 0x400;
    assert h == 0x400 * (p * (q / p)) + s;
    Regroup(p, q / p);
    RemainderIs(h, 0x400 * p, q / p, s);
  }

  lemma Regroup(p: nat, d: nat)
    ensures 0x400 * (p * d) == (0x400 * p) * d
  {
  }

  // ---------------------------------------------------------------- What a PTE gives

  /** Which permissions a page gives, by key and PP, to reads and fetches or to stores. */
  predicate Denied(key: bool, pp: nat, store: bool) {
    if store then (if key then pp != 2 else pp == 3) else key && pp == 0
  }

  /** The second word of a PTE after a walk: R is always set, C by a store that the page permits. */
  function Marked(w: Word, key: bool, rnw: bool): int {
    w + (if w / 0x100 % 2 == 0 then 0x100 else 0)
      + (if w / 0x80 % 2 == 0 && !rnw && !Denied(key, w % 4, true) then 0x80 else 0)
  }

  ghost predicate OnlyAt(m: Mem, m': Mem, p: Word) { forall a: Word :: a != p ==> Rd(m', a) == Rd(m, a) }

  /** What a walk that reaches a PTE returns and writes, by its second word and the key that the segment has for the privilege: Ks
      when privileged, Kp when not. */
  lemma PteGives(c: Config, m: Mem, ea: Word, ind: bool, rnw: bool, priv: bool) returns (p: Word)
    requires ConfigOk(c) && ReachesPte(c, true, m, ea, ind, priv)
    ensures p <= 0xffff_fff8 && FindPte(c, m, c.seg[SegIndex(ea)].vsid, ea) == Some(p)
    ensures var s, w := c.seg[SegIndex(ea)], Rd(m, p + 4);
      var key := if priv then s.ks else s.kp;
      var (r, m') := Walk(c, true, m, ea, ind, rnw, priv);
      && r.WalkHit? && r.pa == w / 0x1000 * 0x1000 + ea % 0x1000
      && (r.perms.r <==> !Denied(key, w % 4, false)) && (r.perms.w <==> !Denied(key, w % 4, true))
      && (r.perms.clean <==> w / 0x80 % 2 == 0 && (rnw || !r.perms.w))
      && Rd(m', p + 4) == Marked(w, key, rnw) && OnlyAt(m, m', p + 4)
  {
    hide *;
    SegmentThere(c, ea);
    var s := c.seg[SegIndex(ea)];
    p := WalkIs(c, m, ea, ind, rnw, priv);
    SlotFits(p);
    var w, key := Rd(m, p + 4), if priv then s.ks else s.kp;
    TouchPerms(w, key, rnw);
    TouchedWord(w, key, rnw);
    DeniedIs(key, w);
    CleanIs(w);
    TouchedAt(m, p, key, rnw);
    JoinIs(w, ea);
  }

  lemma WalkIs(c: Config, m: Mem, ea: Word, ind: bool, rnw: bool, priv: bool) returns (p: Word)
    requires ConfigOk(c) && ReachesPte(c, true, m, ea, ind, priv)
    ensures p % 8 == 0 && FindPte(c, m, c.seg[SegIndex(ea)].vsid, ea) == Some(p)
    ensures var s, w := c.seg[SegIndex(ea)], Rd(m, Second(p));
      var key := if priv then s.ks else s.kp;
      Walk(c, true, m, ea, ind, rnw, priv)
      == (WalkHit(Join(PageOf(w), ea), PagePerms(Touch(w, key, rnw), key)), TouchMem(m, p, key, rnw))
  {
    hide ConfigOk, FindPte, FirstBat, PagePerms, Touch, TouchMem, SegIndex, BatTranslate, Join;
    SegmentThere(c, ea);
    p := FindPte(c, m, c.seg[SegIndex(ea)].vsid, ea).value;
  }

  lemma SegmentThere(c: Config, ea: Word)
    requires ConfigOk(c)
    ensures SegIndex(ea) < |c.seg|
  {
  }

  lemma TouchedAt(m: Mem, p: Word, key: bool, rnw: bool)
    requires p % 8 == 0
    ensures var m' := TouchMem(m, p, key, rnw);
      Rd(m', Second(p)) == Touch(Rd(m, Second(p)), key, rnw) && OnlyAt(m, m', Second(p))
  {
    hide Touch, Second;
  }

  lemma CleanIs(w: Word)
    ensures !Changed(w) <==> w / 0x80 % 2 == 0
  {
  }

  lemma JoinIs(w: Word, ea: Word)
    ensures Join(PageOf(w), ea) == w / 0x1000 * 0x1000 + ea % 0x1000
  {
  }

  lemma SlotFits(p: Word)
    requires p % 8 == 0
    ensures p <= 0xffff_fff8 && Second(p) == p + 4
  {
    assert p == 8 * (p / 8);
  }

  lemma DeniedIs(key: bool, w: Word)
    ensures Readable(key, PP(w)) == !Denied(key, w % 4, false) && Writable(key, PP(w)) == !Denied(key, w % 4, true)
  {
  }

  lemma TouchedWord(w: Word, key: bool, rnw: bool)
    ensures Touch(w, key, rnw)
         == Marked(w, key, rnw)
  {
    DeniedIs(key, w);
    hide Writable, PP, Denied;
  }

  // ---------------------------------------------------------------- The whole of it

  /** SDR1 and the segment register of an address hold what was written to them. */
  predicate Programmed(c: Config, sdr1: Word, sr: Word, ea: Word) {
    && c.htabPhys == HtabBase(sdr1) && c.htabMask == HtabMask(sdr1)
    && ea / 0x1000_0000 < |c.seg| && c.seg[ea / 0x1000_0000] == SegOf(sr)
  }

  lemma ProgrammedBy(devs: seq<Device>, a: Arch, sdr1: Word, sr: Word, ea: Word)
    requires ConfigOk(a.cfg)
    ensures var a' := ArchStep(devs, a, SetSdr1(sdr1)).0;
      ConfigOk(a'.cfg) && Programmed(ArchStep(devs, a', SetSegment(ea / 0x1000_0000, sr)).0.cfg, sdr1, sr, ea)
  {
    ConfigStep(devs, a, SetSdr1(sdr1));
    hide HtabBase, HtabMask, SegOf;
  }

  /** The `n`th place where the PTE of an address may be, `h` being its hash and the table 2^k times 64 KiB. */
  function Place(sdr1: Word, k: nat, h: nat, n: nat): (p: nat)
    requires h < 0x8_0000
  {
    sdr1 / 0x1_0000 * 0x1_0000 + (if n < 8 then h else 0x7_ffff - h) % (0x400 * Pow2(k)) * 64 + n % 8 * 8
  }

  /** The first word of a PTE that is for the address: valid, of its segment and the rest of its page number, and of the hash by
      which it was found. */
  predicate IsFor(w: Word, second: bool, sr: Word, ea: Word) {
    && w / 0x8000_0000 == 1 && (w / 0x40 % 2 == 1) == second
    && w / 0x80 % 0x100_0000 == sr % 0x100_0000 && w % 0x40 == ea / 0x40_0000 % 0x40
  }

  ghost predicate FitsAt(m: Mem, sdr1: Word, sr: Word, k: nat, h: nat, ea: Word, n: nat)
    requires h < 0x8_0000
  {
    var p := Place(sdr1, k, h, n);
    p < WORD_LIMIT && IsFor(Rd(m, p), n >= 8, sr, ea)
  }

  lemma {:induction false} CandidateFits(c: Config, m: Mem, sdr1: Word, sr: Word, k: nat, ea: Word, h: nat, n: nat)
    requires ConfigOk(c) && Programmed(c, sdr1, sr, ea) && k <= 9 && h < 0x8_0000 && n < 16
    requires sdr1 % 0x200 == Pow2(k) - 1 && sdr1 / 0x1_0000 % Pow2(k) == 0 && IsHash(h, SegOf(sr).vsid, ea)
    ensures Candidate(c, SegOf(sr).vsid, ea, n) == Place(sdr1, k, h, n)
    ensures CandidateMatches(c, m, SegOf(sr).vsid, ea, n) <==> FitsAt(m, sdr1, sr, k, h, ea, n)
  {
    CandidatePlaces(c, sdr1, sr, k, ea, h, n);
    ApiIs(ea);
    hide Pow2, IsHash, ConfigOk, Candidate, HtabBase, HtabMask, PageIndex;
  }

  lemma ApiIs(ea: Word)
    ensures PageIndex(ea) / 0x400 == ea / 0x40_0000 % 0x40
  {
    var q := ea / 0x1000;
    DivideTwice(ea, 0x1000, 0x400);
    DivideTwice(q, 0x400, 0x40);
    ApiOf(q % 0x1_0000, q / 0x400 % 0x40, q % 0x400);
  }

  lemma ApiOf(x: nat, hi: nat, lo: nat)
    requires x == hi * 0x400 + lo && lo < 0x400
    ensures x / 0x400 == hi
  {
  }

  /** The key for the privilege in a segment register, and whether it is no-execute. */
  predicate KeyIn(sr: Word, priv: bool) { if priv then sr / 0x4000_0000 % 2 == 1 else sr / 0x2000_0000 % 2 == 1 }

  predicate NeverFetched(sr: Word) { sr / 0x1000_0000 % 2 == 1 }

  lemma SegmentIs(c: Config, sdr1: Word, sr: Word, ea: Word)
    requires Programmed(c, sdr1, sr, ea)
    ensures SegIndex(ea) < |c.seg|
    ensures c.seg[SegIndex(ea)] == Seg(sr % 0x100_0000, KeyIn(sr, true), KeyIn(sr, false), NeverFetched(sr))
    ensures SegOf(sr).vsid == sr % 0x100_0000
  {
  }

  lemma {:induction false} FoundAt(c: Config, m: Mem, sdr1: Word, sr: Word, k: nat, ea: Word, h: nat, n: nat)
    requires ConfigOk(c) && Programmed(c, sdr1, sr, ea) && k <= 9 && h < 0x8_0000 && n < 16
    requires sdr1 % 0x200 == Pow2(k) - 1 && sdr1 / 0x1_0000 % Pow2(k) == 0 && IsHash(h, sr % 0x100_0000, ea)
    requires FitsAt(m, sdr1, sr, k, h, ea, n) && forall j :: 0 <= j < n ==> !FitsAt(m, sdr1, sr, k, h, ea, j)
    ensures Place(sdr1, k, h, n) < WORD_LIMIT && FindPte(c, m, sr % 0x100_0000, ea) == Some(Place(sdr1, k, h, n))
  {
    hide Candidate, CandidateMatches, FitsAt, Place, FindPte, IsHash, ConfigOk, Programmed, Pow2;
    var vsid := sr % 0x100_0000;
    SegmentIs(c, sdr1, sr, ea);
    forall j: nat | j <= n
      ensures Candidate(c, vsid, ea, j) == Place(sdr1, k, h, j)
      ensures CandidateMatches(c, m, vsid, ea, j) <==> FitsAt(m, sdr1, sr, k, h, ea, j)
    {
      CandidateFits(c, m, sdr1, sr, k, ea, h, j);
    }
    PicksFirstCandidate(c, m, vsid, ea);
  }

  lemma {:induction false} Reaches(c: Config, m: Mem, ea: Word, ind: bool, priv: bool)
    requires ConfigOk(c) && SegIndex(ea) < |c.seg| && FirstBat(BatsFor(c, ind), 0, ea, priv).None?
    requires FindPte(c, m, c.seg[SegIndex(ea)].vsid, ea).Some? && !(ind && c.seg[SegIndex(ea)].n)
    ensures ReachesPte(c, true, m, ea, ind, priv)
  {
    hide ConfigOk, FirstBat, FindPte, SegIndex;
  }

  lemma NoExecute(devs: seq<Device>, a: Arch, x: Access)
    requires ConfigOk(a.cfg) && SegIndex(x.ea) < |a.cfg.seg| && x.ind && a.ir && a.cfg.seg[SegIndex(x.ea)].n
    requires FirstBat(BatsFor(a.cfg, x.ind), 0, x.ea, x.priv).None?
    ensures ScratchTranslate(devs, a, x) == (a, Faulted(PermsNX))
  {
    hide ConfigOk, FirstBat, FindPte, SegIndex;
  }

  lemma OutcomeIs(devs: seq<Device>, a: Arch, x: Access)
    requires ConfigOk(a.cfg) && (if x.ind then a.ir else a.dr)
    ensures var (r, m') := Walk(a.cfg, true, a.mem, x.ea, x.ind, x.rnw, x.priv);
      r.WalkHit? ==>
        ScratchTranslate(devs, a, x)
        == (a.(mem := m'), if Allowed(r.perms, x.rnw, x.ind) then Translated(HostOf(devs, r.pa)) else Faulted(PermsFault))
  {
    hide ConfigOk, Walk, HostOf;
  }

  lemma AllowedIs(p: Perms, x: Access, key: bool, w: Word)
    requires AccessOk(x) && (p.r <==> !Denied(key, w % 4, false)) && (p.w <==> !Denied(key, w % 4, true))
    requires p.clean <==> w / 0x80 % 2 == 0 && (x.rnw || !p.w)
    ensures Allowed(p, x.rnw, x.ind) <==> !Denied(key, w % 4, !x.rnw)
  {
    hide Denied;
  }

  /** What an access comes to and writes, by its segment register and the second word of its PTE, which is at `second`. */
  ghost predicate ByPte(devs: seq<Device>, a: Arch, x: Access, sr: Word, second: Word)
    requires ConfigOk(a.cfg)
  {
    var w, key := Rd(a.mem, second), KeyIn(sr, x.priv);
    var (a', out) := ScratchTranslate(devs, a, x);
    if x.ind && NeverFetched(sr) then a' == a && out == Faulted(PermsNX)
    else
      && out == (if Denied(key, w % 4, !x.rnw) then Faulted(PermsFault)
                 else Translated(HostOf(devs, w / 0x1000 * 0x1000 + x.ea % 0x1000)))
      && a' == a.(mem := a'.mem) && OnlyAt(a.mem, a'.mem, second) && Rd(a'.mem, second) == Marked(w, key, x.rnw)
  }

  /** An access that no BAT maps, with an aligned table, goes by the first place that has a PTE for its address. */
  lemma {:induction false} PageAccess(devs: seq<Device>, a: Arch, x: Access, sdr1: Word, sr: Word, k: nat, h: nat, n: nat)
    requires h < 0x8_0000 && ConfigOk(a.cfg) && AccessOk(x) && Programmed(a.cfg, sdr1, sr, x.ea) && k <= 9 && n < 16
    requires sdr1 % 0x200 == Pow2(k) - 1 && sdr1 / 0x1_0000 % Pow2(k) == 0 && IsHash(h, sr % 0x100_0000, x.ea)
    requires (if x.ind then a.ir else a.dr) && FirstBat(BatsFor(a.cfg, x.ind), 0, x.ea, x.priv).None?
    requires FitsAt(a.mem, sdr1, sr, k, h, x.ea, n) && forall j :: 0 <= j < n ==> !FitsAt(a.mem, sdr1, sr, k, h, x.ea, j)
    ensures Place(sdr1, k, h, n) + 4 <= 0xffff_fffc && ByPte(devs, a, x, sr, Place(sdr1, k, h, n) + 4)
  {
    hide *;
    SegmentIs(a.cfg, sdr1, sr, x.ea);
    FoundAt(a.cfg, a.mem, sdr1, sr, k, x.ea, h, n);
    Reached(devs, a, x, sr);
  }

  /** The same wherever the PTE was found. */
  lemma Reached(devs: seq<Device>, a: Arch, x: Access, sr: Word)
    requires ConfigOk(a.cfg) && AccessOk(x) && (if x.ind then a.ir else a.dr)
    requires SegIndex(x.ea) < |a.cfg.seg|
    requires a.cfg.seg[SegIndex(x.ea)] == Seg(sr % 0x100_0000, KeyIn(sr, true), KeyIn(sr, false), NeverFetched(sr))
    requires FirstBat(BatsFor(a.cfg, x.ind), 0, x.ea, x.priv).None? && FindPte(a.cfg, a.mem, sr % 0x100_0000, x.ea).Some?
    ensures var p := FindPte(a.cfg, a.mem, sr % 0x100_0000, x.ea).value; p <= 0xffff_fff8 && ByPte(devs, a, x, sr, p + 4)
  {
    hide ConfigOk, FirstBat, FindPte, SegIndex, KeyIn, NeverFetched, Denied, Marked, OnlyAt, Walk, HostOf, ScratchTranslate,
         BatsFor, ReachesPte, Allowed;
    SlotFits(FindPte(a.cfg, a.mem, sr % 0x100_0000, x.ea).value);
    if x.ind && NeverFetched(sr) {
      NoExecute(devs, a, x);
    } else {
      Reaches(a.cfg, a.mem, x.ea, x.ind, x.priv);
      var p := PteGives(a.cfg, a.mem, x.ea, x.ind, x.rnw, x.priv);
      OutcomeIs(devs, a, x);
      AllowedIs(Walk(a.cfg, true, a.mem, x.ea, x.ind, x.rnw, x.priv).0.perms, x, KeyIn(sr, x.priv), Rd(a.mem, p + 4));
    }
  }

  /** And if no place has a PTE for the address it is a page fault, or the fault of a fetch from a no-execute segment. */
  lemma {:induction false} NoPageAccess(devs: seq<Device>, a: Arch, x: Access, sdr1: Word, sr: Word, k: nat, h: nat)
    requires ConfigOk(a.cfg) && Programmed(a.cfg, sdr1, sr, x.ea) && k <= 9 && h < 0x8_0000
    requires sdr1 % 0x200 == Pow2(k) - 1 && sdr1 / 0x1_0000 % Pow2(k) == 0 && IsHash(h, sr % 0x100_0000, x.ea)
    requires (if x.ind then a.ir else a.dr) && FirstBat(BatsFor(a.cfg, x.ind), 0, x.ea, x.priv).None?
    requires forall j :: 0 <= j < 16 ==> !FitsAt(a.mem, sdr1, sr, k, h, x.ea, j)
    ensures ScratchTranslate(devs, a, x)
         == (a, Faulted(if x.ind && sr / 0x1000_0000 % 2 == 1 then PermsNX else NoPage))
  {
    var c, vsid := a.cfg, sr % 0x100_0000;
    forall j: nat | j < 16 ensures !CandidateMatches(c, a.mem, vsid, x.ea, j) {
      CandidateFits(c, a.mem, sdr1, sr, k, x.ea, h, j);
    }
    PicksFirstCandidate(c, a.mem, vsid, x.ea);
    hide ConfigOk, FirstBat, FindPte, IsHash, FitsAt, Pow2, HostOf, HtabBase, HtabMask, CandidateMatches;
  }

  // ---------------------------------------------------------------- BATs

  /** The bytes of a BAT's block. */
  function BlockBytes(k: nat): (n: nat)
    ensures n > 0
  {
    0x2_0000 * Pow2(k)
  }

  /** Which addresses a BAT maps, by the upper register: those of its block of 2^k times 128 KiB, when privileged if Vs is set, and
      otherwise if Vp is. */
  predicate MappedBy(u: Word, k: nat, ea: Word, priv: bool) {
    (if priv then u / 2 % 2 == 1 else u % 2 == 1) && ea / BlockBytes(k) == u / BlockBytes(k)
  }

  function UpperWrite(ind: bool, i: nat, u: Word): Op { if ind then SetIbatUpper(i, u) else SetDbatUpper(i, u) }

  function LowerWrite(ind: bool, i: nat, l: Word): Op { if ind then SetIbatLower(i, l) else SetDbatLower(i, l) }

  /** The MMU after both registers of the `i`th BAT of a side have been written. */
  function WithBat(devs: seq<Device>, a: Arch, ind: bool, i: nat, u: Word, l: Word): (r: Arch)
    requires ConfigOk(a.cfg) && i < 4
    ensures ConfigOk(r.cfg)
  {
    ConfigStep(devs, a, UpperWrite(ind, i, u));
    var upper := ArchStep(devs, a, UpperWrite(ind, i, u)).0;
    ConfigStep(devs, upper, LowerWrite(ind, i, l));
    ArchStep(devs, upper, LowerWrite(ind, i, l)).0
  }

  lemma BatsAfter(devs: seq<Device>, a: Arch, ind: bool, i: nat, u: Word, l: Word)
    requires ConfigOk(a.cfg) && i < 4
    ensures |BatsFor(a.cfg, ind)| == 4
    ensures var b := WithBat(devs, a, ind, i, u, l);
      && BatsFor(b.cfg, ind) == BatsFor(a.cfg, ind)[i := BatWithLower(BatWithUpper(BatsFor(a.cfg, ind)[i], u), l)]
      && b == a.(cfg := b.cfg) && b.cfg.seg == a.cfg.seg && b.cfg.htabPhys == a.cfg.htabPhys && b.cfg.htabMask == a.cfg.htabMask
  {
    hide BatWithUpper, BatWithLower, BatOk;
  }

  lemma {:induction false} BatIs(b: Bat, u: Word, l: Word, k: nat, ea: Word, priv: bool)
    requires k <= 11 && u / 4 % 0x800 == Pow2(k) - 1
    ensures var b' := BatWithLower(BatWithUpper(b, u), l);
      && (BatMatches(b', ea, priv) <==> MappedBy(u, k, ea, priv))
      && var r := BatTranslate(b', ea);
         if l % 4 == 0 then r == WalkFault(PermsFault)
         else
           && r.WalkHit? && r.perms == Perms(true, l % 4 == 2, false)
           && (l / 0x2_0000 % Pow2(k) == 0 ==> r.pa == l / 0x2_0000 * 0x2_0000 + ea % BlockBytes(k) <= 0xffff_ffff)
  {
    hide *;
    var b' := BatWithLower(BatWithUpper(b, u), l);
    BatFields(b, u, l, k);
    BatMaps(b', u, k, ea, priv);
    BatGoes(b', l, k, ea);
  }

  lemma {:induction false} BatFields(b: Bat, u: Word, l: Word, k: nat)
    requires u / 4 % 0x800 == Pow2(k) - 1
    ensures var b' := BatWithLower(BatWithUpper(b, u), l);
      && b'.blShift == k && b'.vs == (u / 2 % 2 == 1) && b'.vp == (u % 2 == 1) && b'.pp == l % 4
      && b'.bepi == u - u % 0x2_0000 && b'.brpn == l - l % 0x2_0000
  {
    LastSetOfOnes(k);
    hide Pow2, FindLastSet;
  }

  lemma BatMaps(b: Bat, u: Word, k: nat, ea: Word, priv: bool)
    requires b.blShift == k && b.vs == (u / 2 % 2 == 1) && b.vp == (u % 2 == 1) && b.bepi == u - u % 0x2_0000
    ensures BatMatches(b, ea, priv) <==> MappedBy(u, k, ea, priv)
  {
    Blocks(u);
    DivideTwice(ea, 0x2_0000, Pow2(k));
    DivideTwice(u, 0x2_0000, Pow2(k));
    hide Pow2;
  }

  lemma {:induction false} BatGoes(b: Bat, l: Word, k: nat, ea: Word)
    requires b.blShift == k && b.pp == l % 4 && b.brpn == l - l % 0x2_0000
    ensures var r := BatTranslate(b, ea);
      if l % 4 == 0 then r == WalkFault(PermsFault)
      else
        && r.WalkHit? && r.perms == Perms(true, l % 4 == 2, false)
        && (l / 0x2_0000 % Pow2(k) == 0 ==> r.pa == l / 0x2_0000 * 0x2_0000 + ea % BlockBytes(k) <= 0xffff_ffff)
  {
    Blocks(l);
    if l / 0x2_0000 % Pow2(k) == 0 {
      TargetOf(l / 0x2_0000, ea, k);
    }
    hide Pow2, BlockTarget, BlockBytes;
  }

  lemma Blocks(u: Word)
    ensures (u - u % BLOCK) / BLOCK == u / 0x2_0000 < 0x8000
  {
  }

  /** A block number with room for the offset, or-ed with it. */
  lemma {:induction false} TargetOf(brpn: nat, ea: Word, k: nat)
    requires brpn < 0x8000 && brpn % Pow2(k) == 0
    ensures BlockTarget(brpn, ea / BLOCK, k) * BLOCK + ea % BLOCK == brpn * 0x2_0000 + ea % BlockBytes(k)
  {
    var p, q := Pow2(k), ea / BLOCK;
    Blocks(ea);
    QuotientOf(brpn, p);
    Commuted(brpn / p, p);
    QuotientOf(q, p);
    AlignedDisjoint(brpn / p, k, q % p);
    OrDisjoint(brpn, q % p);
    TargetIs(brpn, q, k);
    DivideTwice(ea, 0x2_0000, p);
    hide Or, And, Pow2, BlockTarget;
  }

  lemma {:induction false} FirstIs(bats: seq<Bat>, j: nat, i: nat, ea: Word, priv: bool)
    requires j <= i < |bats| && BatMatches(bats[i], ea, priv) && forall h :: j <= h < i ==> !BatMatches(bats[h], ea, priv)
    ensures FirstBat(bats, j, ea, priv) == Some(i)
    decreases i - j
  {
    hide BatMatches;
    if j < i {
      FirstIs(bats, j + 1, i, ea, priv);
    }
  }

  lemma {:induction false} FirstWithout(bats: seq<Bat>, bats': seq<Bat>, j: nat, i: nat, ea: Word, priv: bool)
    requires j <= |bats| == |bats'| && i < |bats| && bats' == bats[i := bats'[i]]
    requires !BatMatches(bats[i], ea, priv) && !BatMatches(bats'[i], ea, priv)
    ensures FirstBat(bats, j, ea, priv) == FirstBat(bats', j, ea, priv) != Some(i)
    decreases |bats| - j
  {
    hide BatMatches;
    if j < |bats| {
      FirstWithout(bats, bats', j + 1, i, ea, priv);
    }
  }

  lemma ByBat(devs: seq<Device>, a: Arch, x: Access, i: nat)
    requires ConfigOk(a.cfg) && (if x.ind then a.ir else a.dr) && i < |BatsFor(a.cfg, x.ind)|
    requires FirstBat(BatsFor(a.cfg, x.ind), 0, x.ea, x.priv) == Some(i)
    ensures var r := BatTranslate(BatsFor(a.cfg, x.ind)[i], x.ea);
      ScratchTranslate(devs, a, x)
      == match r {
           case WalkFault(f) => (a, Faulted(f))
           case WalkHit(pa, perms) =>
             (a, if Allowed(perms, x.rnw, x.ind) then Translated(HostOf(devs, pa)) else Faulted(PermsFault))
         }
  {
    hide ConfigOk, FirstBat, BatTranslate, HostOf;
  }

  lemma NotByBat(devs: seq<Device>, a: Arch, b: Arch, x: Access)
    requires ConfigOk(a.cfg) && ConfigOk(b.cfg) && a == b.(cfg := a.cfg)
    requires a.cfg.seg == b.cfg.seg && a.cfg.htabPhys == b.cfg.htabPhys && a.cfg.htabMask == b.cfg.htabMask
    requires var f := FirstBat(BatsFor(a.cfg, x.ind), 0, x.ea, x.priv);
      && FirstBat(BatsFor(b.cfg, x.ind), 0, x.ea, x.priv) == f
      && (f.Some? ==> BatsFor(a.cfg, x.ind)[f.value] == BatsFor(b.cfg, x.ind)[f.value])
    ensures ScratchTranslate(devs, a, x).1 == ScratchTranslate(devs, b, x).1
  {
    hide ConfigOk, FirstBat, BatTranslate, HostOf, ScanGroup, SegIndex;
    var s := a.cfg.seg;
    SameTable(a.cfg, b.cfg, a.mem, x.ea);
  }

  lemma SameTable(c: Config, d: Config, m: Mem, ea: Word)
    requires ConfigOk(c) && ConfigOk(d) && c.seg == d.seg && c.htabPhys == d.htabPhys && c.htabMask == d.htabMask
    ensures FindPte(c, m, c.seg[SegIndex(ea)].vsid, ea) == FindPte(d, m, d.seg[SegIndex(ea)].vsid, ea)
  {
    hide ScanGroup, PrimaryHash;
  }

  lemma {:induction false} ClearedUpper(u: Word, k: nat, ea: Word, priv: bool)
    requires u / 4 % 0x800 == Pow2(k) - 1
    ensures (u - u % 4) / 4 % 0x800 == Pow2(k) - 1 && !MappedBy(u - u % 4, k, ea, priv)
  {
    assert u - u % 4 == 4 * (u / 4);
    assert (u - u % 4) / 2 == 2 * (u / 4);
    hide Pow2;
  }

  /** What an access comes to by a BAT whose registers hold `u` and `l`: if that maps it, the place in the block that `l` names, if
      it permits; if not, what it comes to where that BAT is off. */
  ghost predicate ByBlock(devs: seq<Device>, b: Arch, off: Arch, x: Access, u: Word, l: Word, k: nat)
    requires ConfigOk(b.cfg) && ConfigOk(off.cfg)
  {
    var r, pa := ScratchTranslate(devs, b, x), l / 0x2_0000 * 0x2_0000 + x.ea % BlockBytes(k);
    if !MappedBy(u, k, x.ea, x.priv) then r.1 == ScratchTranslate(devs, off, x).1
    else if l % 4 == 0 || (!x.ind && !x.rnw && l % 4 != 2) then r == (b, Faulted(PermsFault))
    else l / 0x2_0000 % Pow2(k) == 0 ==> pa <= 0xffff_ffff && r == (b, Translated(HostOf(devs, pa)))
  }

  /** An access that no earlier BAT of its side maps, once both registers of the `i`th have been written. */
  lemma {:induction false} BatAccess(devs: seq<Device>, a: Arch, x: Access, i: nat, u: Word, l: Word, k: nat)
    requires ConfigOk(a.cfg) && i < 4 && k <= 11 && u / 4 % 0x800 == Pow2(k) - 1 && (if x.ind then a.ir else a.dr)
    requires |BatsFor(a.cfg, x.ind)| == 4 && forall j :: 0 <= j < i ==> !BatMatches(BatsFor(a.cfg, x.ind)[j], x.ea, x.priv)
    ensures ByBlock(devs, WithBat(devs, a, x.ind, i, u, l), WithBat(devs, a, x.ind, i, u - u % 4, l), x, u, l, k)
  {
    hide ConfigOk, BatMatches, FirstBat, WithBat, BatsFor, ScratchTranslate, MappedBy, HostOf, BlockBytes, Pow2, BatTranslate,
         Allowed, BatWithUpper, BatWithLower;
    var b, off := WithBat(devs, a, x.ind, i, u, l), WithBat(devs, a, x.ind, i, u - u % 4, l);
    var bats := BatsFor(a.cfg, x.ind);
    BatsAfter(devs, a, x.ind, i, u, l);
    BatsAfter(devs, a, x.ind, i, u - u % 4, l);
    ClearedUpper(u, k, x.ea, x.priv);
    BatIs(bats[i], u, l, k, x.ea, x.priv);
    BatIs(bats[i], u - u % 4, l, k, x.ea, x.priv);
    if MappedBy(u, k, x.ea, x.priv) {
      FirstIs(BatsFor(b.cfg, x.ind), 0, i, x.ea, x.priv);
      ByBat(devs, b, x, i);
      BatAllows(x, l);
    } else {
      FirstWithout(BatsFor(b.cfg, x.ind), BatsFor(off.cfg, x.ind), 0, i, x.ea, x.priv);
      NotByBat(devs, b, off, x);
    }
  }

  lemma BatAllows(x: Access, l: Word)
    ensures Allowed(Perms(true, l % 4 == 2, false), x.rnw, x.ind) <==> x.ind || x.rnw || l % 4 == 2
  {
  }
}
