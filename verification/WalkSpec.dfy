/** What the walk means: where it looks, which entry it picks, that it treats a 4 KiB page uniformly,
    and how the R and C bits it sets bear on later walks. */
module WalkSpec {
  import opened Words
  import opened MmuTypes
  import opened PageWalk

  // ---------------------------------------------------------------- Where the walk looks

  /** SDR1 as the architecture wants it: no base bit inside the mask. */
  predicate HtabAligned(c: Config) { And(c.htabPhys / 0x10000, c.htabMask) == 0 }

  /** For an aligned SDR1 every group lies inside the table of `htabMask + 1` times 64 KiB, and the two groups
      of one address are at complementary offsets: the offsets add up to the offset of the last group. */
  lemma GroupsInTable(c: Config, vsid: nat, ea: Word)
    requires ConfigOk(c) && HtabAligned(c)
    ensures forall h :: c.htabPhys <= ProbeGroup(c, vsid, ea, h) <= c.htabPhys + c.htabMask * 0x10000 + 0xffc0
    ensures (ProbeGroup(c, vsid, ea, false) - c.htabPhys) + (ProbeGroup(c, vsid, ea, true) - c.htabPhys)
         == c.htabMask * 0x10000 + 0xffc0
  {
    var hash := PrimaryHash(vsid, ea);
    GroupOffset(c, hash);
    GroupOffset(c, SecondaryHash(hash));
    Pow2Values();
    assert SecondaryHash(hash) / 0x400 == 0x1ff - hash / 0x400 && SecondaryHash(hash) % 0x400 == 0x3ff - hash % 0x400;
    MaskSplit(hash / 0x400, c.htabMask, 9);
  }

  lemma {:induction false} GroupOffset(c: Config, hash: nat)
    requires ConfigOk(c) && HtabAligned(c) && hash < HASH_LIMIT
    ensures GroupAddr(c.htabPhys, c.htabMask, hash) == c.htabPhys + And(hash / 0x400, c.htabMask) * 0x10000 + hash % 0x400 * 64
  {
    MaskedDisjoint(c.htabPhys / 0x10000, c.htabMask, hash / 0x400);
    OrDisjoint(c.htabPhys / 0x10000, And(hash / 0x400, c.htabMask));
  }

  // ---------------------------------------------------------------- BATs

  /** A matching BAT decides alone: the result is the same whatever the page table holds, and the page table is left
      alone. */
  lemma BatTakesPrecedence(c: Config, m: Mem, m': Mem, ea: Word, ind: bool, rnw: bool, priv: bool)
    requires ConfigOk(c)
    ensures (exists i :: 0 <= i < NR_BATS && BatMatches(BatsFor(c, ind)[i], ea, priv)) ==>
      Walk(c, true, m, ea, ind, rnw, priv).0 == Walk(c, true, m', ea, ind, rnw, priv).0
      && Walk(c, true, m, ea, ind, rnw, priv).1 == m
  {
    hide BatMatches, HtabWalk, BatTranslate;
    var bat := FirstBat(BatsFor(c, ind), 0, ea, priv);
    if bat.None? {
      assert forall i :: 0 <= i < NR_BATS ==> !BatMatches(BatsFor(c, ind)[i], ea, priv);
    }
  }

  /** A multiple of `2^n` shares no bit with a number below `2^n`. */
  lemma {:induction false} AlignedDisjoint(k: nat, n: nat, r: nat)
    requires r < Pow2(n)
    ensures And(k * Pow2(n), r) == 0
    decreases n
  {
    hide And;
    if n == 0 {
      AndZero(k);
    } else {
      var p := Pow2(n - 1);
      Halved(k, p);
      AndUnfold(k * Pow2(n), r);
      AlignedDisjoint(k, n - 1, r / 2);
    }
  }

  lemma {:induction false} AndZero(x: nat)
    ensures And(x * 1, 0) == 0
  {
  }

  lemma Halved(k: nat, p: nat)
    ensures k * (2 * p) / 2 == k * p && k * (2 * p) % 2 == 0 && k * (2 * p) >= 0 && k * p >= 0
  {
    assert k * (2 * p) == 2 * (k * p);
  }

  /** A BAT whose two block numbers are aligned to its length maps its block onto the physical one, offset by offset. */
  lemma BatMapsBlock(b: Bat, ea: Word, priv: bool, j: nat, k: nat)
    requires BatOk(b) && b.pp != 0 && BatMatches(b, ea, priv)
    requires b.bepi / BLOCK == j * Pow2(b.blShift) && b.brpn / BLOCK == k * Pow2(b.blShift)
    ensures var r := BatTranslate(b, ea); r.WalkHit? && r.pa == b.brpn + (ea - b.bepi)
  {
    hide And, Or, BlockTarget, Pow2;
    var n, q := b.blShift, ea / BLOCK;
    SameBlockOffset(q, j, Pow2(n));
    AlignedDisjoint(k, n, q % Pow2(n));
    OrDisjoint(b.brpn / BLOCK, q % Pow2(n));
    TargetIs(b.brpn / BLOCK, q, n);
    assert ea == q * BLOCK + ea % BLOCK && b.bepi == b.bepi / BLOCK * BLOCK && b.brpn == b.brpn / BLOCK * BLOCK;
  }

  lemma {:induction false} TargetIs(brpn: nat, q: nat, n: nat)
    requires brpn < 0x8000 && q < 0x8000
    ensures BlockTarget(brpn, q, n) == Or(brpn, q % Pow2(n))
  {
    hide Or, Pow2;
  }

  lemma SameBlockOffset(q: nat, j: nat, p: nat)
    requires p > 0 && q / p == j * p / p
    ensures q == j * p + q % p && 0 <= q % p < p
  {
    assert q == p * (q / p) + q % p;
    Cancelled(j, p);
  }

  lemma Cancelled(j: nat, p: nat)
    requires p > 0
    ensures j * p / p == j
  {
    QuotientOf(j * p, p);
    SameQuotient(j, j * p / p, p, j * p % p);
  }

  lemma SameQuotient(j: nat, d: int, p: nat, r: int)
    requires 0 <= r < p && j * p == p * d + r
    ensures j == d
  {
    if j != d {
      var k := if j > d then j - d else d - j;
      AtLeastOnce(k, p);
    }
  }

  /** The block length field of `2^k - 1` gives a shift of `k`. */
  lemma {:induction false} LastSetOfOnes(k: nat)
    ensures FindLastSet(Pow2(k) - 1) == k
  {
    if k > 0 {
      LastSetOfOnes(k - 1);
      assert (Pow2(k) - 1) / 2 == Pow2(k - 1) - 1;
    }
  }

  // ---------------------------------------------------------------- Which entry it picks

  /** The sixteen candidates of an address in search order: eight primary, then eight secondary. */
  function Candidate(c: Config, vsid: nat, ea: Word, n: nat): (a: Word)
    requires ConfigOk(c) && n < 2 * PTES_PER_GROUP
    ensures a % 8 == 0
  {
    PteAddr(ProbeGroup(c, vsid, ea, n >= PTES_PER_GROUP), n % PTES_PER_GROUP)
  }

  predicate CandidateMatches(c: Config, m: Mem, vsid: nat, ea: Word, n: nat)
    requires ConfigOk(c) && n < 2 * PTES_PER_GROUP
  {
    PteMatches(Rd(m, Candidate(c, vsid, ea, n)), n >= PTES_PER_GROUP, vsid, ea)
  }

  /** The search fails exactly when no candidate matches, and otherwise returns the first that does. */
  lemma PicksFirstCandidate(c: Config, m: Mem, vsid: nat, ea: Word)
    requires ConfigOk(c)
    ensures FindPte(c, m, vsid, ea).None? <==>
            forall n: nat :: n < 2 * PTES_PER_GROUP ==> !CandidateMatches(c, m, vsid, ea, n)
    ensures forall n: nat ::
              n < 2 * PTES_PER_GROUP && CandidateMatches(c, m, vsid, ea, n)
              && (forall k: nat :: k < n ==> !CandidateMatches(c, m, vsid, ea, k))
              ==> FindPte(c, m, vsid, ea) == Some(Candidate(c, vsid, ea, n))
  {
    hide PteMatches, ProbeGroup, PteAddr;
    ScanFirst(c, m, vsid, ea, 0, false);
    ScanFirst(c, m, vsid, ea, 0, true);
  }

  lemma {:induction false} ScanFirst(c: Config, m: Mem, vsid: nat, ea: Word, i: nat, h: bool)
    requires ConfigOk(c) && i <= PTES_PER_GROUP
    ensures var base := if h then PTES_PER_GROUP else 0;
      var r := ScanGroup(m, ProbeGroup(c, vsid, ea, h), i, h, vsid, ea);
      && (r.None? <==> forall n: nat :: base + i <= n < base + PTES_PER_GROUP ==> !CandidateMatches(c, m, vsid, ea, n))
      && (forall n: nat ::
            base + i <= n < base + PTES_PER_GROUP && CandidateMatches(c, m, vsid, ea, n)
            && (forall k: nat :: base + i <= k < n ==> !CandidateMatches(c, m, vsid, ea, k))
            ==> r == Some(Candidate(c, vsid, ea, n)))
    decreases PTES_PER_GROUP - i
  {
    hide PteMatches, ProbeGroup, PteAddr;
    if i < PTES_PER_GROUP {
      var n := (if h then PTES_PER_GROUP else 0) + i;
      assert CandidateMatches(c, m, vsid, ea, n) == PteMatches(Rd(m, PteAddr(ProbeGroup(c, vsid, ea, h), i)), h, vsid, ea);
      ScanFirst(c, m, vsid, ea, i + 1, h);
    }
  }

  // ---------------------------------------------------------------- Pages are translated uniformly

  /** The result for `ea`, given the result for the base of its page. */
  function AtOffset(r: WalkResult, ea: Word): WalkResult {
    match r
    case WalkHit(pa, perms) => WalkHit(Join(PageOf(pa), ea), perms)
    case WalkFault(_) => r
  }

  lemma BaseFields(ea: Word)
    ensures PageOf(BaseOf(ea)) == PageOf(ea) && PageIndex(BaseOf(ea)) == PageIndex(ea)
    ensures SegIndex(BaseOf(ea)) == SegIndex(ea) && BaseOf(ea) / BLOCK == ea / BLOCK
    ensures Join(PageOf(ea), ea) == ea && PageOf(BaseOf(ea)) * 0x1000 == BaseOf(ea)
  {
    var p := PageOf(ea);
    assert ea == p * 0x1000 + ea % 0x1000 && BaseOf(ea) == p * 0x1000;
    ByPages(ea, p, ea % 0x1000);
    ByPages(BaseOf(ea), p, 0);
  }

  lemma ByPages(ea: Word, p: nat, o: nat)
    requires ea == p * 0x1000 + o && o < 0x1000
    ensures ea / 0x1000 == p && ea / 0x10000000 == p / 0x10000 && ea / BLOCK == p / 0x20
  {
    var s, t := p / 0x10000, p % 0x10000;
    assert ea == 0x10000000 * s + (t * 0x1000 + o) && t * 0x1000 + o < 0x10000000;
    var b, u := p / 0x20, p % 0x20;
    assert ea == BLOCK * b + (u * 0x1000 + o) && u * 0x1000 + o < BLOCK;
  }

  lemma BlockOffset(q: nat, ea: Word)
    requires q < 0x8000
    ensures Join(PageOf(q * BLOCK + BaseOf(ea) % BLOCK), ea) == q * BLOCK + ea % BLOCK
  {
    BlockParts(ea / BLOCK, ea / 0x1000 % 0x20, ea % 0x1000, ea);
    BlockParts(ea / BLOCK, ea / 0x1000 % 0x20, 0, BaseOf(ea));
    BlockParts(q, ea / 0x1000 % 0x20, ea % 0x1000, q * BLOCK + ea % BLOCK);
  }

  lemma BlockParts(q: nat, page: nat, offset: nat, a: Word)
    requires page < 0x20 && offset < 0x1000 && a == q * BLOCK + page * 0x1000 + offset
    ensures a % BLOCK == page * 0x1000 + offset && a % 0x1000 == offset && a / 0x1000 == q * 0x20 + page
  {
  }

  lemma JoinPage(frame: nat, ea: Word)
    requires frame < 0x100000
    ensures PageOf(Join(frame, ea)) == frame
  {
  }

  lemma {:induction false} FirstBatUniform(bats: seq<Bat>, i: nat, ea: Word, priv: bool)
    requires i <= |bats|
    ensures FirstBat(bats, i, BaseOf(ea), priv) == FirstBat(bats, i, ea, priv)
    decreases |bats| - i
  {
    BaseFields(ea);
    if i < |bats| {
      FirstBatUniform(bats, i + 1, ea, priv);
    }
  }

  lemma BatUniform(b: Bat, ea: Word)
    ensures BatTranslate(b, ea) == AtOffset(BatTranslate(b, BaseOf(ea)), ea)
  {
    hide BlockTarget, Join;
    BaseFields(ea);
    BlockOffset(BlockTarget(b.brpn / BLOCK, ea / BLOCK, b.blShift), ea);
  }

  lemma {:induction false} ScanUniform(m: Mem, group: Word, i: nat, h: bool, vsid: nat, ea: Word)
    requires group % 64 == 0 && i <= PTES_PER_GROUP
    ensures ScanGroup(m, group, i, h, vsid, BaseOf(ea)) == ScanGroup(m, group, i, h, vsid, ea)
    decreases PTES_PER_GROUP - i
  {
    BaseFields(ea);
    if i < PTES_PER_GROUP {
      ScanUniform(m, group, i + 1, h, vsid, ea);
    }
  }

  lemma FindUniform(c: Config, m: Mem, vsid: nat, ea: Word)
    requires ConfigOk(c)
    ensures FindPte(c, m, vsid, BaseOf(ea)) == FindPte(c, m, vsid, ea)
  {
    BaseFields(ea);
    ScanUniform(m, ProbeGroup(c, vsid, ea, false), 0, false, vsid, ea);
    ScanUniform(m, ProbeGroup(c, vsid, ea, true), 0, true, vsid, ea);
  }

  /** An address and the base of its page fault alike, have the same permissions and the same effect on the page
      table, and translate into one physical page, each at its own offset. */
  lemma PageUniform(c: Config, on: bool, m: Mem, ea: Word, ind: bool, rnw: bool, priv: bool)
    requires ConfigOk(c)
    ensures Walk(c, on, m, ea, ind, rnw, priv).0 == AtOffset(Walk(c, on, m, BaseOf(ea), ind, rnw, priv).0, ea)
    ensures Walk(c, on, m, ea, ind, rnw, priv).1 == Walk(c, on, m, BaseOf(ea), ind, rnw, priv).1
  {
    hide FirstBat, HtabWalk, BatTranslate, SegIndex, PageIndex;
    BaseFields(ea);
    if on {
      FirstBatUniform(BatsFor(c, ind), 0, ea, priv);
      var bat := FirstBat(BatsFor(c, ind), 0, ea, priv);
      if bat.Some? {
        BatUniform(BatsFor(c, ind)[bat.value], ea);
      } else {
        HtabUniform(c, m, ea, ind, rnw, priv);
      }
    }
  }

  lemma HtabUniform(c: Config, m: Mem, ea: Word, ind: bool, rnw: bool, priv: bool)
    requires ConfigOk(c)
    ensures HtabWalk(c, m, ea, ind, rnw, priv).0 == AtOffset(HtabWalk(c, m, BaseOf(ea), ind, rnw, priv).0, ea)
    ensures HtabWalk(c, m, ea, ind, rnw, priv).1 == HtabWalk(c, m, BaseOf(ea), ind, rnw, priv).1
  {
    hide Touch, FindPte, PagePerms, TouchMem;
    BaseFields(ea);
    var s := c.seg[SegIndex(ea)];
    FindUniform(c, m, s.vsid, ea);
    var found := FindPte(c, m, s.vsid, ea);
    if found.Some? {
      JoinPage(PageOf(Rd(m, Second(found.value))), BaseOf(ea));
    }
  }

  // ---------------------------------------------------------------- R and C only grow

  /** `y` is `x` with perhaps R or C newly set, and no other bit changed. */
  predicate Grew(x: Word, y: Word) {
    && y / 0x200 == x / 0x200 && y % 0x80 == x % 0x80
    && (Referenced(x) ==> Referenced(y)) && (Changed(x) ==> Changed(y))
  }

  /** `m'` is `m` except that second words of PTEs may have gained R or C. */
  ghost predicate OnlyRCGrew(m: Mem, m': Mem) {
    forall a {:trigger Rd(m', a)} :: Grew(Rd(m, a), Rd(m', a)) && (a % 8 != 4 ==> Rd(m', a) == Rd(m, a))
  }

  lemma OnlyRCGrewTrans(m: Mem, m': Mem, m'': Mem)
    requires OnlyRCGrew(m, m') && OnlyRCGrew(m', m'')
    ensures OnlyRCGrew(m, m'')
  {
    forall a ensures Grew(Rd(m, a), Rd(m'', a)) && (a % 8 != 4 ==> Rd(m'', a) == Rd(m, a)) {
      assert Grew(Rd(m, a), Rd(m', a)) && Grew(Rd(m', a), Rd(m'', a));
    }
  }

  /** A second word built from its fields has those fields. */
  lemma WordFields(hi: nat, r: nat, c: nat, lo: nat, w: Word)
    requires r < 2 && c < 2 && lo < 0x80 && w == 0x200 * hi + 0x100 * r + 0x80 * c + lo
    ensures w / 0x200 == hi && w % 0x80 == lo && w / 0x100 % 2 == r && w / 0x80 % 2 == c
  {
    Split80(w, 4 * hi + 2 * r + c, lo);
    Split100(w, 2 * hi + r, 0x80 * c + lo);
    Split200(w, hi, 0x100 * r + 0x80 * c + lo);
    Parity(hi, r);
    Parity(2 * hi + r, c);
  }

  lemma Parity(x: nat, bit: nat)
    requires bit < 2
    ensures (2 * x + bit) % 2 == bit
  {
  }

  lemma Split80(w: nat, q: nat, r: nat)
    requires w == 0x80 * q + r && r < 0x80
    ensures w / 0x80 == q && w % 0x80 == r
  {
  }

  lemma Split100(w: nat, q: nat, r: nat)
    requires w == 0x100 * q + r && r < 0x100
    ensures w / 0x100 == q
  {
  }

  lemma Split200(w: nat, q: nat, r: nat)
    requires w == 0x200 * q + r && r < 0x200
    ensures w / 0x200 == q
  {
  }

  lemma WordParts(w: Word)
    ensures w == 0x200 * (w / 0x200) + 0x100 * (w / 0x100 % 2) + 0x80 * (w / 0x80 % 2) + w % 0x80
  {
    var x, y := w / 0x80, w / 0x100;
    assert y == x / 2 && w / 0x200 == y / 2;
  }

  lemma GrewFields(x: Word, y: Word)
    requires Grew(x, y)
    ensures PP(y) == PP(x) && PageOf(y) == PageOf(x)
  {
    LowBits(x);
    LowBits(y);
  }

  lemma LowBits(w: Word)
    ensures w % 4 == w % 0x80 % 4 && w / 0x1000 == w / 0x200 / 8
  {
  }

  lemma SetRFields(w: Word)
    ensures Grew(w, SetR(w)) && Referenced(SetR(w)) && Changed(SetR(w)) == Changed(w)
  {
    if !Referenced(w) {
      WordParts(w);
      WordFields(w / 0x200, 1, w / 0x80 % 2, w % 0x80, SetR(w));
    }
  }

  lemma SetRCFields(w: Word)
    ensures Grew(w, SetRC(w)) && Referenced(SetRC(w)) && Changed(SetRC(w))
  {
    SetRFields(w);
    if !Changed(w) {
      WordParts(SetR(w));
      WordFields(SetR(w) / 0x200, 1, 1, SetR(w) % 0x80, SetRC(w));
    }
  }

  lemma TouchFields(w: Word, key: bool, rnw: bool)
    ensures Grew(w, Touch(w, key, rnw)) && Referenced(Touch(w, key, rnw))
    ensures !rnw && Writable(key, PP(w)) ==> Changed(Touch(w, key, rnw))
    ensures PP(Touch(w, key, rnw)) == PP(w)
  {
    SetRFields(w);
    SetRCFields(w);
    hide Referenced, Changed, SetR, SetRC;
    GrewFields(w, Touch(w, key, rnw));
  }

  lemma TouchPerms(w: Word, key: bool, rnw: bool)
    ensures PagePerms(Touch(w, key, rnw), key)
         == Perms(Readable(key, PP(w)), Writable(key, PP(w)), !Changed(w) && (rnw || !Writable(key, PP(w))))
    ensures Touch(w, key, rnw) == w <==> Referenced(w) && (rnw || !Writable(key, PP(w)) || Changed(w))
  {
    TouchFields(w, key, rnw);
    SetRFields(w);
    SetRCFields(w);
    hide Referenced, Changed, SetR, SetRC, PP;
  }

  lemma WalkGrowsRC(c: Config, on: bool, m: Mem, ea: Word, ind: bool, rnw: bool, priv: bool)
    requires ConfigOk(c)
    ensures OnlyRCGrew(m, Walk(c, on, m, ea, ind, rnw, priv).1)
  {
    var s := c.seg[SegIndex(ea)];
    var found := FindPte(c, m, s.vsid, ea);
    if found.Some? {
      TouchGrowsRC(m, found.value, KeyOf(s, priv), rnw);
    }
    hide Grew, Touch, FindPte, FirstBat, TouchMem;
    GrewSelf(m);
  }

  lemma GrewSelf(m: Mem)
    ensures OnlyRCGrew(m, m)
  {
  }

  lemma TouchGrowsRC(m: Mem, slot: Word, key: bool, rnw: bool)
    requires slot % 8 == 0
    ensures OnlyRCGrew(m, TouchMem(m, slot, key, rnw))
    ensures Rd(TouchMem(m, slot, key, rnw), Second(slot)) == Touch(Rd(m, Second(slot)), key, rnw)
  {
    TouchFields(Rd(m, Second(slot)), key, rnw);
    forall a ensures Grew(Rd(m, a), Rd(m, a)) {}
    hide Grew, Touch;
  }

  lemma {:induction false} ScanStable(m: Mem, m': Mem, group: Word, i: nat, h: bool, vsid: nat, ea: Word)
    requires OnlyRCGrew(m, m') && group % 64 == 0 && i <= PTES_PER_GROUP
    ensures ScanGroup(m', group, i, h, vsid, ea) == ScanGroup(m, group, i, h, vsid, ea)
    decreases PTES_PER_GROUP - i
  {
    hide Grew, PteMatches;
    if i < PTES_PER_GROUP {
      ScanStable(m, m', group, i + 1, h, vsid, ea);
    }
  }

  lemma FindStable(c: Config, m: Mem, m': Mem, vsid: nat, ea: Word)
    requires ConfigOk(c) && OnlyRCGrew(m, m')
    ensures FindPte(c, m', vsid, ea) == FindPte(c, m, vsid, ea)
  {
    ScanStable(m, m', ProbeGroup(c, vsid, ea, false), 0, false, vsid, ea);
    ScanStable(m, m', ProbeGroup(c, vsid, ea, true), 0, true, vsid, ea);
  }

  // ---------------------------------------------------------------- What a past walk says about later ones

  /** A result agrees with remembered permissions, except that C may have been set since. */
  predicate Agrees(r: WalkResult, pa: Word, perms: Perms) {
    r.WalkHit? && r.pa == pa && r.perms.r == perms.r && r.perms.w == perms.w && (r.perms.clean ==> perms.clean)
  }

  /** A read through `base` now would hit with these results and write nothing. */
  ghost predicate Settled(c: Config, on: bool, m: Mem, base: Word, ind: bool, priv: bool, pa: Word, perms: Perms)
    requires ConfigOk(c)
  {
    var (r, m') := Walk(c, on, m, base, ind, true, priv);
    m' == m && Agrees(r, pa, perms)
  }

  /** Whether a walk gets as far as a PTE. */
  predicate ReachesPte(c: Config, on: bool, m: Mem, ea: Word, ind: bool, priv: bool)
    requires ConfigOk(c)
  {
    && on && FirstBat(BatsFor(c, ind), 0, ea, priv).None?
    && !(ind && c.seg[SegIndex(ea)].n)
    && FindPte(c, m, c.seg[SegIndex(ea)].vsid, ea).Some?
  }

  /** The second word of the PTE a walk reaches. */
  function PteWord(c: Config, m: Mem, m': Mem, ea: Word): Word
    requires ConfigOk(c) && FindPte(c, m, c.seg[SegIndex(ea)].vsid, ea).Some?
  {
    Rd(m', Second(FindPte(c, m, c.seg[SegIndex(ea)].vsid, ea).value))
  }

  lemma TouchedLater(w: Word, later: Word, key: bool, rnw: bool)
    requires Grew(Touch(w, key, rnw), later)
    ensures Touch(later, key, true) == later && PP(later) == PP(w) && PageOf(later) == PageOf(w)
    ensures !Changed(later) ==> !Changed(Touch(w, key, rnw))
  {
    TouchFields(w, key, rnw);
    GrewFields(w, Touch(w, key, rnw));
    GrewFields(Touch(w, key, rnw), later);
  }

  /** Any walk that hits settles its page, from then on and while other walks, through any alias of the PTE,
      set R and C bits. */
  lemma WalkSettles(c: Config, on: bool, m: Mem, m'': Mem, base: Word, ind: bool, rnw: bool, priv: bool)
    requires ConfigOk(c) && OnlyRCGrew(Walk(c, on, m, base, ind, rnw, priv).1, m'')
    ensures var r := Walk(c, on, m, base, ind, rnw, priv).0;
      r.WalkHit? ==> Settled(c, on, m'', base, ind, priv, r.pa, r.perms)
  {
    hide OnlyRCGrew, Grew, FindPte, FirstBat, BatTranslate, SegIndex, ConfigOk, TouchMem, PagePerms;
    if ReachesPte(c, on, m, base, ind, priv) {
      FindAfterWalk(c, on, m, m'', base, ind, rnw, priv);
      HtabSettles(c, m, m'', base, ind, rnw, priv);
    }
  }

  lemma FindAfterWalk(c: Config, on: bool, m: Mem, m'': Mem, base: Word, ind: bool, rnw: bool, priv: bool)
    requires ConfigOk(c) && OnlyRCGrew(Walk(c, on, m, base, ind, rnw, priv).1, m'')
    ensures FindPte(c, m'', c.seg[SegIndex(base)].vsid, base) == FindPte(c, m, c.seg[SegIndex(base)].vsid, base)
  {
    hide Walk, OnlyRCGrew;
    WalkGrowsRC(c, on, m, base, ind, rnw, priv);
    OnlyRCGrewTrans(m, Walk(c, on, m, base, ind, rnw, priv).1, m'');
    FindStable(c, m, m'', c.seg[SegIndex(base)].vsid, base);
  }

  lemma HtabSettles(c: Config, m: Mem, m'': Mem, base: Word, ind: bool, rnw: bool, priv: bool)
    requires ConfigOk(c) && ReachesPte(c, true, m, base, ind, priv)
    ensures var (r, m') := HtabWalk(c, m'', base, ind, true, priv);
      var (earlier, touched) := HtabWalk(c, m, base, ind, rnw, priv);
      OnlyRCGrew(touched, m'')
      && FindPte(c, m'', c.seg[SegIndex(base)].vsid, base) == FindPte(c, m, c.seg[SegIndex(base)].vsid, base) ==>
        m' == m'' && earlier.WalkHit? && Agrees(r, earlier.pa, earlier.perms)
  {
    var s := c.seg[SegIndex(base)];
    var slot := FindPte(c, m, s.vsid, base).value;
    TouchGrowsRC(m, slot, KeyOf(s, priv), rnw);
    if OnlyRCGrew(HtabWalk(c, m, base, ind, rnw, priv).1, m'') {
      TouchedLater(Rd(m, Second(slot)), Rd(m'', Second(slot)), KeyOf(s, priv), rnw);
    }
    TouchFields(Rd(m, Second(slot)), KeyOf(s, priv), rnw);
    hide Grew, Touch, FindPte, FirstBat, PP, Changed, Readable, Writable;
  }

  lemma SettledStable(c: Config, on: bool, m: Mem, m': Mem, base: Word, ind: bool, priv: bool, pa: Word, perms: Perms)
    requires ConfigOk(c) && OnlyRCGrew(m, m') && Settled(c, on, m, base, ind, priv, pa, perms)
    ensures Settled(c, on, m', base, ind, priv, pa, perms)
  {
    hide Walk, OnlyRCGrew;
    WalkSettles(c, on, m, m', base, ind, true, priv);
  }

  /** What a fresh walk for write through a settled page would do, unless it is remembered as unclean. */
  lemma SettledWrite(c: Config, on: bool, m: Mem, base: Word, ind: bool, priv: bool, pa: Word, perms: Perms)
    requires ConfigOk(c) && Settled(c, on, m, base, ind, priv, pa, perms) && (perms.w ==> !perms.clean)
    ensures var (r, m') := Walk(c, on, m, base, ind, false, priv); m' == m && Agrees(r, pa, perms)
  {
    if ReachesPte(c, on, m, base, ind, priv) {
      var s := c.seg[SegIndex(base)];
      var slot := FindPte(c, m, s.vsid, base).value;
      TouchGrowsRC(m, slot, KeyOf(s, priv), true);
      TouchFields(Rd(m, Second(slot)), KeyOf(s, priv), true);
    }
    hide Grew, FindPte, FirstBat, PP, Changed, Referenced, Readable, BatTranslate;
  }

  /** A walk for write never leaves a writable page unclean, so it is not repeated. */
  lemma WriteWalkCleans(c: Config, on: bool, m: Mem, ea: Word, ind: bool, priv: bool)
    requires ConfigOk(c)
    ensures var r := Walk(c, on, m, ea, ind, false, priv).0; r.WalkHit? && r.perms.w ==> !r.perms.clean
  {
    if ReachesPte(c, on, m, ea, ind, priv) {
      var s := c.seg[SegIndex(ea)];
      TouchFields(PteWord(c, m, m, ea), KeyOf(s, priv), false);
    }
  }

  /** What holds of memory once translation lets an access through to a hashed page: the page's PTE has R set,
      and C too if the access is a store. */
  lemma AllowedMeansMarked(c: Config, m: Mem, ea: Word, ind: bool, rnw: bool, priv: bool)
    requires ConfigOk(c) && ReachesPte(c, true, m, ea, ind, priv)
    ensures var (r, m') := Walk(c, true, m, ea, ind, rnw, priv);
      && FindPte(c, m', c.seg[SegIndex(ea)].vsid, ea) == FindPte(c, m, c.seg[SegIndex(ea)].vsid, ea)
      && Referenced(PteWord(c, m, m', ea))
      && (r.WalkHit? && !rnw && !ind && Allowed(r.perms, rnw, ind) ==> Changed(PteWord(c, m, m', ea)))
  {
    var s := c.seg[SegIndex(ea)];
    var slot := FindPte(c, m, s.vsid, ea).value;
    WalkGrowsRC(c, true, m, ea, ind, rnw, priv);
    FindStable(c, m, Walk(c, true, m, ea, ind, rnw, priv).1, s.vsid, ea);
    TouchGrowsRC(m, slot, KeyOf(s, priv), rnw);
    TouchFields(Rd(m, Second(slot)), KeyOf(s, priv), rnw);
    hide Grew, FindPte, FirstBat, PP, Changed, Referenced, Touch;
  }
}
