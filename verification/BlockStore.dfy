/** The JIT's code arena and block table, and the generator that fills them (blockstore.cc, blockstore.h, blockgen.cc).
    An emission is an operation, its arguments and its length in bytes; the x86 byte values are not modelled. */
module BlockStore {
  import opened Words
  import opened MmuTypes
  import opened PageWalk
  import opened WalkSpec
  import opened BusMap
  import opened DirectTlb
  import opened DataPath
  import opened CpuTypes
  import opened CodeFetch
  import opened Mmu

  const CODE_SIZE: nat := 0x400000
  const FUMES: nat := 1024
  const GRACE: nat := 100
  const HEADER: nat := 64
  const BUCKETS: nat := 32768
  const MAX_INSTRS: nat := 1000

  datatype Emission = Prologue | Call(fn: nat, args: seq<int>) | Epilogue(count: nat)

  /** One instruction, decoded: the call to plant, and whether it must end the block. */
  datatype Decoded = Decoded(call: Emission, ends: bool)

  type Key = (Word, Word)

  /** What looking for a block comes to. */
  datatype Found = AtBlock(start: nat) | Missing | NoFetch(fault: Fault)

  datatype Header = Header(next: Option<nat>, pc: Word, pcPa: Word, msr: Word, codelen: nat)

  /** A byte of the arena: the first byte of a header or of an emission stands for all of it. */
  datatype Cell = Head(header: Header) | First(e: Emission) | Rest

  /** Bytes of code for an emission: `generate_call` and its variants, startBlock, finaliseBlock. */
  function Length(e: Emission): (n: nat)
    ensures 0 < n < GRACE
  {
    match e
    case Prologue => 10
    case Epilogue(_) => 10
    case Call(_, args) =>
      if |args| == 0 then 8 else if |args| == 1 then 13 else if |args| == 2 then 18 else if |args| == 3 then 23
      else if |args| == 4 then 29 else if |args| == 5 then 35 else 51
  }

  function Bytes(e: Emission): (s: seq<Cell>)
    ensures |s| == Length(e)
  {
    [First(e)] + seq(Length(e) - 1, _ => Rest)
  }

  function AllBytes(es: seq<Emission>): seq<Cell> {
    if es == [] then [] else AllBytes(es[..|es| - 1]) + Bytes(es[|es| - 1])
  }

  lemma {:induction false} AllBytesBound(es: seq<Emission>)
    ensures |AllBytes(es)| <= 51 * |es|
  {
    if es != [] {
      AllBytesBound(es[..|es| - 1]);
    }
  }

  /** HASH_IDX */
  function Bucket(key: Key): (k: nat)
    ensures k < BUCKETS
  {
    Xor(Xor(key.0 / 4, key.0 / 0x2000), key.1) % BUCKETS
  }

  // ---------------------------------------------------------------- What the generator should produce

  /** The calls of the block that starts at `pc`: up to a block-ending instruction, the end of the page, a fetch that
      faults, or `limit` instructions. */
  function Calls(fetch: Word -> Option<Word>, decode: Word -> Decoded, pc: Word, limit: nat): (r: seq<Emission>)
    requires limit > 0
    ensures |r| <= limit
    decreases limit
  {
    match fetch(pc)
    case None => []
    case Some(inst) =>
      var d := decode(inst);
      if d.ends || NextPc(pc) % 0x1000 == 0 || limit == 1 then [d.call]
      else [d.call] + Calls(fetch, decode, NextPc(pc), limit - 1)
  }

  /** The word that a fetch in state `a` finds at each address, where it is translated. */
  ghost function CodeWords(devs: seq<Device>, a: Arch, data: Data, device: (Word, nat) -> nat, priv: bool): Word -> Option<Word> {
    va =>
      if !ConfigOk(a.cfg) then None
      else
        var out := ScratchTranslate(devs, a, FetchAccess(va, priv)).1;
        if out.Translated? then Some(LoadVia(devs, data, device, out.host, 4) % WORD_LIMIT) else None
  }

  lemma CodeWordAt(devs: seq<Device>, a: Arch, data: Data, device: (Word, nat) -> nat, priv: bool, va: Word, host: nat)
    requires Fetchable(devs, a, priv, va, host)
    ensures CodeWords(devs, a, data, device, priv)(va) == Some(LoadVia(devs, data, device, host, 4) % WORD_LIMIT)
  {
    hide ConfigOk, ScratchTranslate, LoadVia;
  }

  // ---------------------------------------------------------------- The blocks allocated since the last reset

  datatype Block = Block(start: nat, key: Key, pc: Word, code: seq<Emission>)

  function EndOf(b: Block): nat { b.start + HEADER + |AllBytes(b.code)| }

  /** The most recent block of bucket `k` among the first `n`: the head of its chain. */
  function LastIn(bs: seq<Block>, n: nat, k: nat): Option<nat>
    requires n <= |bs|
  {
    if n == 0 then None
    else if Bucket(bs[n - 1].key) == k then Some(bs[n - 1].start)
    else LastIn(bs, n - 1, k)
  }

  /** The header of a block links to the previous block of its bucket, and its code is in place. */
  ghost predicate BlockOk(bs: seq<Block>, i: nat, arena: seq<Cell>)
    requires i < |bs|
  {
    var b := bs[i];
    && EndOf(b) <= |arena|
    && arena[b.start].Head?
    && arena[b.start].header.next == LastIn(bs, i, Bucket(b.key))
    && (arena[b.start].header.pcPa, arena[b.start].header.msr) == b.key && arena[b.start].header.pc == b.pc
    && arena[b.start + HEADER..EndOf(b)] == AllBytes(b.code)
  }

  /** Two blocks do not overlap and have different keys. */
  predicate Apart(a: Block, b: Block) { EndOf(a) <= b.start && a.key != b.key }

  ghost predicate BlocksOk(bs: seq<Block>, arena: seq<Cell>) {
    && (forall i :: 0 <= i < |bs| ==> BlockOk(bs, i, arena))
    && (forall i, j :: 0 <= i < j < |bs| ==> Apart(bs[i], bs[j]))
  }

  ghost predicate IsStart(bs: seq<Block>, start: nat) { exists i :: 0 <= i < |bs| && bs[i].start == start }

  ghost predicate AllEndBy(bs: seq<Block>, ptr: nat) {
    forall i :: 0 <= i < |bs| ==> EndOf(bs[i]) <= ptr
  }

  /** Where the next allocation may go without touching any block: past the last one, unless that one's epilogue did
      not fit the space accounted for, in which case the next allocation is bound to reset the arena. */
  ghost predicate PointerOk(bs: seq<Block>, last: nat) {
    last % 64 == 0 && last < CODE_SIZE && (AllEndBy(bs, last) || last > CODE_SIZE - FUMES)
  }

  // ---------------------------------------------------------------- Blocks against the memory map

  function KeyFor(host: nat, msr: Word): Key { (host % WORD_LIMIT, msr) }

  /** The MSR of a block says in which mode its PC was translated, and it still is to the address the block was made for. */
  ghost predicate MapsTo(devs: seq<Device>, a: Arch, b: Block) {
    && ConfigOk(a.cfg)
    && var mode := a.(ir := IR(b.key.1));
       var (after, out) := ScratchTranslate(devs, mode, FetchAccess(b.pc, !PR(b.key.1)));
       after == mode && out.Translated? && KeyFor(out.host, b.key.1) == b.key
  }

  ghost predicate Mapped(bs: seq<Block>, devs: seq<Device>, a: Arch) { forall i :: 0 <= i < |bs| ==> MapsTo(devs, a, bs[i]) }

  /** As long as the configuration stands still, whatever R and C bits are set and however the modes change. */
  lemma MappedKept(bs: seq<Block>, devs: seq<Device>, a: Arch, a': Arch)
    requires WellPlaced(devs) && a'.cfg == a.cfg && OnlyRCGrew(a.mem, a'.mem) && Mapped(bs, devs, a)
    ensures Mapped(bs, devs, a')
  {
    forall i | 0 <= i < |bs| ensures MapsTo(devs, a', bs[i]) {
      assert MapsTo(devs, a, bs[i]);
      MapsToKept(devs, a, a', bs[i]);
    }
  }

  lemma MapsToKept(devs: seq<Device>, a: Arch, a': Arch, b: Block)
    requires WellPlaced(devs) && a'.cfg == a.cfg && OnlyRCGrew(a.mem, a'.mem) && MapsTo(devs, a, b)
    ensures MapsTo(devs, a', b)
  {
    hide ScratchTranslate, ConfigOk, WellPlaced, OnlyRCGrew;
    var on := IR(b.key.1);
    var host := ScratchTranslate(devs, a.(ir := on), FetchAccess(b.pc, !PR(b.key.1))).1.host;
    FetchesInPage(devs, a.(ir := on), a'.(ir := on), !PR(b.key.1), b.pc, host, b.pc);
  }

  /** The generation count stands still over a run exactly when the run has no configuration write, invalidation or PTE edit,
      and over such a run every block stays mapped. */
  lemma {:induction false} MappedWhileGenStands(bs: seq<Block>, devs: seq<Device>, s: State, ops: seq<Op>)
    requires Coherent(devs, s) && WellPlaced(devs) && RunOk(ops)
    ensures CachedRun(devs, s, ops).0.gen >= s.gen
    ensures CachedRun(devs, s, ops).0.gen == s.gen <==> forall op :: op in ops ==> op.DoAccess? || op.SetIrDr?
    ensures CachedRun(devs, s, ops).0.gen == s.gen && Mapped(bs, devs, s.arch) ==> Mapped(bs, devs, CachedRun(devs, s, ops).0.arch)
    decreases |ops|
  {
    hide WellPlaced, SideOk, CachedTranslate, ScratchTranslate, OpOk, Mapped, OnlyRCGrew, ConfigOk;
    if ops != [] {
      var s' := CachedStep(devs, s, ops[0]).0;
      StepSimulates(devs, s, ops[0]);
      StepGen(devs, s, ops[0]);
      MappedWhileGenStands(bs, devs, s', ops[1..]);
      assert forall op :: op in ops <==> op == ops[0] || op in ops[1..];
      if s'.gen == s.gen && Mapped(bs, devs, s.arch) {
        MappedKept(bs, devs, s.arch, s'.arch);
      }
    }
  }

  lemma StepGen(devs: seq<Device>, s: State, op: Op)
    requires Coherent(devs, s) && WellPlaced(devs) && OpOk(op)
    ensures var s' := CachedStep(devs, s, op).0;
      && s'.gen == (if op.DoAccess? || op.SetIrDr? then s.gen else s.gen + 1)
      && (s'.gen == s.gen ==> s'.arch.cfg == s.arch.cfg && OnlyRCGrew(s.arch.mem, s'.arch.mem))
  {
    hide WellPlaced, SideOk, Walk, OnlyRCGrew, Flushed, BatWithUpper, BatWithLower, SegOf, HtabBase, HtabMask;
    GrewSelf(s.arch.mem);
    if op.DoAccess? {
      TranslateSimulates(devs, s, op.x);
      WalkGrowsRC(s.arch.cfg, On(s.arch, op.x.ind), s.arch.mem, op.x.ea, op.x.ind, op.x.rnw, op.x.priv);
    }
  }

  // ---------------------------------------------------------------- How a change of the arena bears on the blocks

  lemma {:induction false} SamePrefix(bs: seq<Block>, bs': seq<Block>, n: nat, k: nat)
    requires n <= |bs| && n <= |bs'|
    requires forall i :: 0 <= i < n ==> bs[i].key == bs'[i].key && bs[i].start == bs'[i].start
    ensures LastIn(bs, n, k) == LastIn(bs', n, k)
  {
    hide Bucket;
    if n > 0 {
      SamePrefix(bs, bs', n - 1, k);
    }
  }

  /** Cells past the end of every block may be overwritten. */
  lemma WritesPastEnd(bs: seq<Block>, arena: seq<Cell>, arena': seq<Cell>, ptr: nat)
    requires BlocksOk(bs, arena) && |arena'| == |arena| && ptr <= |arena|
    requires AllEndBy(bs, ptr) && forall k :: 0 <= k < ptr ==> arena'[k] == arena[k]
    ensures BlocksOk(bs, arena')
  {
    hide AllBytes, LastIn, Bucket;
    forall i | 0 <= i < |bs| ensures BlockOk(bs, i, arena') {
      var b := bs[i];
      assert BlockOk(bs, i, arena);
      assert EndOf(b) <= ptr;
      assert arena'[b.start + HEADER..EndOf(b)] == arena[b.start + HEADER..EndOf(b)];
    }
  }

  /** A block is as good in another list that has the same block at that position after the same links. */
  lemma SameBlockOk(bs: seq<Block>, bs': seq<Block>, i: nat, arena: seq<Cell>)
    requires i < |bs| && i < |bs'| && bs'[i] == bs[i] && BlockOk(bs, i, arena)
    requires forall k :: 0 <= k < i ==> bs[k].key == bs'[k].key && bs[k].start == bs'[k].start
    ensures BlockOk(bs', i, arena)
  {
    hide AllBytes, Bucket;
    SamePrefix(bs, bs', i, Bucket(bs[i].key));
    hide LastIn;
  }

  /** A new block without code, once its header is in place. */
  lemma {:induction false} AppendBlock(bs: seq<Block>, arena: seq<Cell>, b: Block)
    requires BlocksOk(bs, arena) && AllEndBy(bs, b.start) && b.code == [] && b.start + HEADER <= |arena|
    requires forall i :: 0 <= i < |bs| ==> bs[i].key != b.key
    requires arena[b.start] == Head(Header(LastIn(bs, |bs|, Bucket(b.key)), b.pc, b.key.0, b.key.1, 0))
    ensures BlocksOk(bs + [b], arena)
  {
    var bs' := bs + [b];
    AppendedBlockOk(bs, arena, b);
    forall i | 0 <= i < |bs| ensures BlockOk(bs', i, arena) {
      SameBlockOk(bs, bs', i, arena);
    }
    hide BlockOk;
  }

  lemma {:induction false} AppendedBlockOk(bs: seq<Block>, arena: seq<Cell>, b: Block)
    requires b.code == [] && b.start + HEADER <= |arena|
    requires arena[b.start] == Head(Header(LastIn(bs, |bs|, Bucket(b.key)), b.pc, b.key.0, b.key.1, 0))
    ensures BlockOk(bs + [b], |bs|, arena)
  {
    SamePrefix(bs, bs + [b], |bs|, Bucket(b.key));
    hide LastIn, Bucket;
  }

  function WithCode(bs: seq<Block>, code: seq<Emission>): seq<Block>
    requires bs != []
  {
    bs[|bs| - 1 := bs[|bs| - 1].(code := code)]
  }

  lemma {:induction false} BytesAppend(code: seq<Emission>, e: Emission)
    ensures AllBytes(code + [e]) == AllBytes(code) + Bytes(e)
  {
    assert (code + [e])[..|code|] == code;
  }

  /** The last block grows by an emission whose bytes have been written at its end. */
  lemma ExtendLast(bs: seq<Block>, arena: seq<Cell>, arena': seq<Cell>, e: Emission)
    requires bs != [] && BlocksOk(bs, arena) && |arena'| == |arena|
    requires var ptr := EndOf(bs[|bs| - 1]);
      && ptr + Length(e) <= |arena| && (forall k :: 0 <= k < ptr ==> arena'[k] == arena[k])
      && arena'[ptr..ptr + Length(e)] == Bytes(e)
    ensures BlocksOk(WithCode(bs, bs[|bs| - 1].code + [e]), arena')
    ensures EndOf(WithCode(bs, bs[|bs| - 1].code + [e])[|bs| - 1]) == EndOf(bs[|bs| - 1]) + Length(e)
  {
    hide AllBytes, Bytes, BlockOk, LastIn, Bucket;
    var n := |bs| - 1;
    var code := bs[n].code + [e];
    var bs' := WithCode(bs, code);
    var ptr := EndOf(bs[n]);
    GrownEnds(bs, arena, ptr);
    WritesPastEnd(bs, arena, arena', ptr);
    assert BlockOk(bs, n, arena');
    ExtendedOk(bs, arena', e);
    forall i | 0 <= i < n ensures BlockOk(bs', i, arena') {
      SameBlockOk(bs, bs', i, arena');
    }
    forall i, j | 0 <= i < j < |bs'| ensures Apart(bs'[i], bs'[j]) {
      assert Apart(bs[i], bs[j]);
    }
  }

  lemma ExtendedOk(bs: seq<Block>, arena: seq<Cell>, e: Emission)
    requires bs != [] && BlockOk(bs, |bs| - 1, arena)
    requires var ptr := EndOf(bs[|bs| - 1]); ptr + Length(e) <= |arena| && arena[ptr..ptr + Length(e)] == Bytes(e)
    ensures BlockOk(WithCode(bs, bs[|bs| - 1].code + [e]), |bs| - 1, arena)
    ensures EndOf(WithCode(bs, bs[|bs| - 1].code + [e])[|bs| - 1]) == EndOf(bs[|bs| - 1]) + Length(e)
  {
    hide Bytes, Length;
    var b := bs[|bs| - 1];
    var b' := b.(code := b.code + [e]);
    BytesAppend(b.code, e);
    SamePrefix(bs, WithCode(bs, b'.code), |bs| - 1, Bucket(b.key));
    hide AllBytes, LastIn, Bucket;
    assert arena[b.start + HEADER..EndOf(b')] == arena[b.start + HEADER..EndOf(b)] + arena[EndOf(b)..EndOf(b')];
  }

  lemma HeaderAmended(bs: seq<Block>, arena: seq<Cell>, arena': seq<Cell>, h: Header)
    requires bs != [] && BlocksOk(bs, arena)
    requires bs[|bs| - 1].start < |arena| && arena[bs[|bs| - 1].start].Head?
    requires var b := bs[|bs| - 1].start; h == arena[b].header.(codelen := h.codelen) && arena' == arena[b := Head(h)]
    ensures BlocksOk(bs, arena')
  {
    hide AllBytes, LastIn, Bucket;
    var n := |bs| - 1;
    forall i | 0 <= i < |bs| ensures BlockOk(bs, i, arena') {
      assert BlockOk(bs, i, arena) && BlockOk(bs, n, arena);
      assert i < n ==> Apart(bs[i], bs[n]);
      var b := bs[i];
      assert arena'[b.start + HEADER..EndOf(b)] == arena[b.start + HEADER..EndOf(b)];
    }
  }

  lemma {:induction false} ChainsIgnoreCode(bs: seq<Block>, code: seq<Emission>)
    requires bs != []
    ensures forall k :: LastIn(WithCode(bs, code), |bs|, k) == LastIn(bs, |bs|, k)
    ensures forall start :: IsStart(bs, start) ==> IsStart(WithCode(bs, code), start)
  {
    hide Bucket;
    forall k ensures LastIn(WithCode(bs, code), |bs|, k) == LastIn(bs, |bs|, k) {
      SamePrefix(bs, WithCode(bs, code), |bs|, k);
    }
    hide LastIn;
    forall i | 0 <= i < |bs| ensures WithCode(bs, code)[i].start == bs[i].start {}
  }

  function Align64(n: nat): (r: nat)
    ensures n <= r < n + 64 && r % 64 == 0
  {
    (n + 63) / 64 * 64
  }

  class Store {
    const arena: array<Cell>
    const buckets: array<Option<nat>>
    const dummy: Header
    var last: nat
    var lastBlock: Option<nat>  // None: the dummy block
    ghost var blocks: seq<Block>

    /** What construction settles: the sizes, and a dummy block that no lookup asks for. */
    ghost predicate Built() {
      && arena.Length == CODE_SIZE && buckets.Length == BUCKETS
      && dummy.pc == 0xffff_ffff && dummy.msr == 0xffff_ffff
    }

    /** Everything but the allocation pointer. */
    ghost predicate Consistent()
      reads this, arena, buckets
    {
      && Built() && BlocksOk(blocks, arena[..])
      && (forall k {:trigger buckets[k]} :: 0 <= k < BUCKETS ==> buckets[k] == LastIn(blocks, |blocks|, k))
      && (lastBlock.Some? ==> IsStart(blocks, lastBlock.value))
    }

    ghost predicate Valid()
      reads this, arena, buckets
    {
      Consistent() && PointerOk(blocks, last)
    }

    ghost predicate Fresh(key: Key)
      reads this
    {
      forall i :: 0 <= i < |blocks| ==> blocks[i].key != key
    }

    /** initBlockStore. */
    constructor ()
      ensures Valid() && blocks == [] && last == 0 && lastBlock == None
      ensures dummy.pc == 0xffff_ffff && dummy.msr == 0xffff_ffff
      ensures fresh(arena) && fresh(buckets) && arena.Length == 0x40_0000 && buckets.Length == 0x8000
    {
      arena := new Cell[CODE_SIZE](_ => Rest);
      buckets := new Option<nat>[BUCKETS](_ => None);
      dummy := Header(None, 0xffff_ffff, 0, 0xffff_ffff, 0);
      last, lastBlock, blocks := 0, None, [];
    }

    method Reset()
      requires Built()
      modifies this, buckets
      ensures Valid() && blocks == [] && last == 0 && lastBlock == None
    {
      last, lastBlock, blocks := 0, None, [];
      forall k | 0 <= k < buckets.Length { buckets[k] := None; }
    }

    /** allocBlock: the header goes to the allocation pointer, after a reset if little space is left; the block is
        entered in the table at once, with no code yet. */
    method AllocBlock(pc: Word, key: Key) returns (b: nat, avail: nat)
      requires Valid() && Fresh(key)
      modifies this, arena, buckets
      ensures Consistent() && b == last && last % 64 == 0 && last <= CODE_SIZE - FUMES
      ensures avail == CODE_SIZE - GRACE - last - HEADER == 0x3f_ff5c - last && CODE_SIZE - FUMES == 0x3f_fc00
      ensures blocks == (if old(last) > CODE_SIZE - FUMES then [] else old(blocks)) + [Block(b, key, pc, [])]
      ensures old(last) <= CODE_SIZE - FUMES ==> last == old(last) && lastBlock == old(lastBlock)
      ensures old(last) > CODE_SIZE - FUMES ==> last == 0 && lastBlock == None
    {
      if last > CODE_SIZE - FUMES {
        Reset();
      }
      b := last;
      ghost var bs := blocks;
      var i := Bucket(key);
      hide AllBytes, Bucket, BlocksOk;
      ghost var before := arena[..];
      arena[b] := Head(Header(buckets[i], pc, key.0, key.1, 0));
      buckets[i] := Some(b);
      WritesPastEnd(bs, before, arena[..], b);
      AppendBlock(bs, arena[..], Block(b, key, pc, []));
      blocks := bs + [Block(b, key, pc, [])];
      forall k ensures LastIn(bs, |bs|, k) == LastIn(blocks, |bs|, k) {
        SamePrefix(bs, blocks, |bs|, k);
      }
      assert forall j :: 0 <= j < |bs| ==> blocks[j] == bs[j];
      avail := CODE_SIZE - GRACE - b - HEADER;
    }

    // -------------------------------------------------------------- Generation

    /** A block is being generated at the allocation pointer: `ptr` is where its next byte goes, and the space left is
        counted up to the grace area. */
    ghost predicate Generating(b: nat, ptr: nat, avail: nat)
      reads this, arena, buckets
    {
      && Consistent() && blocks != [] && last == b == blocks[|blocks| - 1].start
      && b % 64 == 0 && b <= CODE_SIZE - FUMES
      && ptr == EndOf(blocks[|blocks| - 1]) && ptr + avail == CODE_SIZE - GRACE
    }

    ghost function CurrentCode(): seq<Emission>
      requires blocks != []
      reads this
    {
      blocks[|blocks| - 1].code
    }

    lemma InPlace(cells: seq<Cell>, ptr: nat, bytes: seq<Cell>)
      requires ptr + |bytes| <= |cells| && forall i :: 0 <= i < |bytes| ==> cells[ptr + i] == bytes[i]
      ensures cells[ptr..ptr + |bytes|] == bytes
    {
    }

    /** One emission. The bytes are written before the space is checked: they always land inside the arena, and they
        count as code only if they fit outside the grace area. */
    method Plant(b: nat, ptr: nat, avail: nat, e: Emission) returns (next: nat, left: nat, ok: bool)
      requires Generating(b, ptr, avail)
      modifies this`blocks, arena
      ensures ok <==> avail >= Length(e)
      ensures Consistent() && BlocksOk(WithCode(old(blocks), old(CurrentCode()) + [e]), arena[..])
      ensures ok ==> Generating(b, next, left) && blocks == WithCode(old(blocks), old(CurrentCode()) + [e])
      ensures next == (if ok then ptr + Length(e) else ptr) && left == (if ok then avail - Length(e) else avail)
      ensures !ok ==> blocks == old(blocks)
    {
      hide AllBytes, LastIn, Bucket, BlockOk;
      ghost var before := arena[..];
      var l := Length(e);
      var bytes := Bytes(e);
      forall i | 0 <= i < l { arena[ptr + i] := bytes[i]; }
      InPlace(arena[..], ptr, bytes);
      ExtendLast(blocks, before, arena[..], e);
      ChainsIgnoreCode(blocks, CurrentCode() + [e]);
      GrownEnds(blocks, before, ptr);
      WritesPastEnd(blocks, before, arena[..], ptr);
      ok := avail >= l;
      next, left := ptr, avail;
      if ok {
        next, left := ptr + l, avail - l;
        blocks := WithCode(blocks, CurrentCode() + [e]);
      }
    }

    /** finaliseBlock and amendBlockSize: the epilogue, then the allocation pointer moves past what was counted. An
        epilogue that did not fit is not counted; it is in place all the same, and the pointer is then so close to the
        end that the next allocation resets the arena before anything can overwrite it. */
    method Finish(b: nat, ptr: nat, avail: nat, count: nat)
      requires Generating(b, ptr, avail)
      modifies this`blocks, this`last, arena
      ensures Valid() && blocks == WithCode(old(blocks), old(CurrentCode()) + [Epilogue(count)])
      ensures avail < Length(Epilogue(count)) ==> last > CODE_SIZE - FUMES
    {
      hide AllBytes, LastIn, Bucket, BlockOk;
      ghost var bs := WithCode(blocks, CurrentCode() + [Epilogue(count)]);
      var next, left, ok := Plant(b, ptr, avail, Epilogue(count));
      ChainsIgnoreCode(old(blocks), old(CurrentCode()) + [Epilogue(count)]);
      HeaderInPlace(bs, arena[..]);
      var h := arena[b].header.(codelen := next - (b + HEADER));
      ghost var before := arena[..];
      arena[b] := Head(h);
      HeaderAmended(bs, before, arena[..], h);
      blocks := bs;
      last := Align64(b + HEADER + (next - (b + HEADER)));
      GrownEnds(bs, arena[..], EndOf(bs[|bs| - 1]));
    }

    /** The fetch of the next word on the page. It never faults, and leaves the page table as it is. */
    method NextWord(mmu: PpcMmu, cur: Word, priv: bool, device: (Word, nat) -> nat, ghost from: nat)
      returns (fault: Option<Fault>, inst: Word)
      requires mmu.Valid() && Fetchable(mmu.devs, mmu.Now().arch, priv, cur, from) && cur % 4 == 0 && NextPc(cur) % 0x1000 != 0
      modifies mmu`mem, mmu.pi, mmu.pd, mmu.ui, mmu.ud
      ensures mmu.Valid() && mmu.Now().arch == old(mmu.Now().arch) && fault.None? && NextPc(cur) % 4 == 0
      ensures Fetchable(mmu.devs, mmu.Now().arch, priv, NextPc(cur), from + 4)
      ensures CodeWords(mmu.devs, mmu.Now().arch, mmu.data, device, priv)(NextPc(cur)) == Some(inst)
    {
      hide WellPlaced, Coherent, ScratchTranslate, LoadVia, BusRead, CodeWords, NextPc, ConfigOk, OnlyRCGrew;
      GrewSelf(mmu.mem);
      WordsOfPage(cur);
      NextFetch(mmu.devs, mmu.Now().arch, mmu.Now().arch, priv, cur, from);
      CodeWordAt(mmu.devs, mmu.Now().arch, mmu.data, device, priv, NextPc(cur), from + 4);
      var val;
      fault, val := mmu.LoadInst32(NextPc(cur), priv, device);
      inst := val % WORD_LIMIT;
    }

    /** One more call behind those `done`. At the start of the arena there is room for as many as a block may have. */
    method PlantCall(b: nat, ptr: nat, avail: nat, e: Emission, ghost bs: seq<Block>, ghost done: seq<Emission>)
      returns (next: nat, left: nat, ok: bool)
      requires Generating(b, ptr, avail) && bs != [] && blocks == WithCode(bs, [Prologue] + done)
      modifies this`blocks, arena
      ensures ok ==> Generating(b, next, left) && blocks == WithCode(bs, [Prologue] + (done + [e]))
      ensures Consistent() && (b == 0 && |done| < MAX_INSTRS ==> ok)
    {
      hide AllBytes, Bytes, Consistent, BlocksOk;
      CodeBound(done);
      next, left, ok := Plant(b, ptr, avail, e);
      assert [Prologue] + done + [e] == [Prologue] + (done + [e]);
    }

    lemma JustStarted(b: nat, ptr: nat, avail: nat)
      requires Generating(b, ptr, avail) && CurrentCode() == [Prologue]
      ensures Consistent() && blocks != [] && blocks == WithCode(blocks, [Prologue] + []) && MAX_INSTRS > 0
    {
      hide Consistent, AllBytes;
      assert [Prologue] + [] == [Prologue];
    }

    /** One round of the loop: the call for the instruction at `cur`, and the fetch of the next word if the block goes on. */
    method OneInstruction(b: nat, ptr: nat, avail: nat, cur: Word, d: Decoded, mmu: PpcMmu, priv: bool, device: (Word, nat) -> nat,
                          ghost from: nat, ghost bs: seq<Block>, ghost done: seq<Emission>)
      returns (next: nat, left: nat, oom: bool, more: bool, word: Word)
      requires Generating(b, ptr, avail) && bs != [] && blocks == WithCode(bs, [Prologue] + done)
      requires mmu.Valid() && Fetchable(mmu.devs, mmu.Now().arch, priv, cur, from) && cur % 4 == 0
      modifies this`blocks, arena, mmu`mem, mmu.pi, mmu.pd, mmu.ui, mmu.ud
      ensures mmu.Valid() && mmu.Now().arch == old(mmu.Now().arch)
      ensures Consistent() && (b == 0 && |done| < MAX_INSTRS ==> !oom)
      ensures !oom ==>
        && Generating(b, next, left) && blocks == WithCode(bs, [Prologue] + (done + [d.call]))
        && (more <==> !d.ends && NextPc(cur) % 0x1000 != 0)
      ensures !oom && more ==>
        && Fetchable(mmu.devs, mmu.Now().arch, priv, NextPc(cur), from + 4) && NextPc(cur) % 4 == 0
        && CodeWords(mmu.devs, mmu.Now().arch, mmu.data, device, priv)(NextPc(cur)) == Some(word)
    {
      hide *;
      var ok;
      next, left, ok := PlantCall(b, ptr, avail, d.call, bs, done);
      oom, more, word := !ok, false, 0;
      if ok && !d.ends && NextPc(cur) % 0x1000 != 0 {
        var fault;
        fault, word := NextWord(mmu, cur, priv, device, from);
        more := fault.None?;
      }
    }

    /** The do-while loop of createBlock, with `first` the word at `pc`, which the MMU has fetched from `host`: plants the calls
        the specification asks for, fetching the words one by one, unless space runs out, which a block at the start of the
        arena cannot meet. */
    method PlantCalls(b: nat, ptr: nat, avail: nat, pc: Word, first: Word, mmu: PpcMmu, priv: bool, device: (Word, nat) -> nat,
                      decode: Word -> Decoded, ghost host: nat)
      returns (next: nat, left: nat, count: nat, oom: bool)
      requires Generating(b, ptr, avail) && CurrentCode() == [Prologue]
      requires mmu.Valid() && Fetchable(mmu.devs, mmu.Now().arch, priv, pc, host) && pc % 4 == 0
      requires CodeWords(mmu.devs, mmu.Now().arch, mmu.data, device, priv)(pc) == Some(first)
      modifies this`blocks, arena, mmu`mem, mmu.pi, mmu.pd, mmu.ui, mmu.ud
      ensures mmu.Valid() && mmu.Now().arch == old(mmu.Now().arch)
      ensures var calls := Calls(old(CodeWords(mmu.devs, mmu.Now().arch, mmu.data, device, priv)), decode, pc, MAX_INSTRS);
        !oom ==> Generating(b, next, left) && count == |calls| && blocks == WithCode(old(blocks), [Prologue] + calls)
      ensures Consistent() && (b == 0 ==> !oom)
    {
      hide *;
      JustStarted(b, ptr, avail);
      ghost var arch, fetch, bs := mmu.Now().arch, CodeWords(mmu.devs, mmu.Now().arch, mmu.data, device, priv), blocks;
      next, left, count, oom := ptr, avail, 0, false;
      var cur, inst, more := pc, first, true;
      ghost var from := host;
      ghost var done: seq<Emission> := [];
      while more && count < MAX_INSTRS
        invariant Generating(b, next, left) && Consistent() && !oom && count == |done| <= MAX_INSTRS
        invariant mmu.Valid() && mmu.Now().arch == arch && blocks == WithCode(bs, [Prologue] + done)
        invariant more ==> fetch(cur) == Some(inst) && cur % 4 == 0 && Fetchable(mmu.devs, arch, priv, cur, from)
        invariant Calls(fetch, decode, pc, MAX_INSTRS)
          == if more && count < MAX_INSTRS then done + Calls(fetch, decode, cur, MAX_INSTRS - count) else done
        decreases MAX_INSTRS - count
      {
        var d := decode(inst);
        CallsStep(fetch, decode, cur, MAX_INSTRS - count, done);
        next, left, oom, more, inst := OneInstruction(b, next, left, cur, d, mmu, priv, device, from, bs, done);
        count := count + 1;
        if oom {
          return;
        }
        cur, from, done := NextPc(cur), from + 4, done + [d.call];
      }
    }

    /** What createBlock does first: fetches the word at `pc`, and then asks where `pc` is. */
    method FirstWord(mmu: PpcMmu, pc: Word, priv: bool, device: (Word, nat) -> nat) returns (out: Outcome, inst: Word)
      requires mmu.Valid()
      modifies mmu`mem, mmu.pi, mmu.pd, mmu.ui, mmu.ud
      ensures mmu.Valid() && (out.Translated? || out.Faulted?)
      ensures ScratchTranslate(mmu.devs, old(mmu.Now().arch), FetchAccess(pc, priv)) == (mmu.Now().arch, out)
      ensures out.Translated? ==>
        && Fetchable(mmu.devs, mmu.Now().arch, priv, pc, out.host)
        && CodeWords(mmu.devs, mmu.Now().arch, mmu.data, device, priv)(pc) == Some(inst)
    {
      assert ConfigOk(mmu.Now().arch.cfg);
      hide WellPlaced, Coherent, LoadVia, BusRead, CodeWords, ConfigOk, OnlyRCGrew, Walk, HostOf, CachedTranslate;
      FetchSettles(mmu.devs, mmu.Now().arch, priv, pc);
      var fault, val := mmu.LoadInst32(pc, priv, device);
      inst := val % WORD_LIMIT;
      if fault.Some? {
        return Faulted(fault.value), inst;
      }
      out := Translated(0);
      var walks;
      out, walks := mmu.TranslateAddr(FetchAccess(pc, priv));
      CodeWordAt(mmu.devs, mmu.Now().arch, mmu.data, device, priv, pc, out.host);
    }

    /** The header and startBlock. There is always room for the prologue. */
    method StartBlock(pc: Word, key: Key) returns (b: nat, ptr: nat, avail: nat, ghost kept: seq<Block>)
      requires Valid() && Fresh(key)
      modifies this, arena, buckets
      ensures Generating(b, ptr, avail) && blocks == kept + [Block(b, key, pc, [Prologue])]
      ensures if old(last) > CODE_SIZE - FUMES then kept == [] && b == 0 else kept == old(blocks) && b == old(last)
    {
      hide AllBytes, Bytes, BlocksOk, PointerOk, LastIn, Bucket;
      EmptyCode();
      b, avail := AllocBlock(pc, key);
      kept := blocks[..|blocks| - 1];
      assert blocks == kept + [Block(b, key, pc, [])];
      var ok;
      ptr, avail, ok := Plant(b, b + HEADER, avail, Prologue);
      assert [] + [Prologue] == [Prologue];
    }

    /** One attempt: allocate, generate and finish, or reset the arena when space runs out. An attempt that starts
        with an empty arena succeeds. */
    method TryBlock(pc: Word, key: Key, first: Word, mmu: PpcMmu, priv: bool, device: (Word, nat) -> nat,
                    decode: Word -> Decoded, ghost host: nat)
      returns (r: Option<nat>, ghost kept: seq<Block>)
      requires Valid() && Fresh(key)
      requires mmu.Valid() && Fetchable(mmu.devs, mmu.Now().arch, priv, pc, host) && pc % 4 == 0
      requires CodeWords(mmu.devs, mmu.Now().arch, mmu.data, device, priv)(pc) == Some(first)
      modifies this, arena, buckets, mmu`mem, mmu.pi, mmu.pd, mmu.ui, mmu.ud
      ensures Valid() && mmu.Valid() && mmu.Now().arch == old(mmu.Now().arch)
      ensures r.None? ==> blocks == [] && last == 0 && old(last) > 0
      ensures r.Some? ==>
        var calls := Calls(old(CodeWords(mmu.devs, mmu.Now().arch, mmu.data, device, priv)), decode, pc, MAX_INSTRS);
        && (kept == old(blocks) || kept == [])
        && blocks == kept + [Block(r.value, key, pc, [Prologue] + calls + [Epilogue(|calls|)])]
    {
      hide AllBytes, Bytes, Calls, BlocksOk, PointerOk, LastIn, Bucket, Fetchable, CodeWords, PpcMmu.Valid,
           ScratchTranslate, LoadVia;
      var b, ptr, avail;
      b, ptr, avail, kept := StartBlock(pc, key);
      var count, oom;
      ptr, avail, count, oom := PlantCalls(b, ptr, avail, pc, first, mmu, priv, device, decode, host);
      if oom {
        Reset();
        r := None;
      } else {
        Finish(b, ptr, avail, count);
        r := Some(b);
      }
    }

    /** While the MMU's generation count is zero, the value that the store's own count never leaves, every block is mapped
        where it was made for. */
    ghost predicate Tracks(mmu: PpcMmu)
      reads this, mmu, mmu.ibat, mmu.dbat, mmu.segreg
    {
      mmu.generationCount == 0 ==> Mapped(blocks, mmu.devs, Arch(mmu.Cfg(), mmu.enabledI, mmu.enabledD, mmu.mem))
    }

    lemma NoneMapped(mmu: PpcMmu)
      requires blocks == []
      ensures Tracks(mmu)
    {
    }

    /** A new block is mapped where it was just fetched from. */
    lemma MappedWith(mmu: PpcMmu, bs: seq<Block>, kept: seq<Block>, b: Block)
      requires (kept == bs || kept == []) && blocks == kept + [b]
      requires mmu.generationCount == 0 ==> Mapped(bs, mmu.devs, mmu.Now().arch)
      requires mmu.Valid() && mmu.enabledI == IR(b.key.1)
      requires exists host :: Fetchable(mmu.devs, mmu.Now().arch, !PR(b.key.1), b.pc, host) && KeyFor(host, b.key.1) == b.key
      ensures Tracks(mmu)
    {
      hide WellPlaced, Coherent, ScratchTranslate, IR, PR, ConfigOk;
      assert MapsTo(mmu.devs, mmu.Now().arch, b);
    }

    /** createBlock, for a PC and MSR that no block is known for. The block holds the calls that the words in memory ask for; if
        space ran out the arena was reset and generation began again, which happens at most once. There is no block exactly
        when the PC cannot be fetched. Blocks stay mapped, the new one included. */
    method CreateBlock(mmu: PpcMmu, pc: Word, msr: Word, device: (Word, nat) -> nat, decode: Word -> Decoded)
      returns (r: Option<nat>, retries: nat, ghost kept: seq<Block>, ghost host: nat)
      requires Valid() && mmu.Valid() && Tracks(mmu) && pc % 4 == 0 && mmu.enabledI == IR(msr)
      requires var out := ScratchTranslate(mmu.devs, mmu.Now().arch, FetchAccess(pc, !PR(msr))).1;
        out.Translated? ==> Fresh(KeyFor(out.host, msr))
      modifies this, arena, buckets, mmu`mem, mmu.pi, mmu.pd, mmu.ui, mmu.ud
      ensures Valid() && mmu.Valid() && Tracks(mmu) && retries <= 1
      ensures var (a, out) := ScratchTranslate(mmu.devs, old(mmu.Now().arch), FetchAccess(pc, !PR(msr)));
        && mmu.Now().arch == a
        && (r.None? <==> out.Faulted?) && (r.None? ==> blocks == old(blocks))
        && (r.Some? ==> out == Translated(host) && Fetchable(mmu.devs, mmu.Now().arch, !PR(msr), pc, host))
      ensures r.Some? ==>
        var calls := Calls(CodeWords(mmu.devs, mmu.Now().arch, mmu.data, device, !PR(msr)), decode, pc, MAX_INSTRS);
        && (kept == old(blocks) || kept == [])
        && blocks == kept + [Block(r.value, KeyFor(host, msr), pc, [Prologue] + calls + [Epilogue(|calls|)])]
    {
      hide Calls, Consistent, PointerOk, WellPlaced, Coherent, CodeWords, ScratchTranslate, Mapped, OnlyRCGrew, IR, PR,
           ConfigOk, AllBytes, BlocksOk;
      ghost var start := mmu.Now().arch;
      Configured(mmu);
      r, retries, kept, host := None, 0, [], 0;
      while r.None?
        invariant Valid() && mmu.Valid() && Tracks(mmu) && retries <= 1
        invariant r.None? && retries == 0 ==> mmu.Now().arch == start
        invariant retries == 1 || r.Some? ==>
          && ScratchTranslate(mmu.devs, start, FetchAccess(pc, !PR(msr))) == (mmu.Now().arch, Translated(host))
          && Fetchable(mmu.devs, mmu.Now().arch, !PR(msr), pc, host)
        invariant r.None? && retries == 0 ==> blocks == old(blocks)
        invariant r.None? && retries == 1 ==> blocks == [] && last == 0
        invariant r.Some? ==>
          var calls := Calls(CodeWords(mmu.devs, mmu.Now().arch, mmu.data, device, !PR(msr)), decode, pc, MAX_INSTRS);
          && (kept == old(blocks) || kept == [])
          && blocks == kept + [Block(r.value, KeyFor(host, msr), pc, [Prologue] + calls + [Epilogue(|calls|)])]
        decreases r.None?, 1 - retries
      {
        ghost var bs, before := blocks, mmu.Now().arch;
        Configured(mmu);
        FetchSettles(mmu.devs, before, !PR(msr), pc);
        var out, first := FirstWord(mmu, pc, !PR(msr), device);
        StillMapped(mmu, before, bs);
        if out.Faulted? {
          return;
        }
        host := out.host;
        r, kept := TryBlock(pc, KeyFor(out.host, msr), first, mmu, !PR(msr), device, decode, host);
        if r.None? {
          NoneMapped(mmu);
          retries := retries + 1;
        } else {
          MappedWith(mmu, bs, kept, blocks[|blocks| - 1]);
        }
      }
    }

    lemma Configured(mmu: PpcMmu)
      requires mmu.Valid()
      ensures ConfigOk(mmu.Now().arch.cfg)
    {
    }

    // -------------------------------------------------------------- Lookup

    /** bs_hm_lookup: the block with this key if there is one, and nothing only if there is none. */
    method Lookup(key: Key) returns (r: Option<nat>)
      requires Valid()
      modifies this`lastBlock
      ensures Valid() && blocks == old(blocks)
      ensures r.Some? ==> IsBlock(blocks, key, r.value) && lastBlock == r
      ensures r.None? ==> Fresh(key) && lastBlock == old(lastBlock)
    {
      hide AllBytes, Bucket, BlocksOk;
      var k := Bucket(key);
      r := buckets[k];
      ghost var n := |blocks|;
      while r.Some?
        invariant Valid() && blocks == old(blocks) && lastBlock == old(lastBlock)
        invariant 0 <= n <= |blocks| && r == LastIn(blocks, n, k)
        invariant forall j :: n <= j < |blocks| ==> blocks[j].key != key
        decreases n
      {
        ghost var i := ChainLink(blocks, arena[..], n, k);
        var h := arena[r.value].header;
        if (h.pcPa, h.msr) == key {
          assert IsBlock(blocks, key, r.value);
          lastBlock := r;
          return;
        }
        r, n := h.next, i;
      }
      ChainEnds(blocks, n, k);
    }

    /** The one-entry shortcut, taken only while the MMU's configuration has never changed. The dummy block never matches the
        PC of an instruction. */
    method Shortcut(mmu: PpcMmu, pc: Word, msr: Word) returns (r: Found)
      requires Valid() && mmu.Valid() && Tracks(mmu) && mmu.enabledI == IR(msr) && pc % 4 == 0
      ensures !r.NoFetch? && (r.AtBlock? ==> exists host ::
        Fetchable(mmu.devs, mmu.Now().arch, !PR(msr), pc, host) && IsBlock(blocks, KeyFor(host, msr), r.start))
    {
      hide AllBytes, Bucket, LastIn, WellPlaced, Coherent, ScratchTranslate, IR, PR, ConfigOk, OnlyRCGrew;
      r := Missing;
      if mmu.generationCount == 0 {
        if lastBlock.None? {
          if dummy.pc == pc && dummy.msr == msr {
            assert false;
          }
        } else {
          ghost var i :| 0 <= i < |blocks| && blocks[i].start == lastBlock.value;
          assert BlockOk(blocks, i, arena[..]);
          if arena[lastBlock.value].header.pc == pc && arena[lastBlock.value].header.msr == msr {
            assert MapsTo(mmu.devs, mmu.Now().arch, blocks[i]);
            ghost var host := ScratchTranslate(mmu.devs, mmu.Now().arch, FetchAccess(pc, !PR(msr))).1.host;
            assert Fetchable(mmu.devs, mmu.Now().arch, !PR(msr), pc, host);
            return AtBlock(lastBlock.value);
          }
        }
      }
    }

    /** findBlock_slow. */
    method FindBlockSlow(mmu: PpcMmu, pc: Word, msr: Word) returns (r: Found)
      requires Valid() && mmu.Valid() && Tracks(mmu)
      modifies this`lastBlock, mmu`mem, mmu.pi, mmu.pd, mmu.ui, mmu.ud
      ensures Valid() && mmu.Valid() && Tracks(mmu) && blocks == old(blocks)
      ensures var (a, out) := ScratchTranslate(mmu.devs, old(mmu.Now().arch), FetchAccess(pc, !PR(msr)));
        && mmu.Now().arch == a
        && (out.Faulted? <==> r.NoFetch?) && (out.Faulted? ==> r.fault == out.fault)
        && (r.AtBlock? ==> IsBlock(blocks, KeyFor(out.host, msr), r.start))
        && (r.Missing? ==> Fresh(KeyFor(out.host, msr)))
    {
      ghost var start := mmu.Now().arch;
      Configured(mmu);
      hide Valid, WellPlaced, Coherent, ScratchTranslate, PR, ConfigOk, OnlyRCGrew, Mapped, Consistent, CachedTranslate;
      FetchSettles(mmu.devs, start, !PR(msr), pc);
      var out, _ := mmu.TranslateAddr(FetchAccess(pc, !PR(msr)));
      StillMapped(mmu, start, blocks);
      if out.Faulted? {
        return NoFetch(out.fault);
      }
      var b := Lookup(KeyFor(out.host, msr));
      r := if b.Some? then AtBlock(b.value) else Missing;
    }

    /** findBlock. The PC is aligned, and the MSR has not changed behind the MMU's back. The answer is the one that translating
        the PC and looking up would give, with the page table as that leaves it: the shortcut, always tried first, is right. */
    method FindBlock(mmu: PpcMmu, pc: Word, msr: Word) returns (r: Found)
      requires Valid() && mmu.Valid() && Tracks(mmu) && mmu.enabledI == IR(msr) && pc % 4 == 0
      modifies this`lastBlock, mmu`mem, mmu.pi, mmu.pd, mmu.ui, mmu.ud
      ensures Valid() && mmu.Valid() && Tracks(mmu) && blocks == old(blocks)
      ensures var (a, out) := ScratchTranslate(mmu.devs, old(mmu.Now().arch), FetchAccess(pc, !PR(msr)));
        && mmu.Now().arch == a
        && (out.Faulted? <==> r.NoFetch?) && (out.Faulted? ==> r.fault == out.fault)
        && (r.AtBlock? ==> IsBlock(blocks, KeyFor(out.host, msr), r.start))
        && (r.Missing? ==> Fresh(KeyFor(out.host, msr)))
    {
      hide Valid, WellPlaced, Coherent, ScratchTranslate, IR, PR, ConfigOk, Mapped, Consistent;
      r := Shortcut(mmu, pc, msr);
      if r.Missing? {
        r := FindBlockSlow(mmu, pc, msr);
      }
    }

    /** A fetch leaves blocks mapped. */
    lemma StillMapped(mmu: PpcMmu, before: Arch, bs: seq<Block>)
      requires mmu.Valid() && SameCodeMap(before, mmu.Now().arch) && blocks == bs
      requires mmu.generationCount == 0 ==> Mapped(bs, mmu.devs, before)
      ensures Tracks(mmu)
    {
      hide WellPlaced, Coherent, OnlyRCGrew, Mapped;
      if mmu.generationCount == 0 {
        MappedKept(bs, mmu.devs, before, mmu.Now().arch);
      }
    }
  }

  ghost predicate IsBlock(bs: seq<Block>, key: Key, start: nat) {
    exists i :: 0 <= i < |bs| && bs[i].key == key && bs[i].start == start
  }

  /** A key names at most one block. */
  lemma KeysAreUnique(bs: seq<Block>, arena: seq<Cell>, key: Key, start: nat, start': nat)
    requires BlocksOk(bs, arena) && IsBlock(bs, key, start) && IsBlock(bs, key, start')
    ensures start == start'
  {
    var i :| 0 <= i < |bs| && bs[i].key == key && bs[i].start == start;
    var j :| 0 <= j < |bs| && bs[j].key == key && bs[j].start == start';
    assert i < j ==> Apart(bs[i], bs[j]);
    assert j < i ==> Apart(bs[j], bs[i]);
  }

  lemma {:induction false} ChainEnds(bs: seq<Block>, n: nat, k: nat)
    requires n <= |bs| && LastIn(bs, n, k).None?
    ensures forall j :: 0 <= j < n ==> Bucket(bs[j].key) != k
  {
    hide Bucket;
    if n > 0 {
      ChainEnds(bs, n - 1, k);
    }
  }

  /** A link of a chain is the header of a block of that bucket, later blocks of the bucket have been passed, and its
      own link goes strictly back: chains end. */
  lemma {:induction false} ChainLink(bs: seq<Block>, arena: seq<Cell>, n: nat, k: nat) returns (i: nat)
    requires BlocksOk(bs, arena) && n <= |bs| && LastIn(bs, n, k).Some?
    ensures i < n && LastIn(bs, n, k) == Some(bs[i].start) && bs[i].start < |arena| && Bucket(bs[i].key) == k
    ensures forall j :: i < j < n ==> Bucket(bs[j].key) != k
    ensures var c := arena[bs[i].start];
      c.Head? && c.header.next == LastIn(bs, i, k) && (c.header.pcPa, c.header.msr) == bs[i].key
  {
    hide AllBytes, Bucket;
    if Bucket(bs[n - 1].key) == k {
      i := n - 1;
      assert BlockOk(bs, i, arena);
    } else {
      i := ChainLink(bs, arena, n - 1, k);
    }
  }

  /** One turn of the generation loop: what is still to come, behind what is done. */
  lemma CallsStep(fetch: Word -> Option<Word>, decode: Word -> Decoded, pc: Word, limit: nat, done: seq<Emission>)
    requires limit > 0 && fetch(pc).Some?
    ensures var d := decode(fetch(pc).value);
      done + Calls(fetch, decode, pc, limit)
      == if d.ends || NextPc(pc) % 0x1000 == 0 || limit == 1 || fetch(NextPc(pc)).None? then done + [d.call]
         else done + [d.call] + Calls(fetch, decode, NextPc(pc), limit - 1)
  {
    hide NextPc;
  }

  lemma EmptyCode()
    ensures AllBytes([]) == []
  {
  }

  lemma HeaderInPlace(bs: seq<Block>, arena: seq<Cell>)
    requires bs != [] && BlocksOk(bs, arena)
    ensures bs[|bs| - 1].start < |arena| && arena[bs[|bs| - 1].start].Head?
  {
    assert BlockOk(bs, |bs| - 1, arena);
  }

  /** The word after an aligned one is on the same page or begins the next. */
  lemma WordsOfPage(pc: Word)
    requires pc % 4 == 0
    ensures NextPc(pc) % 4 == 0 && (pc % 0x1000 + 4 < 0x1000 || NextPc(pc) % 0x1000 == 0)
  {
    var q, r, k := pc / 0x1000, pc % 0x1000, pc / 4;
    assert r == 4 * (k - 0x400 * q);
    assert NextPc(pc) == if k == 0x3fff_ffff then 0 else 4 * (k + 1);
    if k - 0x400 * q == 0x3ff {
      PageMultiple(q + 1);
    }
  }

  lemma PageMultiple(q: nat)
    ensures 0x1000 * q % 0x1000 == 0
  {
  }

  /** How much code `n` instructions can take, with the prologue. */
  lemma {:induction false} CodeBound(calls: seq<Emission>)
    ensures |AllBytes([Prologue] + calls)| <= 51 * (|calls| + 1)
  {
    AllBytesBound([Prologue] + calls);
  }

  lemma GrownEnds(bs: seq<Block>, arena: seq<Cell>, ptr: nat)
    requires BlocksOk(bs, arena) && bs != [] && ptr == EndOf(bs[|bs| - 1])
    ensures AllEndBy(bs, ptr)
  {
    hide AllBytes, BlockOk;
    forall i | 0 <= i < |bs| ensures EndOf(bs[i]) <= ptr {
      assert i < |bs| - 1 ==> Apart(bs[i], bs[|bs| - 1]);
    }
  }
}