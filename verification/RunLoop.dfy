/** The JIT's main loop as the simulator runs it, on the MMU with its uTLBs, the code arena and the interpreter's instruction
    functions (runloop.cc). Generated code is run from the arena, emission by emission. */
module RunLoop {
  import opened Words
  import opened MmuTypes
  import opened PageWalk
  import opened WalkSpec
  import opened BusMap
  import opened DirectTlb
  import opened DataPath
  import opened CpuTypes
  import opened CodeFetch
  import opened Interp
  import opened CpuRuns
  import opened Mmu
  import opened CpuState
  import opened Interpreter
  import opened BlockStore
  import opened JitBlock
  import opened JitRuns

  // ---------------------------------------------------------------- What is in the arena

  /** Every instruction is planted as a call, and calling it runs that instruction. */
  ghost predicate PlanOk(plan: Inst -> Emission, meaning: Emission -> Inst) {
    forall i {:trigger plan(i)} :: plan(i).Call? && meaning(plan(i)) == i
  }

  /** The instructions of a finished block: what lies between its prologue and its epilogue. */
  function CodeOf(b: Block, meaning: Emission -> Inst): seq<Inst>
    requires |b.code| >= 2
  {
    Meanings(b.code[1..|b.code| - 1], meaning)
  }

  /** A finished block: calls between a prologue and an epilogue that holds their number. */
  ghost predicate BlockGood(b: Block, meaning: Emission -> Inst) {
    && |b.code| >= 3 && b.code[0] == Prologue && b.code[|b.code| - 1] == Epilogue(|b.code| - 2)
    && (forall k :: 1 <= k < |b.code| - 1 ==> b.code[k].Call?)
    && CodeOk(CodeOf(b, meaning))
  }

  /** The block is the one that the words in memory made up in the state of its origin, from its PC on, and has the key of that
      state. */
  ghost predicate MadeFrom(env: Env, decode: Word -> Inst, meaning: Emission -> Inst, b: Block, o: Origin) {
    && |b.code| >= 2 && b.pc == o.made.cpu.pc && b.key == KeyFor(o.host, o.made.cpu.msr)
    && BlockFrom(env, o.made, decode, CodeOf(b, meaning), o.made.cpu.pc, o.host, 1000)
  }

  /** All blocks are finished, and `made` says where each of them comes from. */
  ghost predicate Stocked(env: Env, decode: Word -> Inst, meaning: Emission -> Inst, bs: seq<Block>, made: seq<Origin>) {
    |made| == |bs| && forall i :: 0 <= i < |bs| ==> BlockGood(bs[i], meaning) && MadeFrom(env, decode, meaning, bs[i], made[i])
  }

  ghost predicate OnlyNew(was: seq<Origin>, now: seq<Origin>, o: Origin) { forall x :: x in now ==> x in was || x == o }

  /** Where an emission of a block starts. */
  lemma {:induction false} EmissionAt(es: seq<Emission>, k: nat)
    requires k < |es|
    ensures |AllBytes(es[..k])| + Length(es[k]) == |AllBytes(es[..k + 1])| <= |AllBytes(es)|
    ensures |AllBytes(es[..k])| < |AllBytes(es)| && AllBytes(es)[|AllBytes(es[..k])|] == First(es[k])
  {
    hide Length;
    var n := |es| - 1;
    if k == n {
      assert es[..k + 1] == es;
    } else {
      assert es[..n][..k] == es[..k] && es[..n][..k + 1] == es[..k + 1];
      EmissionAt(es[..n], k);
    }
  }

  lemma CellIs(bs: seq<Block>, i: nat, arena: seq<Cell>, k: nat)
    requires i < |bs| && BlockOk(bs, i, arena) && k < |bs[i].code|
    ensures var ptr := bs[i].start + HEADER + |AllBytes(bs[i].code[..k])|;
      && ptr < |arena| && arena[ptr] == First(bs[i].code[k])
      && ptr + Length(bs[i].code[k]) == bs[i].start + HEADER + |AllBytes(bs[i].code[..k + 1])|
  {
    hide AllBytes, Length, LastIn, Bucket;
    var b := bs[i];
    EmissionAt(b.code, k);
    assert arena[b.start + HEADER..EndOf(b)][|AllBytes(b.code[..k])|] == arena[b.start + HEADER + |AllBytes(b.code[..k])|];
  }

  /** A block as createBlock makes it, from the words in memory. */
  lemma {:induction false} NewBlockGood(env: Env, g: Machine, decode: Word -> Inst, plan: Inst -> Emission,
                                        meaning: Emission -> Inst, host: nat, start: nat)
    requires WellPlaced(env.devs) && DecodeOk(decode) && PlanOk(plan, meaning)
    requires g.cpu.pc % 4 == 0 && FetchesFrom(env, g, g.cpu.pc, host)
    ensures var calls := Calls(FetchFn(env, g), DecodeFn(decode, plan), g.cpu.pc, MAX_INSTRS);
      var b := Block(start, KeyFor(host, g.cpu.msr), g.cpu.pc, [Prologue] + calls + [Epilogue(|calls|)]);
      BlockGood(b, meaning) && MadeFrom(env, decode, meaning, b, Origin(g, host))
  {
    hide WellPlaced, FetchesFrom, FetchFn, Calls, InstAt, BlockFrom, DecodeFn, CodeOk, BlockSize, DecodeOk;
    var va := g.cpu.pc;
    GeneratedCalls(env, g, decode, plan, va, host, MAX_INSTRS);
    GeneratedFrom(env, g, decode, plan, meaning, va, host, MAX_INSTRS);
    var calls := Calls(FetchFn(env, g), DecodeFn(decode, plan), va, MAX_INSTRS);
    var b := Block(start, KeyFor(host, g.cpu.msr), va, [Prologue] + calls + [Epilogue(|calls|)]);
    assert b.code[1..|b.code| - 1] == calls;
    BlockFits(env, g, decode, CodeOf(b, meaning), va, host, MAX_INSTRS, va);
    assert |calls| > 0;
    forall k | 1 <= k < |b.code| - 1 ensures b.code[k].Call? {
      assert b.code[k] == calls[k - 1] == plan(InstAt(env, g, decode, host, k - 1));
    }
  }

  lemma FetchOffset(env: Env, g: Machine, va: Word, host: nat)
    requires WellPlaced(env.devs) && FetchesFrom(env, g, va, host)
    ensures host % 0x1000 == va % 0x1000
  {
    hide Fetchable, WellPlaced;
    var _ := FetchesByPage(env.devs, g.arch, Privileged(g), va, host);
  }

  lemma KeyOffset(host: nat)
    ensures host % WORD_LIMIT % 0x1000 == host % 0x1000
  {
    var q := host / WORD_LIMIT;
    assert host == 0x1000 * (0x10_0000 * q) + host % WORD_LIMIT;
  }

  /** A block found for a PC fits that PC, wherever it was made. */
  lemma FoundFits(env: Env, m: Machine, decode: Word -> Inst, meaning: Emission -> Inst, b: Block, o: Origin, host: nat)
    requires WellPlaced(env.devs) && DecodeOk(decode) && MadeFrom(env, decode, meaning, b, o)
    requires FetchesFrom(env, m, m.cpu.pc, host) && m.cpu.pc % 4 == 0 && b.key == KeyFor(host, m.cpu.msr)
    ensures CodeOk(CodeOf(b, meaning)) && CodeOf(b, meaning) != [] && BlockShape(CodeOf(b, meaning), m.cpu.pc)
  {
    hide WellPlaced, FetchesFrom, BlockFrom, CodeOk, BlockShape, DecodeOk;
    OriginFetches(env, decode, CodeOf(b, meaning), o);
    FetchOffset(env, o.made, o.made.cpu.pc, o.host);
    FetchOffset(env, m, m.cpu.pc, host);
    KeyOffset(o.host);
    KeyOffset(host);
    BlockFits(env, o.made, decode, CodeOf(b, meaning), o.made.cpu.pc, o.host, 1000, m.cpu.pc);
  }

  lemma OriginFetches(env: Env, decode: Word -> Inst, code: seq<Inst>, o: Origin)
    requires BlockFrom(env, o.made, decode, code, o.made.cpu.pc, o.host, 1000)
    ensures FetchesFrom(env, o.made, o.made.cpu.pc, o.host)
  {
    hide FetchesFrom, BlockSize;
  }

  /** The same for the record of a round. */
  lemma RecordSourced(env: Env, rec: Record, decode: Word -> Inst, meaning: Emission -> Inst, b: Block)
    requires ConfigOk(rec.before.arch.cfg) && MadeFrom(env, decode, meaning, b, rec.origin)
    requires rec.code == CodeOf(b, meaning) && b.key == KeyFor(rec.host, rec.before.cpu.msr)
    ensures Sourced(env, rec, decode)
  {
    hide ConfigOk, BlockFrom, Fetch32;
  }

  lemma FetchKeepsCpu(env: Env, m: Machine)
    requires ConfigOk(m.arch.cfg)
    ensures Fetch32(env, m).0.cpu == m.cpu
  {
    hide ConfigOk, ReadHost, ScratchTranslate;
  }

  lemma FaultSourced(env: Env, rec: Record, decode: Word -> Inst)
    requires ConfigOk(rec.before.arch.cfg) && Fetch32(env, rec.before).1.LoadFault?
    ensures Sourced(env, rec, decode)
  {
    hide ConfigOk, BlockFrom, Fetch32;
  }

  lemma MakesIt(env: Env, rec: Record)
    requires ConfigOk(rec.before.arch.cfg) && rec.origin == Origin(Fetch32(env, rec.before).0, rec.host)
    ensures Makes(env, rec)
  {
    hide ConfigOk, Fetch32;
  }

  // ---------------------------------------------------------------- Where the blocks of a run come from

  ghost predicate AllKnown(env: Env, recs: seq<Record>, earlier: seq<Origin>, now: seq<Origin>) {
    forall o :: o in now ==> KnownOrigin(env, recs, earlier, o)
  }

  lemma NoRecords(env: Env, decode: Word -> Inst, made: seq<Origin>)
    ensures AllSourced(env, [], decode) && Traced(env, [], made) && AllKnown(env, [], made, made)
  {
    hide Sourced, Makes;
  }

  lemma OneMoreRecord(env: Env, recs: seq<Record>, rec: Record, decode: Word -> Inst, earlier: seq<Origin>, was: seq<Origin>,
                      now: seq<Origin>)
    requires AllSourced(env, recs, decode) && Traced(env, recs, earlier) && AllKnown(env, recs, earlier, was)
    requires ConfigOk(rec.before.arch.cfg) && Sourced(env, rec, decode) && (rec.code != [] ==> rec.origin in now)
    requires now == was || (OnlyNew(was, now, rec.origin) && Makes(env, rec))
    ensures AllSourced(env, recs + [rec], decode) && Traced(env, recs + [rec], earlier)
    ensures AllKnown(env, recs + [rec], earlier, now)
  {
    hide Sourced, Makes, KnownOrigin, Traced, ConfigOk;
    forall o | o in now ensures KnownOrigin(env, recs + [rec], earlier, o) {
      OneMoreOrigin(env, recs, rec, earlier, o);
    }
    OneMoreTraced(env, recs, rec, earlier);
  }

  // ---------------------------------------------------------------- The memory map

  /** What happened to the memory map is visible in the generation count, but for R and C bits. */
  ghost predicate CountedFrom(a: Arch, gen: nat, a': Arch, gen': nat) {
    gen <= gen' && (gen == gen' ==> a'.cfg == a.cfg && OnlyRCGrew(a.mem, a'.mem))
  }

  lemma CountedStep(env: Env, start: Arch, gen: nat, m: Machine, gen': nat, i: Inst, inst: Word)
    requires ConfigOk(m.arch.cfg) && InstOk(i) && CountedFrom(start, gen, m.arch, gen')
    ensures CountedFrom(start, gen, Exec(env, m, i, inst).m.arch, gen' + (if Reconfigures(i) then 1 else 0))
  {
    hide ConfigOk, Exec, InstOk, OnlyRCGrew;
    ExecGrows(env, m, i, inst);
    if gen == gen' {
      OnlyRCGrewTrans(start.mem, m.arch.mem, Exec(env, m, i, inst).m.arch.mem);
    }
  }

  lemma CountedSelf(a: Arch, gen: nat)
    ensures CountedFrom(a, gen, a, gen)
  {
    GrewSelf(a.mem);
    hide OnlyRCGrew;
  }

  /** The address of a block's `k`th emission. */
  function AtEmission(b: Block, k: nat): nat
    requires k <= |b.code|
  {
    b.start + HEADER + |AllBytes(b.code[..k])|
  }

  // ---------------------------------------------------------------- The loop

  class PpcJit {
    const interp: PpcInterpreter
    const store: Store
    const decode: Word -> Inst
    const plan: Inst -> Emission
    const meaning: Emission -> Inst
    ghost var made: seq<Origin>  // block by block

    /** The MMU, the interpreter and the arena are sound, every block is finished and, while the generation count is zero, still
        mapped, and the MMU's modes are those of the MSR. */
    ghost predicate Valid()
      reads this, interp, interp.cpus, interp.mmu, interp.mmu.ibat, interp.mmu.dbat, interp.mmu.segreg
      reads interp.mmu.pi, interp.mmu.pd, interp.mmu.ui, interp.mmu.ud, store, store.arena, store.buckets
    {
      && interp.Valid() && store.Valid() && store.Tracks(interp.mmu)
      && Stocked(interp.env, decode, meaning, store.blocks, made)
      && FetchConsistent(interp.View()) && DecodeOk(decode) && PlanOk(plan, meaning)
    }

    constructor (i: PpcInterpreter, s: Store, d: Word -> Inst, p: Inst -> Emission, m: Emission -> Inst)
      requires i.Valid() && s.Valid() && s.blocks == [] && FetchConsistent(i.View()) && DecodeOk(d) && PlanOk(p, m)
      ensures Valid() && interp == i && store == s && decode == d && plan == p && meaning == m && made == []
    {
      interp, store, decode, plan, meaning, made := i, s, d, p, m, [];
      new;
      hide PpcInterpreter.Valid, Store.Valid, PlanOk, FetchConsistent;
    }

    /** What is in the arena where the `k`th emission of a block begins. */
    lemma EmissionHere(i: nat, k: nat)
      requires store.Valid() && i < |store.blocks| && BlockGood(store.blocks[i], meaning) && k < |store.blocks[i].code|
      ensures var b := store.blocks[i];
        && AtEmission(b, k) < store.arena.Length && store.arena[AtEmission(b, k)] == First(b.code[k])
        && AtEmission(b, k) + Length(b.code[k]) == AtEmission(b, k + 1)
      ensures var b := store.blocks[i]; var code := CodeOf(b, meaning);
        && |code| == |b.code| - 2 && (b.code[k].Call? ==> 1 <= k <= |code| && code[k - 1] == meaning(b.code[k]))
        && (k >= 1 && !b.code[k].Call? ==> k == |code| + 1 && b.code[k] == Epilogue(|code|))
    {
      hide AllBytes, Length, LastIn, Bucket, BlockOk, CodeOk, Ends, PointerOk;
      assert BlockOk(store.blocks, i, store.arena[..]);
      CellIs(store.blocks, i, store.arena[..], k);
    }

    lemma BlockBegins(i: nat)
      requires store.Valid() && i < |store.blocks| && BlockGood(store.blocks[i], meaning)
      ensures var b := store.blocks[i];
        |b.code| >= 3 && b.code[0] == Prologue && CodeOk(CodeOf(b, meaning)) && AtEmission(b, 0) == b.start + HEADER
    {
      hide Store.Valid, CodeOk, Ends;
      assert store.blocks[i].code[..0] == [];
    }

    lemma Did0()
      requires interp.Valid()
      ensures interp.Did(Next(interp.View()), false) && ConfigOk(interp.View().arch.cfg)
    {
    }

    /** Runs a block's code from the arena. An exception jumps out; otherwise the block returns what its epilogue holds. That is
        the block's instructions, one after the other, and their number. */
    method CallBlock(start: nat, ghost i: nat) returns (raised: bool, count: nat)
      requires interp.Valid() && store.Valid()
      requires i < |store.blocks| && store.blocks[i].start == start && BlockGood(store.blocks[i], meaning)
      modifies interp, interp.cpus`regs, interp.mmu, interp.mmu.ibat, interp.mmu.dbat, interp.mmu.segreg
      modifies interp.mmu.pi, interp.mmu.pd, interp.mmu.ui, interp.mmu.ud
      ensures interp.Valid() && ConfigOk(old(interp.View()).arch.cfg) && interp.inst == old(interp.inst)
      ensures CodeOk(CodeOf(store.blocks[i], meaning))
      ensures var code := CodeOf(store.blocks[i], meaning);
        && interp.Did(RunBlock(interp.env, old(interp.View()), code, 0, old(interp.inst)), raised)
        && (!raised ==> count == |code|)
      ensures CountedFrom(old(interp.View()).arch, old(interp.mmu.generationCount), interp.View().arch, interp.mmu.generationCount)
    {
      hide *;
      Did0();
      BlockBegins(i);
      EmissionHere(i, 0);
      ghost var stale, m0, gen0, b := interp.inst, interp.View(), interp.mmu.generationCount, store.blocks[i];
      ghost var code, made, r := CodeOf(b, meaning), 0, Next(m0);
      NoCallYet(interp.env, m0, code, stale);
      CountedSelf(m0.arch, gen0);
      raised, count := false, 0;
      var ptr := start + HEADER + Length(store.arena[start + HEADER].e);
      EmissionHere(i, 1);
      while !raised && store.arena[ptr].e.Call?
        invariant interp.Valid() && interp.inst == stale && interp.Did(r, raised) && made <= |code|
        invariant BlockSoFar(interp.env, m0, code, made, stale, r) && store.Valid()
        invariant CountedFrom(m0.arch, gen0, r.m.arch, interp.mmu.generationCount)
        invariant ptr == AtEmission(b, made + 1) && (!raised ==> ptr < store.arena.Length && store.arena[ptr].First?)
        invariant made + 1 < |b.code|
        decreases |code| - made
      {
        EmissionHere(i, made + 1);
        DidView(r, raised);
        OneMoreCall(interp.env, m0, code, made, stale, r);
        ghost var next := Exec(interp.env, r.m, code[made], stale);
        CountedStep(interp.env, m0.arch, gen0, r.m, interp.mmu.generationCount, code[made], stale);
        raised := interp.Dispatch(meaning(store.arena[ptr].e));
        ptr, made, r := ptr + Length(store.arena[ptr].e), made + 1, next;
        EmissionHere(i, made + 1);
      }
      EmissionHere(i, made + 1);
      DidView(r, raised);
      WholeBlock(interp.env, m0, code, made, stale, r);
      if !raised {
        count := store.arena[ptr].e.count;
      }
    }

    lemma DidView(r: Result, raised: bool)
      requires interp.Did(r, raised)
      ensures interp.View() == r.m && raised == r.Raised?
    {
    }

    // -------------------------------------------------------------- A block for the PC

    /** Translating the PC is the first half of fetching from it. */
    lemma TranslationIsFetch(env: Env, m: Machine)
      requires ConfigOk(m.arch.cfg) && WellPlaced(env.devs)
      ensures var (a, out) := ScratchTranslate(env.devs, m.arch, FetchAccess(m.cpu.pc, Privileged(m)));
        var (m', v) := Fetch32(env, m);
        && m' == m.(arch := a) && !out.Done? && (out.Faulted? <==> v.LoadFault?) && (out.Faulted? ==> v.fault == out.fault)
        && (out.Translated? ==> FetchesFrom(env, m', m.cpu.pc, out.host))
    {
      hide ConfigOk, ScratchTranslate, ReadHost, WellPlaced, OnlyRCGrew;
      FetchSettles(env.devs, m.arch, Privileged(m), m.cpu.pc);
    }

    lemma Readings()
      requires Valid()
      ensures interp.env.devs == interp.mmu.devs && WellPlaced(interp.mmu.devs) && ConfigOk(interp.mmu.Now().arch.cfg)
      ensures interp.View().arch == interp.mmu.Now().arch && interp.View().cpu == interp.cpus.regs
      ensures interp.mmu.enabledI == IR(interp.cpus.regs.msr) && interp.cpus.regs.pc % 4 == 0
    {
      hide WellPlaced, ConfigOk, PlanOk, Stocked, IR, DR;
    }

    /** After the MMU has fetched and the store has been searched or added to. */
    lemma ValidAgain(m: Machine)
      requires interp.mmu.Valid() && interp.env.devs == interp.mmu.devs && store.Valid() && store.Tracks(interp.mmu)
      requires Stocked(interp.env, decode, meaning, store.blocks, made) && DecodeOk(decode) && PlanOk(plan, meaning)
      requires FetchConsistent(m) && interp.View() == m.(arch := interp.View().arch) && SameCodeMap(m.arch, interp.View().arch)
      requires interp.View().arch.dr == m.arch.dr
      ensures Valid()
    {
      hide PpcMmu.Valid, Store.Valid, Store.Tracks, Stocked, DecodeOk, PlanOk, ConfigOk, IR, DR, OnlyRCGrew;
    }

    lemma StockedWith(bs: seq<Block>, was: seq<Origin>, kept: seq<Block>, b: Block, o: Origin)
      requires Stocked(interp.env, decode, meaning, bs, was) && (kept == bs || kept == [])
      requires BlockGood(b, meaning) && MadeFrom(interp.env, decode, meaning, b, o)
      ensures var now := (if kept == bs then was else []) + [o];
        Stocked(interp.env, decode, meaning, kept + [b], now) && OnlyNew(was, now, o) && |now| == |kept| + 1 && now[|kept|] == o
    {
      hide BlockGood, MadeFrom;
    }

    /** What Valid says, part by part. */
    lemma Parts()
      requires Valid()
      ensures interp.mmu.Valid() && interp.Valid() && store.Valid() && store.Tracks(interp.mmu)
      ensures Stocked(interp.env, decode, meaning, store.blocks, made)
      ensures DecodeOk(decode) && PlanOk(plan, meaning) && FetchConsistent(interp.View())
    {
      hide PpcMmu.Valid, Store.Valid, Store.Tracks, Stocked, DecodeOk, PlanOk, FetchConsistent;
    }

    lemma ReadsAreWords(env: Env, m: Machine, device: (Word, nat) -> nat)
      requires device == DeviceFn(env, m.data)
      ensures CodeWords(env.devs, m.arch, m.data, device, !PR(m.cpu.msr)) == FetchFn(env, m)
    {
      hide CodeWords, DeviceFn, PR;
    }

    /** The `i`th block is at `start`, is finished, is the one that memory held where it was made, and has the key of the PC. */
    ghost predicate Runnable(i: nat, start: nat, host: nat)
      reads this, store, interp, interp.cpus
    {
      && i < |store.blocks| && i < |made| && store.blocks[i].start == start && BlockGood(store.blocks[i], meaning)
      && MadeFrom(interp.env, decode, meaning, store.blocks[i], made[i])
      && store.blocks[i].key == KeyFor(host, interp.cpus.regs.msr)
    }

    /** createBlock for a PC that has just been translated and for which there is no block: it does make one, of the words in
        memory now, and only its own fetch could have kept it from doing so. */
    method MakeBlock(ghost host: nat) returns (start: nat, ghost i: nat)
      requires Valid() && FetchesFrom(interp.env, interp.View(), interp.View().cpu.pc, host)
      requires store.Fresh(KeyFor(host, interp.cpus.regs.msr))
      modifies this`made
      modifies store, store.arena, store.buckets, interp.mmu`mem, interp.mmu.pi, interp.mmu.pd, interp.mmu.ui, interp.mmu.ud
      ensures Valid() && interp.View() == old(interp.View())
      ensures Runnable(i, start, host) && made[i] == Origin(interp.View(), host) && OnlyNew(old(made), made, made[i])
    {
      hide *;
      Parts();
      Readings();
      ViewParts();
      ghost var m, bs := interp.View(), store.blocks;
      FetchIs(m, host);
      var device := DeviceFn(interp.env, interp.mmu.data);
      var r, retries;
      ghost var kept, place;
      r, retries, kept, place := store.CreateBlock(interp.mmu, interp.cpus.regs.pc, interp.cpus.regs.msr, device,
                                                   DecodeFn(decode, plan));
      ViewParts();
      ReadsAreWords(interp.env, m, device);
      start := r.value;
      NewBlockGood(interp.env, m, decode, plan, meaning, host, start);
      i := |store.blocks| - 1;
      StockedWith(bs, made, kept, store.blocks[i], Origin(m, host));
      made := (if kept == bs then made else []) + [Origin(m, host)];
      RunnableBy(i, start, host);
      SameMap(m.arch);
      ValidAgain(m);
    }

    lemma FetchIs(m: Machine, host: nat)
      requires FetchesFrom(interp.env, m, m.cpu.pc, host)
      ensures ConfigOk(m.arch.cfg)
      ensures ScratchTranslate(interp.env.devs, m.arch, FetchAccess(m.cpu.pc, !PR(m.cpu.msr))) == (m.arch, Translated(host))
    {
      hide ScratchTranslate, ConfigOk, PR;
    }

    lemma SameMap(a: Arch)
      ensures SameCodeMap(a, a)
    {
      GrewSelf(a.mem);
      hide OnlyRCGrew;
    }

    lemma ViewParts()
      ensures interp.View()
           == Machine(interp.cpus.regs, interp.mmu.Now().arch, interp.mmu.data, interp.excGenerationCount,
                      interp.reservationAddress, interp.reservationGencount, interp.wantBreak)
    {
    }

    /** The head of the loop: a block for the PC, found or made, or the fault of its fetch. There is no need to look again after
        making one. */
    method FindOrMake() returns (f: Found, ghost i: nat, ghost host: nat)
      requires Valid()
      modifies this`made
      modifies store, store.arena, store.buckets, interp.mmu`mem, interp.mmu.pi, interp.mmu.pd, interp.mmu.ui, interp.mmu.ud
      ensures Valid() && ConfigOk(old(interp.View()).arch.cfg) && !f.Missing?
      ensures var (m, v) := Fetch32(interp.env, old(interp.View()));
        interp.View() == m && (f.NoFetch? <==> v.LoadFault?) && (f.NoFetch? ==> f.fault == v.fault)
      ensures f.AtBlock? ==>
        && Runnable(i, f.start, host)
        && FetchesFrom(interp.env, interp.View(), interp.View().cpu.pc, host)
        && CodeOk(CodeOf(store.blocks[i], meaning)) && CodeOf(store.blocks[i], meaning) != []
        && BlockShape(CodeOf(store.blocks[i], meaning), interp.View().cpu.pc)
      ensures made == old(made)
        || (f.AtBlock? && made[i] == Origin(interp.View(), host) && OnlyNew(old(made), made, made[i]))
    {
      hide *;
      Parts();
      Readings();
      ViewParts();
      ghost var m0 := interp.View();
      TranslationIsFetch(interp.env, m0);
      FetchKeepsMap(m0);
      i, host := 0, 0;
      f := store.FindBlock(interp.mmu, interp.cpus.regs.pc, interp.cpus.regs.msr);
      ViewParts();
      PrivilegeIs(m0);
      ValidAgain(m0);
      if f.NoFetch? {
        return;
      }
      host := ScratchTranslate(interp.env.devs, m0.arch, FetchAccess(m0.cpu.pc, Privileged(m0))).1.host;
      if f.Missing? {
        var start;
        start, i := MakeBlock(host);
        f := AtBlock(start);
      } else {
        i := FoundAt(KeyFor(host, m0.cpu.msr), f.start);
      }
      MadeThere(i, f.start, host);
      FoundFits(interp.env, interp.View(), decode, meaning, store.blocks[i], made[i], host);
    }

    lemma FoundAt(key: Key, start: nat) returns (i: nat)
      requires IsBlock(store.blocks, key, start) && Stocked(interp.env, decode, meaning, store.blocks, made)
      ensures forall host :: key == KeyFor(host, interp.cpus.regs.msr) ==> Runnable(i, start, host)
    {
      hide BlockGood, MadeFrom, KeyFor;
      i :| 0 <= i < |store.blocks| && store.blocks[i].key == key && store.blocks[i].start == start;
    }

    lemma RunnableBy(i: nat, start: nat, host: nat)
      requires i < |store.blocks| && i < |made| && store.blocks[i].start == start
      requires Stocked(interp.env, decode, meaning, store.blocks, made)
      requires store.blocks[i].key == KeyFor(host, interp.cpus.regs.msr)
      ensures Runnable(i, start, host)
    {
      hide BlockGood, MadeFrom, KeyFor;
    }

    lemma MadeThere(i: nat, start: nat, host: nat)
      requires Runnable(i, start, host)
      ensures i < |store.blocks| && i < |made| && store.blocks[i].start == start && BlockGood(store.blocks[i], meaning)
      ensures MadeFrom(interp.env, decode, meaning, store.blocks[i], made[i]) && |store.blocks[i].code| >= 2
      ensures store.blocks[i].key == KeyFor(host, interp.cpus.regs.msr)
    {
      hide BlockGood, BlockFrom, KeyFor;
    }

    lemma PrivilegeIs(m: Machine)
      ensures Privileged(m) == !PR(m.cpu.msr)
    {
      hide PR;
    }

    lemma FetchKeepsMap(m: Machine)
      requires ConfigOk(m.arch.cfg) && WellPlaced(interp.env.devs)
      ensures var a := ScratchTranslate(interp.env.devs, m.arch, FetchAccess(m.cpu.pc, Privileged(m))).0;
        SameCodeMap(m.arch, a) && a.dr == m.arch.dr
    {
      hide ConfigOk, WellPlaced, OnlyRCGrew, Walk, HostOf;
      FetchSettles(interp.env.devs, m.arch, Privileged(m), m.cpu.pc);
    }

    lemma CpuOnly(m: Machine, c: Cpu)
      ensures WithCpu(m, c) == m.(cpu := c)
    {
    }

    // -------------------------------------------------------------- A round

    /** After a block that did not raise: the clock, a pending interrupt or decrementer, and the instruction limit, which an
        exception that is delivered jumps over. */
    method AfterBlock(count: nat, limit: nat)
      requires interp.Valid()
      modifies interp`wantBreak, interp.cpus, interp.mmu`enabledI, interp.mmu`enabledD
      ensures interp.Valid()
      ensures var ticked := WithCpu(old(interp.View()), Tick(old(interp.View()).cpu, count));
        interp.View() == Deliver(ticked).(stop := interp.wantBreak)
      ensures interp.cpus.instCount == old(interp.cpus.instCount) + count
      ensures var c := Tick(old(interp.View()).cpu, count);
        interp.wantBreak
        <==> (old(interp.wantBreak) || (limit != 0 && interp.cpus.instCount > limit && !IrqPending(c) && !DecPending(c)))
    {
      hide *;
      ViewParts();
      CpuOnly(interp.View(), Tick(interp.View().cpu, count));
      interp.cpus.CpuTick(count);
      ViewParts();
      ghost var ticked := interp.View();
      var pending := IrqPending(interp.cpus.regs) || DecPending(interp.cpus.regs);
      interp.DeliverPending();
      ViewParts();
      if !pending && limit != 0 && interp.cpus.instCount > limit {
        interp.BreakRequest();
      }
    }

    /** Whatever ran, blocks stay mapped while the generation count stands at zero, since it stood there all along. */
    lemma TracksAfter(a: Arch, gen: nat, b: Arch)
      requires interp.Valid() && (gen == 0 ==> Mapped(store.blocks, interp.mmu.devs, a))
      requires CountedFrom(a, gen, b, interp.mmu.generationCount)
      requires interp.View().arch.cfg == b.cfg && interp.View().arch.mem == b.mem
      ensures store.Tracks(interp.mmu)
    {
      hide WellPlaced, Coherent, Mapped, OnlyRCGrew;
      if interp.mmu.generationCount == 0 {
        MappedKept(store.blocks, interp.mmu.devs, a, interp.View().arch);
      }
    }

    lemma TracksNow()
      requires store.Tracks(interp.mmu)
      ensures interp.mmu.generationCount == 0 ==> Mapped(store.blocks, interp.mmu.devs, interp.View().arch)
    {
      hide Mapped;
    }

    lemma ValidBy()
      requires interp.Valid() && store.Valid() && store.Tracks(interp.mmu)
      requires Stocked(interp.env, decode, meaning, store.blocks, made)
      requires FetchConsistent(interp.View()) && DecodeOk(decode) && PlanOk(plan, meaning)
      ensures Valid()
    {
      hide PpcInterpreter.Valid, Store.Valid, Store.Tracks, Stocked, FetchConsistent, DecodeOk, PlanOk;
    }

    /** The machine that a block leaves, and what the loop makes of it. */
    ghost function AfterCalls(r: Result, n: nat): Machine {
      if r.Raised? then r.m else Deliver(WithCpu(r.m, Tick(r.m.cpu, n)))
    }

    lemma {:induction false} CallsKeep(m: Machine, code: seq<Inst>, stale: Word)
      requires FetchConsistent(m) && CodeOk(code)
      ensures ConfigOk(m.arch.cfg)
      ensures var r := RunBlock(interp.env, m, code, 0, stale); var after := AfterCalls(r, |code|);
        && FetchConsistent(after) && FetchConsistent(after.(stop := true))
        && after.arch.cfg == r.m.arch.cfg && after.arch.mem == r.m.arch.mem
    {
      hide ConfigOk, RunBlock, CodeOk, TakeException, Tick, IR, DR, IrqPending, DecPending;
      BlockKeeps(interp.env, m, code, 0, stale);
      var r := RunBlock(interp.env, m, code, 0, stale);
      if r.Next? {
        TickKeeps(r.m, |code|);
        DeliverKeeps(WithCpu(r.m, Tick(r.m.cpu, |code|)));
      }
    }

    lemma {:induction false} ThisIsRound(m0: Machine, code: seq<Inst>, host: nat, o: Origin, stale: Word)
      requires ConfigOk(m0.arch.cfg) && Fetch32(interp.env, m0).1.LoadOk?
      requires var m := Fetch32(interp.env, m0).0;
        && FetchesFrom(interp.env, m, m.cpu.pc, host) && CodeOk(code) && code != [] && BlockShape(code, m.cpu.pc)
        && ConfigOk(m.arch.cfg)
      ensures var m := Fetch32(interp.env, m0).0;
        IsRound(interp.env, Record(m0, code, host, o, AfterCalls(RunBlock(interp.env, m, code, 0, stale), |code|)), stale)
    {
      hide ConfigOk, Fetch32, FetchesFrom, CodeOk, BlockShape, RunBlock, Deliver, Tick;
    }

    lemma AfterIs(r: Result, n: nat)
      ensures AfterCalls(r, n) == if r.Raised? then r.m else Deliver(WithCpu(r.m, Tick(r.m.cpu, n)))
    {
      hide Deliver, Tick;
    }

    /** Runs the block that was found for the machine, fetched from `m0`. */
    method RunIt(start: nat, limit: nat, ghost i: nat, ghost host: nat, ghost m0: Machine) returns (ghost rec: Record)
      requires Valid() && ConfigOk(m0.arch.cfg) && !interp.wantBreak
      requires Fetch32(interp.env, m0).1.LoadOk? && Fetch32(interp.env, m0).0 == interp.View()
      requires Runnable(i, start, host)
      requires FetchesFrom(interp.env, interp.View(), interp.View().cpu.pc, host)
      requires CodeOk(CodeOf(store.blocks[i], meaning)) && CodeOf(store.blocks[i], meaning) != []
      requires BlockShape(CodeOf(store.blocks[i], meaning), interp.View().cpu.pc)
      modifies interp, interp.cpus, interp.mmu, interp.mmu.ibat, interp.mmu.dbat, interp.mmu.segreg
      modifies interp.mmu.pi, interp.mmu.pd, interp.mmu.ui, interp.mmu.ud
      ensures Valid() && interp.inst == old(interp.inst)
      ensures rec.before == m0 && IsRound(interp.env, rec, old(interp.inst))
      ensures rec.host == host && rec.origin == made[i] && rec.origin in made && Sourced(interp.env, rec, decode)
      ensures interp.View() == rec.after.(stop := interp.wantBreak) && (rec.after.stop ==> interp.wantBreak)
      ensures interp.wantBreak ==> rec.after.stop || (limit != 0 && interp.cpus.instCount > limit)
    {
      hide *;
      Parts();
      ViewParts();
      MadeThere(i, start, host);
      FetchKeepsCpu(interp.env, m0);
      ghost var b := store.blocks[i];
      TracksNow();
      BlockBegins(i);
      ghost var stale, m, gen, code := interp.inst, interp.View(), interp.mmu.generationCount, CodeOf(store.blocks[i], meaning);
      CallsKeep(m, code, stale);
      ghost var r := RunBlock(interp.env, m, code, 0, stale);
      ThisIsRound(m0, code, host, made[i], stale);
      AfterIs(r, |code|);
      rec := Record(m0, code, host, made[i], AfterCalls(r, |code|));
      RecordSourced(interp.env, rec, decode, meaning, b);
      var raised, count := CallBlock(start, i);
      DidView(r, raised);
      ViewParts();
      if !raised {
        AfterBlock(count, limit);
        DeliverStops(r.m, count);
      }
      ViewParts();
      StopOnly(rec.after, interp.View());
      TracksAfter(m.arch, gen, r.m.arch);
      ValidBy();
    }

    lemma DeliverStops(m: Machine, n: nat)
      ensures Deliver(WithCpu(m, Tick(m.cpu, n))).stop == m.stop
    {
      hide Tick, TakeException, IrqPending, DecPending;
    }

    lemma ConfigOf(m: Machine)
      requires FetchConsistent(m)
      ensures ConfigOk(m.arch.cfg)
    {
    }

    /** The break flag has no part in what keeps the machine sound. */
    lemma StopOnly(m: Machine, m': Machine)
      requires FetchConsistent(m) && m' == m.(stop := m'.stop)
      ensures FetchConsistent(m')
    {
      hide ConfigOk, IR, DR;
    }

    /** A fetch that faulted. */
    lemma FaultRound(m0: Machine, after: Machine, stale: Word)
      requires ConfigOk(m0.arch.cfg)
      requires var (m, v) := Fetch32(interp.env, m0);
        v.LoadFault? && after == RaiseMem(m, true, true, m.cpu.pc, v.fault, 0)
      ensures IsRound(interp.env, Record(m0, [], 0, Origin(m0, 0), after), stale)
    {
      hide ConfigOk, Translate, RaiseMem;
    }

    lemma EntryKeeps(m: Machine, addr: Word, fault: Fault)
      requires FetchConsistent(m)
      ensures var e := RaiseMem(m, true, true, addr, fault, 0);
        FetchConsistent(e) && e.stop == m.stop && e.arch.cfg == m.arch.cfg && e.arch.mem == m.arch.mem
    {
      hide ConfigOk, MemFaultRegs, InHandler, IR, DR;
      HandlerConsistent(RaiseMem(m, true, true, addr, fault, 0));
    }

    /** One round of the loop, from any sound state. What was said of rounds is what happens, and the whole state stays sound, so
        there can be another. */
    method OneRound(limit: nat) returns (ghost rec: Record)
      requires Valid() && !interp.wantBreak
      modifies this`made, interp, interp.cpus, interp.mmu, interp.mmu.ibat, interp.mmu.dbat, interp.mmu.segreg
      modifies interp.mmu.pi, interp.mmu.pd, interp.mmu.ui, interp.mmu.ud, store, store.arena, store.buckets
      ensures Valid() && interp.inst == old(interp.inst)
      ensures rec.before == old(interp.View()) && IsRound(interp.env, rec, old(interp.inst))
      ensures ConfigOk(rec.before.arch.cfg) && Sourced(interp.env, rec, decode) && (rec.code != [] ==> rec.origin in made)
      ensures made == old(made) || (OnlyNew(old(made), made, rec.origin) && Makes(interp.env, rec))
      ensures interp.View() == rec.after.(stop := interp.wantBreak) && (rec.after.stop ==> interp.wantBreak)
      ensures interp.wantBreak ==> rec.after.stop || (limit != 0 && interp.cpus.instCount > limit)
    {
      hide *;
      Parts();
      ghost var m0 := interp.View();
      var f;
      ghost var i, host;
      f, i, host := FindOrMake();
      Parts();
      ViewParts();
      if f.NoFetch? {
        TracksNow();
        ghost var m, gen := interp.View(), interp.mmu.generationCount;
        interp.FetchFaultTaken(f.fault);
        rec := Record(m0, [], 0, Origin(m0, 0), interp.View());
        FaultSourced(interp.env, rec, decode);
        FaultRound(m0, interp.View(), interp.inst);
        EntryKeeps(m, m.cpu.pc, f.fault);
        CountedSelf(m.arch, gen);
        ViewParts();
        TracksAfter(m.arch, gen, m.arch);
        ValidBy();
      } else {
        rec := RunIt(f.start, limit, i, host, m0);
        if made != old(made) {
          MakesIt(interp.env, rec);
        }
      }
    }

    /** The loop from any sound state, until a break is asked for, or for `rounds` rounds. Every block that ran was, in the round
        that made it, the block of the words in memory at the PC, and has the key of the PC. And what the machine has become is
        what its rounds amount to in interpreter steps, as long as the guest left the code of each block alone since then. */
    method Loop(limit: nat, rounds: nat) returns (done: nat, ghost recs: seq<Record>)
      requires Valid()
      modifies this`made, interp, interp.cpus, interp.mmu, interp.mmu.ibat, interp.mmu.dbat, interp.mmu.segreg
      modifies interp.mmu.pi, interp.mmu.pd, interp.mmu.ui, interp.mmu.ud, store, store.arena, store.buckets
      ensures Valid() && ConfigOk(old(interp.View()).arch.cfg) && IsRun(interp.env, recs, old(interp.inst))
      ensures |recs| == done <= rounds && (done < rounds ==> interp.wantBreak)
      ensures interp.wantBreak && recs != [] ==> recs[|recs| - 1].after.stop || (limit != 0 && interp.cpus.instCount > limit)
      ensures AllSourced(interp.env, recs, decode) && Traced(interp.env, recs, old(made))
      ensures AllLeftAlone(interp.env, recs, old(interp.inst)) ==>
        interp.View() == JitRun(interp.env, old(interp.View()), decode, RoundsOf(interp.env, recs, old(interp.inst)))
                           .(stop := interp.wantBreak)
    {
      hide *;
      Parts();
      ViewParts();
      ghost var stale, m0 := interp.inst, interp.View();
      ConfigOf(m0);
      NoRounds(interp.env, m0, decode, stale);
      ghost var made0 := made;
      NoRecords(interp.env, decode, made);
      done, recs := 0, [];
      while !interp.wantBreak && done < rounds
        invariant Valid() && interp.inst == stale && |recs| == done <= rounds && IsRun(interp.env, recs, stale)
        invariant AllSourced(interp.env, recs, decode) && Traced(interp.env, recs, made0)
        invariant AllKnown(interp.env, recs, made0, made)
        invariant interp.View().stop == interp.wantBreak
        invariant recs == [] ==> interp.View() == m0
        invariant recs != [] ==>
          && recs[0].before == m0 && interp.View() == recs[|recs| - 1].after.(stop := interp.wantBreak)
          && (recs[|recs| - 1].after.stop ==> interp.wantBreak)
          && (interp.wantBreak ==> recs[|recs| - 1].after.stop || (limit != 0 && interp.cpus.instCount > limit))
      {
        ghost var was := made;
        ghost var rec := OneRound(limit);
        ViewParts();
        OneMoreRecord(interp.env, recs, rec, decode, made0, was, made);
        OneMoreRound(interp.env, recs, rec, stale);
        done, recs := done + 1, recs + [rec];
      }
      if recs != [] && AllLeftAlone(interp.env, recs, stale) {
        Parts();
        Readings();
        RunIsSteps(interp.env, recs, decode, stale);
      }
    }
  }

  /** From the start: everything is built, the CPU gets its configured PC and MSR, and the loop runs. Every block that runs was made
      in this run, from memory; and what comes out is what its rounds are in interpreter steps from the machine at the start, as
      long as the guest leaves the code of blocks alone. */
  method Boot(env: Env, mem: Mem, data: Data, pc: Word, msr: Word, decode: Word -> Inst, plan: Inst -> Emission,
              meaning: Emission -> Inst, limit: nat, rounds: nat)
    returns (jit: PpcJit, done: nat, ghost recs: seq<Record>)
    requires WellPlaced(env.devs) && DecodeOk(decode) && PlanOk(plan, meaning) && pc % 4 == 0 && !IR(msr)
    ensures jit.Valid() && ConfigOk(StartMachine(pc, msr, mem, data).arch.cfg) && IsRun(env, recs, 0)
    ensures |recs| == done <= rounds && (done < rounds ==> jit.interp.wantBreak)
    ensures AllSourced(env, recs, decode) && Traced(env, recs, [])
    ensures AllLeftAlone(env, recs, 0) ==>
      jit.interp.View() == JitRun(env, StartMachine(pc, msr, mem, data), decode, RoundsOf(env, recs, 0))
                             .(stop := jit.interp.wantBreak)
  {
    hide *;
    var cpus := new PpcCpuState();
    cpus.regs := cpus.regs.(pc := pc, msr := msr);
    var mmu := new PpcMmu(env.devs, mem, data);
    var interp := new PpcInterpreter(env, cpus, mmu);
    var store := new Store();
    StartIs(interp, pc, msr, mem, data);
    jit := new PpcJit(interp, store, decode, plan, meaning);
    done, recs := jit.Loop(limit, rounds);
  }

  /** With an MSR that asks for instruction translation from the start it would not be so. The first instructions are fetched
      untranslated; after an rfi to the same PC under the same MSR fetches are translated, and here they fault. Neither PC nor
      MSR nor the generation count, which are all that the one-entry shortcut looks at, tell one from the other. */
  lemma MappedStartMisleads(env: Env, pc: Word, msr: Word, data: Data)
    requires pc % 4 == 0 && IR(msr)
    ensures var m := StartMachine(pc, msr, map[], data);
      var m' := Exec(env, WithCpu(m, m.cpu.(srr0 := pc, srr1 := msr)), Rfi, 0).m;
      && m'.cpu.pc == m.cpu.pc && m'.cpu.msr == m.cpu.msr && !Reconfigures(Rfi)
      && Fetch32(env, m).1.LoadOk? && Fetch32(env, m').1 == LoadFault(NoPage)
  {
    hide ConfigOk, IR, DR, HostOf, ReadHost, FindPte;
    var m := StartMachine(pc, msr, map[], data);
    var m' := Exec(env, WithCpu(m, m.cpu.(srr0 := pc, srr1 := msr)), Rfi, 0).m;
    NothingMapped(pc, Privileged(m));
  }

  /** With BATs disabled and an empty page table nothing is mapped. */
  lemma NothingMapped(ea: Word, priv: bool)
    ensures Walk(ResetConfig(), true, map[], ea, true, true, priv) == (WalkFault(NoPage), map[])
  {
    hide ConfigOk, FindPte, SameBlock;
    var c := ResetConfig();
    NoCandidate(c, c.seg[SegIndex(ea)].vsid, ea);
  }

  lemma NoCandidate(c: Config, vsid: nat, ea: Word)
    requires ConfigOk(c)
    ensures FindPte(c, map[], vsid, ea).None?
  {
    hide ConfigOk, FindPte, ProbeGroup, PteAddr;
    PicksFirstCandidate(c, map[], vsid, ea);
  }

  lemma StartIs(interp: PpcInterpreter, pc: Word, msr: Word, mem: Mem, data: Data)
    requires pc % 4 == 0 && !IR(msr)
    requires interp.cpus.regs == ResetCpu().(pc := pc, msr := msr)
    requires interp.mmu.Now().arch == Arch(ResetConfig(), false, false, mem) && interp.mmu.data == data
    requires interp.excGenerationCount == 0 && interp.reservationAddress == 0 && interp.reservationGencount == 0
    requires !interp.wantBreak
    ensures interp.View() == StartMachine(pc, msr, mem, data) && FetchConsistent(interp.View())
    ensures ConfigOk(StartMachine(pc, msr, mem, data).arch.cfg)
  {
    StartConsistentIff(pc, msr, mem, data);
    hide ConfigOk, IR, DR;
  }
}
