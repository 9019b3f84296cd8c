/** What a generated block does: as much as that many interpreter steps, or as the steps up to the first exception
    (blockgen.cc, runloop.cc, PPCInterpreter.h). */
module JitBlock {
  import opened Words
  import opened MmuTypes
  import opened PageWalk
  import opened WalkSpec
  import opened BusMap
  import opened DirectTlb
  import opened DataPath
  import opened CpuTypes
  import opened Interp
  import opened CpuRuns
  import opened Multiples
  import opened Alu
  import opened CodeFetch
  import BlockStore

  // ---------------------------------------------------------------- Fetching along a page

  /** Fetching at `va` reads the word at host address `host` and leaves the page table as it is. */
  ghost predicate FetchesFrom(env: Env, m: Machine, va: Word, host: nat) { Fetchable(env.devs, m.arch, Privileged(m), va, host) }

  /** The next word of the page is fetched from the next word of the frame, also after the page table's R and C bits
      have been added to. */
  lemma FetchesNext(env: Env, m: Machine, m': Machine, va: Word, host: nat)
    requires WellPlaced(env.devs) && FetchesFrom(env, m, va, host) && va % 0x1000 + 4 < 0x1000
    requires m'.arch == m.arch.(mem := m'.arch.mem, dr := m'.arch.dr) && m'.cpu.msr == m.cpu.msr
    requires OnlyRCGrew(m.arch.mem, m'.arch.mem)
    ensures FetchesFrom(env, m', NextPc(va), host + 4)
  {
    hide WellPlaced, OnlyRCGrew, Fetchable, NextPc;
    NextFetch(env.devs, m.arch, m'.arch, Privileged(m), va, host);
  }

  // ---------------------------------------------------------------- Data accesses leave code mapped

  /** The page table after an instruction that does not end a block differs in R and C bits only. */
  lemma MemoryGrows(env: Env, m: Machine, i: Inst, inst: Word)
    requires ConfigOk(m.arch.cfg) && InstOk(i) && IsMemory(i)
    ensures OnlyRCGrew(m.arch.mem, ExecMemory(env, m, i, inst).m.arch.mem)
  {
    hide Translate, ConfigOk, OnlyRCGrew, ReadHost, RaiseMem, LoadMultiple, StoreMultiple, EaOf;
    GrewSelf(m.arch.mem);
    match i
    case LoadZ(rt, ea, n, update) => AccessGrows(env, m, EaOf(m.cpu, ea, update), true);
    case StoreZ(rs, ea, n, update) => AccessGrows(env, m, EaOf(m.cpu, ea, update), false);
    case Lmw(rt, ra, d) => LoadMultipleGrows(env, m, rt, EaOf(m.cpu, Disp(ra, d), false));
    case Stmw(rs, ra, d) => StoreMultipleGrows(env, m, rs, EaOf(m.cpu, Disp(ra, d), false));
    case Lwarx(rt, ra, rb) => AccessGrows(env, m, EaOf(m.cpu, Indexed(ra, rb), false), true);
    case Stwcx(rs, ra, rb) => AccessGrows(env, m, EaOf(m.cpu, Indexed(ra, rb), false), false);
  }

  lemma NonEndingGrows(env: Env, m: Machine, i: Inst, inst: Word)
    requires ConfigOk(m.arch.cfg) && InstOk(i) && !Ends(i)
    ensures OnlyRCGrew(m.arch.mem, Exec(env, m, i, inst).m.arch.mem)
  {
    hide ConfigOk, OnlyRCGrew, ExecMemory, RunAlu, RaiseProg, TakeException, Traps, ReadSpr, InstOk;
    GrewSelf(m.arch.mem);
    if IsMemory(i) {
      MemoryGrows(env, m, i, inst);
    }
  }

  // ---------------------------------------------------------------- The stale instruction field

  /** Two outcomes that may differ in the DSISR of an alignment fault, which holds what each found in the interpreter's
      instruction field. */
  predicate SameButDsisr(r: Result, s: Result, inst: Word, inst': Word) {
    if r == Raised(r.m, Some(AlignFault)) then
      && s.Raised? && s.fault == r.fault && s.m == r.m.(cpu := r.m.cpu.(dsisr := s.m.cpu.dsisr))
      && r.m.cpu.dsisr == AlignDsisr(inst) && s.m.cpu.dsisr == AlignDsisr(inst')
    else r == s
  }

  lemma FaultSame(m: Machine, rnw: bool, addr: Word, fault: Fault, inst: Word, inst': Word)
    ensures SameButDsisr(MemFault(m, rnw, addr, fault, inst), MemFault(m, rnw, addr, fault, inst'), inst, inst')
  {
    hide AlignDsisr, WordAligned;
  }

  /** Execution depends on the instruction field in nothing else. */
  lemma FieldOnlyInDsisr(env: Env, m: Machine, i: Inst, inst: Word, inst': Word)
    requires ConfigOk(m.arch.cfg) && InstOk(i)
    ensures SameButDsisr(Exec(env, m, i, inst), Exec(env, m, i, inst'), inst, inst')
  {
    hide ConfigOk, Translate, Load, Store, LoadMultiple, StoreMultiple, EaOf, MemFault, SameButDsisr, ExecBranch,
         ExecSystem, RunAlu, InstOk, AlignDsisr;
    forall m', rnw, addr, fault {:trigger MemFault(m', rnw, addr, fault, inst)}
      ensures SameButDsisr(MemFault(m', rnw, addr, fault, inst), MemFault(m', rnw, addr, fault, inst'), inst, inst')
    {
      FaultSame(m', rnw, addr, fault, inst, inst');
    }
    if !IsMemory(i) {
      OnlyMemoryFaults(env, m, i);
    }
    SameIfNotAlign(Exec(env, m, i, inst), inst, inst');
  }

  lemma OnlyMemoryFaults(env: Env, m: Machine, i: Inst)
    requires ConfigOk(m.arch.cfg) && InstOk(i) && !IsMemory(i)
    ensures forall inst :: var r := Exec(env, m, i, inst); r == Exec(env, m, i, 0) && (r.Raised? ==> r.fault == None)
  {
    hide ConfigOk, RunAlu, RaiseProg, TakeException, Traps, ReadSpr, WriteSpr, ArchStep, BranchOn, Condition, Goto,
         Link, Target, Advance, WriteMsr;
  }

  lemma SameIfNotAlign(r: Result, inst: Word, inst': Word)
    ensures r.Next? || r.fault == None ==> SameButDsisr(r, r, inst, inst')
  {
  }

  // ---------------------------------------------------------------- Blocks

  ghost predicate CodeOk(code: seq<Inst>) { forall k :: 0 <= k < |code| ==> InstOk(code[k]) }

  /** Running the calls of a block from the `k`th on: an exception leaves the block at once. No call sets the
      interpreter's instruction field, which holds `stale` throughout. */
  function RunBlock(env: Env, m: Machine, code: seq<Inst>, k: nat, stale: Word): Result
    requires ConfigOk(m.arch.cfg) && k <= |code| && CodeOk(code)
    decreases |code| - k
  {
    if k == |code| then Next(m)
    else
      var r := Exec(env, m, code[k], stale);
      if r.Raised? then r else RunBlock(env, r.m, code, k + 1, stale)
  }

  /** How many calls are made. */
  function CallsMade(env: Env, m: Machine, code: seq<Inst>, k: nat, stale: Word): nat
    requires ConfigOk(m.arch.cfg) && k <= |code| && CodeOk(code)
    decreases |code| - k
  {
    if k == |code| then 0
    else
      var r := Exec(env, m, code[k], stale);
      if r.Raised? then 1 else 1 + CallsMade(env, r.m, code, k + 1, stale)
  }

  /** The word in memory of the call that raised, if one does, when the words of the rest of the block are at `host`. */
  function FaultWord(env: Env, m: Machine, code: seq<Inst>, k: nat, host: nat, stale: Word): Word
    requires ConfigOk(m.arch.cfg) && k <= |code| && CodeOk(code)
    decreases |code| - k
  {
    if k == |code| then 0
    else
      var r := Exec(env, m, code[k], stale);
      if r.Raised? then ReadHost(env, m, host, 4) else FaultWord(env, r.m, code, k + 1, host + 4, stale)
  }

  /** `n` turns of the interpreter. */
  function Steps(env: Env, m: Machine, decode: Word -> Inst, n: nat): Machine
    requires ConfigOk(m.arch.cfg) && DecodeOk(decode)
    decreases n
  {
    if n == 0 then m else Steps(env, Step(env, m, decode), decode, n - 1)
  }

  /** The code stays what it was, and its mapping too: whenever the `k`th instruction is reached the word at its address
      still decodes to it, and running it leaves the BATs, segments and SDR1 alone. */
  ghost predicate Undisturbed(env: Env, m: Machine, decode: Word -> Inst, code: seq<Inst>, k: nat, host: nat, stale: Word)
    requires ConfigOk(m.arch.cfg) && k <= |code| && CodeOk(code)
    decreases |code| - k
  {
    k < |code| ==>
      && decode(ReadHost(env, m, host, 4)) == code[k]
      && var r := Exec(env, m, code[k], stale);
         r.Next? ==>
           (k + 1 < |code| ==> r.m.arch.cfg == m.arch.cfg) && Undisturbed(env, r.m, decode, code, k + 1, host + 4, stale)
  }

  /** A block's shape: it stays inside a page, and only its last instruction may be one that ends blocks. */
  ghost predicate BlockShape(code: seq<Inst>, va: Word) {
    va % 4 == 0 && va % 0x1000 + 4 * |code| <= 0x1000 && forall k :: 0 <= k < |code| - 1 ==> !Ends(code[k])
  }

  /** One interpreter step where the fetch is settled. */
  lemma StepIsExec(env: Env, m: Machine, decode: Word -> Inst, host: nat)
    requires DecodeOk(decode) && FetchesFrom(env, m, m.cpu.pc, host)
    ensures var w := ReadHost(env, m, host, 4); Step(env, m, decode) == Exec(env, m, decode(w), w).m
  {
    hide ConfigOk, ScratchTranslate, ReadHost, Exec;
    assert Translate(env, m, m.cpu.pc, true, true) == (m, Translated(host));
    assert Fetch32(env, m) == (m, LoadOk(ReadHost(env, m, host, 4)));
  }

  /** After a call that did not raise, the next instruction is fetched from the next word. */
  lemma NextCall(env: Env, m: Machine, code: seq<Inst>, k: nat, host: nat, stale: Word)
    requires WellPlaced(env.devs) && CodeOk(code) && k + 1 < |code| && !Ends(code[k])
    requires ConfigOk(m.arch.cfg) && FetchesFrom(env, m, m.cpu.pc, host) && m.cpu.pc % 0x1000 + 4 < 0x1000
    ensures var r := Exec(env, m, code[k], stale);
      r.Next? && r.m.arch.cfg == m.arch.cfg ==> r.m.cpu.pc == NextPc(m.cpu.pc) && FetchesFrom(env, r.m, r.m.cpu.pc, host + 4)
  {
    hide ConfigOk, Exec, FetchesFrom, OnlyRCGrew, NextPc, InHandler, WellPlaced, InstOk;
    var r := Exec(env, m, code[k], stale);
    RunsOn(env, m, code[k], stale);
    NonEndingGrows(env, m, code[k], stale);
    if r.Next? && r.m.arch.cfg == m.arch.cfg {
      FetchesNext(env, m, r.m, m.cpu.pc, host);
    }
  }

  /** The rest of a block is as many interpreter steps as calls are made, but for the DSISR of an alignment fault. */
  lemma {:induction false} BlockIsSteps(env: Env, m: Machine, decode: Word -> Inst, code: seq<Inst>, k: nat,
                                        host: nat, stale: Word)
    requires WellPlaced(env.devs) && DecodeOk(decode) && CodeOk(code) && k <= |code| && ConfigOk(m.arch.cfg)
    requires k < |code| ==> FetchesFrom(env, m, m.cpu.pc, host) && m.cpu.pc % 0x1000 + 4 * (|code| - k) <= 0x1000
    requires forall j :: k <= j < |code| - 1 ==> !Ends(code[j])
    requires Undisturbed(env, m, decode, code, k, host, stale)
    ensures SameMachine(RunBlock(env, m, code, k, stale), Steps(env, m, decode, CallsMade(env, m, code, k, stale)), stale,
                        FaultWord(env, m, code, k, host, stale))
    decreases |code| - k
  {
    hide ConfigOk, Exec, FetchesFrom, NextPc, WellPlaced, Step, ReadHost, InstOk, SameMachine, CodeOk;
    if k == |code| {
      NothingRun(m, stale, 0);
    } else {
      assert InstOk(code[k]) by {
        hide *;
        CodeAt(code, k);
      }
      var w := ReadHost(env, m, host, 4);
      var r := Exec(env, m, code[k], stale);
      StepIsExec(env, m, decode, host);
      FieldOnlyInDsisr(env, m, code[k], stale, w);
      if r.Raised? {
        RaisedSame(r, Exec(env, m, code[k], w), stale, w);
        assert Steps(env, Step(env, m, decode), decode, 0) == Step(env, m, decode);
      } else {
        NextSame(r, Exec(env, m, code[k], w), stale, w);
        if k + 1 < |code| {
          NextCall(env, m, code, k, host, stale);
          PageStep(m.cpu.pc, |code| - k);
        }
        BlockIsSteps(env, r.m, decode, code, k + 1, host + 4, stale);
      }
    }
  }

  lemma CodeAt(code: seq<Inst>, k: nat)
    requires CodeOk(code) && k < |code|
    ensures InstOk(code[k])
  {
  }

  lemma PageStep(pc: Word, n: nat)
    requires pc % 0x1000 + 4 * n <= 0x1000 && n > 1
    ensures NextPc(pc) % 0x1000 + 4 * (n - 1) <= 0x1000
  {
  }

  /** The block's result against the interpreter's machine: the same, except that after an alignment fault the block's DSISR
      comes from the stale field, and the interpreter's from the word `w` of the instruction that faulted. */
  predicate SameMachine(r: Result, s: Machine, stale: Word, w: Word) {
    if r == Raised(r.m, Some(AlignFault)) then
      s == r.m.(cpu := r.m.cpu.(dsisr := AlignDsisr(w))) && r.m.cpu.dsisr == AlignDsisr(stale)
    else r.m == s
  }

  lemma NothingRun(m: Machine, stale: Word, w: Word)
    ensures SameMachine(Next(m), m, stale, w)
  {
  }

  lemma RaisedSame(r: Result, s: Result, inst: Word, inst': Word)
    requires SameButDsisr(r, s, inst, inst')
    ensures SameMachine(r, s.m, inst, inst')
  {
  }

  lemma NextSame(r: Result, s: Result, inst: Word, inst': Word)
    requires SameButDsisr(r, s, inst, inst') && r.Next?
    ensures r == s
  {
  }

  lemma {:induction false} FinishedBlock(env: Env, m: Machine, code: seq<Inst>, k: nat, stale: Word)
    requires ConfigOk(m.arch.cfg) && k <= |code| && CodeOk(code)
    ensures RunBlock(env, m, code, k, stale).Next? ==> CallsMade(env, m, code, k, stale) == |code| - k
    ensures CallsMade(env, m, code, k, stale) <= |code| - k
    decreases |code| - k
  {
    hide ConfigOk, Exec, InstOk, CodeOk;
    if k < |code| {
      CodeAt(code, k);
      var r := Exec(env, m, code[k], stale);
      if r.Next? {
        FinishedBlock(env, r.m, code, k + 1, stale);
      }
    }
  }

  // ---------------------------------------------------------------- Generated blocks

  /** The instruction word at each address, as createBlock reads it in state `g`. */
  ghost function FetchFn(env: Env, g: Machine): Word -> Option<Word> {
    BlockStore.CodeWords(env.devs, g.arch, g.data, DeviceFn(env, g.data), Privileged(g))
  }

  /** What the generator makes of a word: the call that `plan` gives its instruction, and whether the block must end. */
  function DecodeFn(decode: Word -> Inst, plan: Inst -> BlockStore.Emission): Word -> BlockStore.Decoded {
    (w: Word) => BlockStore.Decoded(plan(decode(w)), Ends(decode(w)))
  }

  /** The `j`th instruction in memory from host address `host` on. */
  function InstAt(env: Env, g: Machine, decode: Word -> Inst, host: nat, j: nat): Inst {
    decode(ReadHost(env, g, host + 4 * j, 4))
  }

  lemma FetchFnAt(env: Env, g: Machine, va: Word, host: nat)
    requires FetchesFrom(env, g, va, host)
    ensures FetchFn(env, g)(va) == Some(ReadHost(env, g, host, 4))
  {
    hide Fetchable, LoadVia, BlockStore.CodeWords;
    BlockStore.CodeWordAt(env.devs, g.arch, g.data, DeviceFn(env, g.data), Privileged(g), va, host);
  }

  /** How many of the instructions in memory from `host` on, where `va` is fetched from, make up a block: they stay inside the page,
      none but the last must end a block, and there is a reason not to go on. */
  ghost predicate BlockSize(env: Env, g: Machine, decode: Word -> Inst, va: Word, host: nat, limit: nat, n: nat) {
    && 0 < n <= limit && va % 0x1000 + 4 * n <= 0x1000
    && (forall j :: 0 <= j < n - 1 ==> !Ends(InstAt(env, g, decode, host, j)))
    && (n == limit || Ends(InstAt(env, g, decode, host, n - 1)) || va % 0x1000 + 4 * n == 0x1000)
  }

  /** The calls of a generated block are those of the instructions in memory, and as many as make up a block. */
  lemma {:induction false} GeneratedCalls(env: Env, g: Machine, decode: Word -> Inst, plan: Inst -> BlockStore.Emission,
                                          va: Word, host: nat, limit: nat)
    requires WellPlaced(env.devs) && FetchesFrom(env, g, va, host) && va % 4 == 0 && limit > 0
    ensures var calls := BlockStore.Calls(FetchFn(env, g), DecodeFn(decode, plan), va, limit);
      && BlockSize(env, g, decode, va, host, limit, |calls|)
      && forall j :: 0 <= j < |calls| ==> calls[j] == plan(InstAt(env, g, decode, host, j))
    decreases limit
  {
    hide BlockSize, InstAt, DecodeFn, ReadHost, FetchesFrom, FetchFn, WellPlaced, OnlyRCGrew, NextPc, Ends;
    var fetch, dec := FetchFn(env, g), DecodeFn(decode, plan);
    var first := InstAt(env, g, decode, host, 0);
    FirstCall(env, g, decode, plan, va, host);
    PageEnd(va);
    if Ends(first) || NextPc(va) % 0x1000 == 0 || limit == 1 {
      OneWordSize(env, g, decode, va, host, limit);
    } else {
      GrewSelf(g.arch.mem);
      FetchesNext(env, g, g, va, host);
      GeneratedCalls(env, g, decode, plan, NextPc(va), host + 4, limit - 1);
      var rest := BlockStore.Calls(fetch, dec, NextPc(va), limit - 1);
      OneMoreWord(env, g, decode, va, host, limit, |rest|);
      forall j | 0 < j <= |rest| ensures ([plan(first)] + rest)[j] == plan(InstAt(env, g, decode, host, j)) {
        NextInstAt(env, g, decode, host, j - 1);
      }
    }
  }

  lemma FirstCall(env: Env, g: Machine, decode: Word -> Inst, plan: Inst -> BlockStore.Emission, va: Word, host: nat)
    requires FetchesFrom(env, g, va, host)
    ensures var first := InstAt(env, g, decode, host, 0);
      && FetchFn(env, g)(va).Some?
      && DecodeFn(decode, plan)(FetchFn(env, g)(va).value) == BlockStore.Decoded(plan(first), Ends(first))
  {
    hide ReadHost, FetchesFrom, FetchFn, Ends;
    FetchFnAt(env, g, va, host);
  }

  lemma NextInstAt(env: Env, g: Machine, decode: Word -> Inst, host: nat, j: nat)
    ensures InstAt(env, g, decode, host + 4, j) == InstAt(env, g, decode, host, j + 1)
  {
    hide ReadHost;
    assert host + 4 + 4 * j == host + 4 * (j + 1);
  }

  lemma OneWordSize(env: Env, g: Machine, decode: Word -> Inst, va: Word, host: nat, limit: nat)
    requires va % 4 == 0 && limit > 0
    requires Ends(InstAt(env, g, decode, host, 0)) || NextPc(va) % 0x1000 == 0 || limit == 1
    ensures BlockSize(env, g, decode, va, host, limit, 1)
  {
    hide InstAt, Ends, NextPc;
    PageEnd(va);
  }

  lemma OneMoreWord(env: Env, g: Machine, decode: Word -> Inst, va: Word, host: nat, limit: nat, n: nat)
    requires va % 4 == 0 && limit > 1 && BlockSize(env, g, decode, NextPc(va), host + 4, limit - 1, n)
    requires !Ends(InstAt(env, g, decode, host, 0)) && NextPc(va) % 0x1000 != 0
    ensures BlockSize(env, g, decode, va, host, limit, n + 1)
  {
    hide InstAt, Ends, NextPc;
    PageEnd(va);
    NextInstAt(env, g, decode, host, n - 1);
    forall j | 0 <= j < n ensures !Ends(InstAt(env, g, decode, host, j)) {
      if j > 0 {
        NextInstAt(env, g, decode, host, j - 1);
      }
    }
  }

  /** That determines how many. */
  lemma BlockSizeIsUnique(env: Env, g: Machine, decode: Word -> Inst, va: Word, host: nat, limit: nat, n: nat, k: nat)
    requires BlockSize(env, g, decode, va, host, limit, n) && BlockSize(env, g, decode, va, host, limit, k)
    ensures n == k
  {
    hide BlockSize;
    if n < k {
      NoShorterBlock(env, g, decode, va, host, limit, k, n);
    } else if k < n {
      NoShorterBlock(env, g, decode, va, host, limit, n, k);
    }
  }

  lemma NoShorterBlock(env: Env, g: Machine, decode: Word -> Inst, va: Word, host: nat, limit: nat, n: nat, k: nat)
    requires BlockSize(env, g, decode, va, host, limit, n) && k < n
    ensures !BlockSize(env, g, decode, va, host, limit, k)
  {
    hide InstAt, Ends;
    if k > 0 {
      assert !Ends(InstAt(env, g, decode, host, k - 1));
    }
  }

  lemma PageEnd(va: Word)
    requires va % 4 == 0
    ensures NextPc(va) % 4 == 0 && va % 0x1000 + 4 <= 0x1000
    ensures if NextPc(va) % 0x1000 == 0 then va % 0x1000 + 4 == 0x1000 else NextPc(va) % 0x1000 == va % 0x1000 + 4
  {
    AlignedSums(va, 4);
    var r := va % 0x1000;
    assert r == 4 * (va / 4 - va / 0x1000 * 0x400);
    assert r % 4 == 0;
  }

  function Meanings(calls: seq<BlockStore.Emission>, meaning: BlockStore.Emission -> Inst): seq<Inst> {
    seq(|calls|, k requires 0 <= k < |calls| => meaning(calls[k]))
  }

  /** `code` is the block that the words in memory make up in state `g`, where `va` is fetched from `host`: instruction by
      instruction, and no more and no fewer than a block has. */
  ghost predicate BlockFrom(env: Env, g: Machine, decode: Word -> Inst, code: seq<Inst>, va: Word, host: nat, limit: nat) {
    && FetchesFrom(env, g, va, host) && va % 4 == 0 && BlockSize(env, g, decode, va, host, limit, |code|)
    && forall k :: 0 <= k < |code| ==> code[k] == InstAt(env, g, decode, host, k)
  }

  /** There is only one. */
  lemma BlockIsUnique(env: Env, g: Machine, decode: Word -> Inst, code: seq<Inst>, code': seq<Inst>, va: Word, host: nat,
                      limit: nat)
    requires BlockFrom(env, g, decode, code, va, host, limit) && BlockFrom(env, g, decode, code', va, host, limit)
    ensures code == code'
  {
    hide InstAt, BlockSize, FetchesFrom;
    BlockSizeIsUnique(env, g, decode, va, host, limit, |code|, |code'|);
  }

  lemma {:induction false} GeneratedFrom(env: Env, g: Machine, decode: Word -> Inst, plan: Inst -> BlockStore.Emission,
                                         meaning: BlockStore.Emission -> Inst, va: Word, host: nat, limit: nat)
    requires WellPlaced(env.devs) && (forall i :: meaning(plan(i)) == i) && va % 4 == 0 && limit > 0
    requires FetchesFrom(env, g, va, host)
    ensures var code := Meanings(BlockStore.Calls(FetchFn(env, g), DecodeFn(decode, plan), va, limit), meaning);
      BlockFrom(env, g, decode, code, va, host, limit)
  {
    hide InstAt, BlockSize, FetchesFrom, FetchFn, DecodeFn, WellPlaced, BlockStore.Calls;
    GeneratedCalls(env, g, decode, plan, va, host, limit);
    var calls := BlockStore.Calls(FetchFn(env, g), DecodeFn(decode, plan), va, limit);
    forall k | 0 <= k < |calls| ensures Meanings(calls, meaning)[k] == InstAt(env, g, decode, host, k) {
      assert calls[k] == plan(InstAt(env, g, decode, host, k));
    }
  }

  /** Such code can be run, wherever the same page offset is. */
  lemma BlockFits(env: Env, g: Machine, decode: Word -> Inst, code: seq<Inst>, va: Word, host: nat, limit: nat, va': Word)
    requires BlockFrom(env, g, decode, code, va, host, limit) && DecodeOk(decode)
    requires va' % 4 == 0 && va' % 0x1000 == va % 0x1000
    ensures CodeOk(code) && code != [] && BlockShape(code, va')
  {
    hide FetchesFrom, Ends, ReadHost, InstOk;
  }

  /** The guest leaves the code of a block alone since `g`, and its mapping too: whenever the `k`th instruction is reached, the
      word at its address is what it was in `g`, and running it leaves the BATs, segments and SDR1 alone, unless it is the last. */
  ghost predicate Untouched(env: Env, g: Machine, m: Machine, code: seq<Inst>, k: nat, host: nat, stale: Word)
    requires ConfigOk(m.arch.cfg) && k <= |code| && CodeOk(code)
    decreases |code| - k
  {
    k < |code| ==>
      && ReadHost(env, m, host + 4 * k, 4) == ReadHost(env, g, host + 4 * k, 4)
      && var r := Exec(env, m, code[k], stale);
         r.Next? ==> (k + 1 < |code| ==> r.m.arch.cfg == m.arch.cfg) && Untouched(env, g, r.m, code, k + 1, host, stale)
  }

  /** Then what the generator decoded in `g` is what the interpreter decodes now. */
  lemma {:induction false} UntouchedStands(env: Env, g: Machine, m: Machine, decode: Word -> Inst, code: seq<Inst>, k: nat,
                                           host: nat, stale: Word)
    requires ConfigOk(m.arch.cfg) && k <= |code| && CodeOk(code) && Untouched(env, g, m, code, k, host, stale)
    requires forall j :: 0 <= j < |code| ==> code[j] == InstAt(env, g, decode, host, j)
    ensures Undisturbed(env, m, decode, code, k, host + 4 * k, stale)
    decreases |code| - k
  {
    hide ConfigOk, Exec, ReadHost, CodeOk, InstOk;
    if k < |code| {
      CodeAt(code, k);
      var r := Exec(env, m, code[k], stale);
      assert code[k] == InstAt(env, g, decode, host, k);
      if r.Next? {
        UntouchedStands(env, g, r.m, decode, code, k + 1, host, stale);
        assert host + 4 * k + 4 == host + 4 * (k + 1);
      }
    }
  }

  /** A block generated in state `g` at `va`, run in state `m` at whatever virtual address now maps to the same place. It is the
      block of the words in memory in `g`; and if the guest has left those alone it does what the interpreter does in as many
      steps as calls are made, all of them unless one raises an exception; only the DSISR of an alignment fault may differ. */
  lemma {:induction false} GeneratedBlockRuns(env: Env, g: Machine, m: Machine, decode: Word -> Inst,
                                              plan: Inst -> BlockStore.Emission, meaning: BlockStore.Emission -> Inst,
                                              va: Word, host: nat, limit: nat, stale: Word)
    requires WellPlaced(env.devs) && DecodeOk(decode) && (forall i :: meaning(plan(i)) == i) && va % 4 == 0 && limit > 0
    ensures var code := Meanings(BlockStore.Calls(FetchFn(env, g), DecodeFn(decode, plan), va, limit), meaning);
      FetchesFrom(env, g, va, host) && FetchesFrom(env, m, m.cpu.pc, host) ==>
        && BlockFrom(env, g, decode, code, va, host, limit) && CodeOk(code) && ConfigOk(m.arch.cfg)
        && (Untouched(env, g, m, code, 0, host, stale) ==>
              && SameMachine(RunBlock(env, m, code, 0, stale),
                             Steps(env, m, decode, CallsMade(env, m, code, 0, stale)), stale,
                             FaultWord(env, m, code, 0, host, stale))
              && (RunBlock(env, m, code, 0, stale).Next? ==> CallsMade(env, m, code, 0, stale) == |code|))
  {
    hide *;
    if FetchesFrom(env, g, va, host) && FetchesFrom(env, m, m.cpu.pc, host) {
      GeneratedFrom(env, g, decode, plan, meaning, va, host, limit);
      var code := Meanings(BlockStore.Calls(FetchFn(env, g), DecodeFn(decode, plan), va, limit), meaning);
      BlockRunnable(env, g, m, decode, code, va, host, limit);
      if Untouched(env, g, m, code, 0, host, stale) {
        FromMemoryRuns(env, g, m, decode, code, va, host, limit, stale);
      }
    }
  }

  lemma BlockRunnable(env: Env, g: Machine, m: Machine, decode: Word -> Inst, code: seq<Inst>, va: Word, host: nat, limit: nat)
    requires WellPlaced(env.devs) && DecodeOk(decode) && BlockFrom(env, g, decode, code, va, host, limit)
    requires FetchesFrom(env, m, m.cpu.pc, host)
    ensures CodeOk(code) && code != [] && ConfigOk(m.arch.cfg) && BlockShape(code, va)
    ensures m.cpu.pc % 0x1000 + 4 * |code| <= 0x1000
  {
    hide ReadHost, WellPlaced, InstOk, Ends, ScratchTranslate, ConfigOk, DecodeOk, BlockSize, InstAt;
    BlockFits(env, g, decode, code, va, host, limit, va);
    var _ := FetchesByPage(env.devs, g.arch, Privileged(g), va, host);
    var _ := FetchesByPage(env.devs, m.arch, Privileged(m), m.cpu.pc, host);
  }

  /** The same for any block made from the words in memory. */
  lemma {:induction false} FromMemoryRuns(env: Env, g: Machine, m: Machine, decode: Word -> Inst, code: seq<Inst>, va: Word,
                                          host: nat, limit: nat, stale: Word)
    requires WellPlaced(env.devs) && DecodeOk(decode) && CodeOk(code) && BlockFrom(env, g, decode, code, va, host, limit)
    requires FetchesFrom(env, m, m.cpu.pc, host) && ConfigOk(m.arch.cfg) && Untouched(env, g, m, code, 0, host, stale)
    ensures SameMachine(RunBlock(env, m, code, 0, stale), Steps(env, m, decode, CallsMade(env, m, code, 0, stale)), stale,
                        FaultWord(env, m, code, 0, host, stale))
    ensures RunBlock(env, m, code, 0, stale).Next? ==> CallsMade(env, m, code, 0, stale) == |code|
  {
    hide ReadHost, WellPlaced, Exec, InstOk, Ends, SameMachine, RunBlock, Steps, CallsMade, FaultWord, ConfigOk, FetchesFrom,
         Undisturbed, Untouched, CodeOk, InstAt, BlockSize, DecodeOk;
    BlockRunnable(env, g, m, decode, code, va, host, limit);
    UntouchedStands(env, g, m, decode, code, 0, host, stale);
    BlockIsSteps(env, m, decode, code, 0, host, stale);
    FinishedBlock(env, m, code, 0, stale);
  }

  /** A block leaves exactly the interpreter's machine if and only if no alignment fault ends it, or the stale field gives the
      same DSISR as the word of the instruction that faulted. */
  lemma {:induction false} SameMachineIff(env: Env, m: Machine, decode: Word -> Inst, code: seq<Inst>, host: nat, stale: Word)
    requires WellPlaced(env.devs) && DecodeOk(decode) && CodeOk(code) && ConfigOk(m.arch.cfg)
    requires code != [] ==> FetchesFrom(env, m, m.cpu.pc, host) && BlockShape(code, m.cpu.pc)
    requires Undisturbed(env, m, decode, code, 0, host, stale)
    ensures var r := RunBlock(env, m, code, 0, stale);
      r.m == Steps(env, m, decode, CallsMade(env, m, code, 0, stale))
      <==> (r == Raised(r.m, Some(AlignFault)) ==> AlignDsisr(stale) == AlignDsisr(FaultWord(env, m, code, 0, host, stale)))
  {
    hide AlignDsisr, ConfigOk, FetchesFrom, WellPlaced, InstOk, RunBlock, Steps, CallsMade, FaultWord, Undisturbed,
         CodeOk;
    BlockIsSteps(env, m, decode, code, 0, host, stale);
  }

  // lwz r3, 6(0): a word load that crosses an 8-byte boundary.
  const LWZ: Word := 0x8060_0006

  function DecodeLwz(): Word -> Inst { (w: Word) => if w == LWZ then LoadZ(3, Disp(0, 6), 4, false) else Unknown }

  /** A machine in real mode at address 0, over a page of RAM that holds just that instruction. */
  function LwzMachine(): Machine {
    Machine(Cpu(seq(32, _ => 0), 0, 0, 0, false, false, false, seq(8, _ => 0), 0, 0, 0, 0, 0, 0, 0, false),
            Arch(ResetConfig(), false, false, map[]), Data(map[0 := 0x80, 1 := 0x60, 2 := 0, 3 := 6], []), 0, 0, 0, false)
  }

  function OnePage(): Env { Env([Ram(0, 0x1000, 0, false)], (_, _, _) => 0) }

  /** Where they differ: the block of that one load, run while the instruction field is still zero as after construction, leaves
      DSISR zero; the interpreter leaves register number 3 in it. Everything that is asked of a block is met. */
  lemma {:induction false} MisalignedLoadDiffers()
    ensures var env, m, code := OnePage(), LwzMachine(), [LoadZ(3, Disp(0, 6), 4, false)];
      && WellPlaced(env.devs) && CodeOk(code) && DecodeOk(DecodeLwz()) && BlockShape(code, 0)
      && FetchesFrom(env, m, 0, 0) && Undisturbed(env, m, DecodeLwz(), code, 0, 0, 0)
      && RunBlock(env, m, code, 0, 0).m.cpu.dsisr == 0
      && Steps(env, m, DecodeLwz(), CallsMade(env, m, code, 0, 0)).cpu.dsisr == 0x60
  {
    var env, m, code := OnePage(), LwzMachine(), [LoadZ(3, Disp(0, 6), 4, false)];
    hide *;
    FetchAtZero();
    LwzRaises();
    LwzSetting();
    OneCallRaises(env, m, DecodeLwz(), code[0], 0, 0);
    BlockIsSteps(env, m, DecodeLwz(), code, 0, 0, 0);
    AlignFaultsDiffer(RunBlock(env, m, code, 0, 0), Steps(env, m, DecodeLwz(), 1), 0, LWZ);
  }

  lemma LwzSetting()
    ensures LwzMachine().cpu.pc == 0 && DecodeLwz()(LWZ) == LoadZ(3, Disp(0, 6), 4, false) && DecodeOk(DecodeLwz())
    ensures BlockShape([LoadZ(3, Disp(0, 6), 4, false)], 0) && InstOk(LoadZ(3, Disp(0, 6), 4, false))
    ensures AlignDsisr(LWZ) == 0x60 && AlignDsisr(0) == 0
  {
    hide ResetConfig;
  }

  lemma AlignFaultsDiffer(r: Result, s: Machine, stale: Word, w: Word)
    requires SameMachine(r, s, stale, w) && r == Raised(r.m, Some(AlignFault))
    ensures s.cpu.dsisr == AlignDsisr(w) && r.m.cpu.dsisr == AlignDsisr(stale)
  {
    hide AlignDsisr;
  }

  /** A block of one instruction that raises. */
  lemma {:induction false} OneCallRaises(env: Env, m: Machine, decode: Word -> Inst, i: Inst, host: nat, stale: Word)
    requires ConfigOk(m.arch.cfg) && InstOk(i) && Exec(env, m, i, stale).Raised? && decode(ReadHost(env, m, host, 4)) == i
    ensures CodeOk([i]) && RunBlock(env, m, [i], 0, stale) == Exec(env, m, i, stale) && CallsMade(env, m, [i], 0, stale) == 1
    ensures FaultWord(env, m, [i], 0, host, stale) == ReadHost(env, m, host, 4) && Undisturbed(env, m, decode, [i], 0, host, stale)
  {
    hide ConfigOk, Exec, InstOk, ReadHost;
  }

  lemma {:induction false} FetchAtZero()
    ensures WellPlaced(OnePage().devs) && FetchesFrom(OnePage(), LwzMachine(), 0, 0)
    ensures ReadHost(OnePage(), LwzMachine(), 0, 4) == LWZ
  {
    hide ConfigOk;
    var h := LwzMachine().data.host;
    assert HostOf(OnePage().devs, 0) == 0;
    assert Fetch(h, 0, 1) == 0x80 && Fetch(h, 0, 2) == 0x8060 && Fetch(h, 0, 3) == 0x80_6000 && Fetch(h, 0, 4) == LWZ;
  }

  lemma {:induction false} LwzRaises()
    ensures ConfigOk(LwzMachine().arch.cfg)
    ensures var r := Exec(OnePage(), LwzMachine(), LoadZ(3, Disp(0, 6), 4, false), 0);
      r == Raised(r.m, Some(AlignFault)) && r.m.cpu.dsisr == AlignDsisr(0)
  {
    hide ConfigOk, AlignDsisr;
    var m := LwzMachine();
    assert HostOf(OnePage().devs, 6) == 6;
    assert Translate(OnePage(), m, 6, false, true) == (m, Translated(6));
    assert Load(OnePage(), m, 6, 4) == (m, LoadFault(AlignFault));
  }

  /** What `k` calls of a block have led to, if none but the last raised. */
  ghost predicate BlockSoFar(env: Env, m: Machine, code: seq<Inst>, k: nat, stale: Word, r: Result) {
    && ConfigOk(m.arch.cfg) && CodeOk(code) && k <= |code| && ConfigOk(r.m.arch.cfg) && (k == 0 ==> r.Next?)
    && RunBlock(env, m, code, 0, stale) == (if r.Raised? then r else RunBlock(env, r.m, code, k, stale))
    && CallsMade(env, m, code, 0, stale) == k + (if r.Raised? then 0 else CallsMade(env, r.m, code, k, stale))
  }

  lemma OneMoreCall(env: Env, m: Machine, code: seq<Inst>, k: nat, stale: Word, r: Result)
    requires BlockSoFar(env, m, code, k, stale, r) && r.Next? && k < |code|
    ensures InstOk(code[k]) && ConfigOk(r.m.arch.cfg) && BlockSoFar(env, m, code, k + 1, stale, Exec(env, r.m, code[k], stale))
  {
    hide ConfigOk, Exec, InstOk;
  }

  lemma NoCallYet(env: Env, m: Machine, code: seq<Inst>, stale: Word)
    requires ConfigOk(m.arch.cfg) && CodeOk(code)
    ensures BlockSoFar(env, m, code, 0, stale, Next(m))
  {
    hide ConfigOk, RunBlock, CallsMade, CodeOk;
  }

  lemma {:induction false} WholeBlock(env: Env, m: Machine, code: seq<Inst>, k: nat, stale: Word, r: Result)
    requires BlockSoFar(env, m, code, k, stale, r) && (k == |code| || r.Raised?)
    ensures ConfigOk(m.arch.cfg) && CodeOk(code)
    ensures RunBlock(env, m, code, 0, stale) == r && CallsMade(env, m, code, 0, stale) == k
  {
    hide ConfigOk, Exec, InstOk;
  }
}
