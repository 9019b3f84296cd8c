/** What the JIT's main loop does to the machine, round by round, in interpreter steps (runloop.cc). */
module JitRuns {
  import opened Words
  import opened MmuTypes
  import opened PageWalk
  import opened WalkSpec
  import opened BusMap
  import opened DirectTlb
  import opened DataPath
  import opened CpuTypes
  import opened Alu
  import opened CodeFetch
  import opened Interp
  import opened CpuRuns
  import opened Multiples
  import opened JitBlock
  import BlockStore
  import opened ClockFree

  // ---------------------------------------------------------------- What every block keeps

  /** Only writes to MMU registers change the configuration, and nothing but R and C bits of the page table. */
  lemma ExecGrows(env: Env, m: Machine, i: Inst, inst: Word)
    requires ConfigOk(m.arch.cfg) && InstOk(i)
    ensures var a := Exec(env, m, i, inst).m.arch; OnlyRCGrew(m.arch.mem, a.mem) && (!i.MtMmu? ==> a.cfg == m.arch.cfg)
  {
    hide ConfigOk, OnlyRCGrew, ExecMemory, RunAlu, RaiseProg, TakeException, Traps, ReadSpr, WriteSpr, InstOk, IR, DR,
         BranchOn, Condition, Goto, Link, Target, WordAligned, NextPc;
    GrewSelf(m.arch.mem);
    if IsMemory(i) {
      MemoryGrows(env, m, i, inst);
    } else if i.MtMmu? {
      hide ArchStep;
      MmuWriteGrows(env, m, i);
    }
  }

  lemma MmuWriteGrows(env: Env, m: Machine, i: Inst)
    requires ConfigOk(m.arch.cfg) && InstOk(i) && i.MtMmu?
    ensures ArchStep(env.devs, m.arch, ToOp(i.reg, m.cpu.gpr[i.rs])).0.mem == m.arch.mem
  {
    hide ConfigOk, BatWithUpper, BatWithLower, SegOf, HtabBase, HtabMask;
  }

  lemma {:induction false} BlockKeeps(env: Env, m: Machine, code: seq<Inst>, k: nat, stale: Word)
    requires FetchConsistent(m) && CodeOk(code) && k <= |code|
    ensures FetchConsistent(RunBlock(env, m, code, k, stale).m)
    decreases |code| - k
  {
    hide ConfigOk, Exec, InstOk, CodeOk, IR, DR;
    if k < |code| {
      CodeAt(code, k);
      ExecKeeps(env, m, code[k], stale);
      var r := Exec(env, m, code[k], stale);
      if r.Next? {
        BlockKeeps(env, r.m, code, k + 1, stale);
      }
    }
  }

  // ---------------------------------------------------------------- Rounds of the loop

  /** Where a block comes from: the machine when it was made, at its PC, and where in memory that PC was fetched from. */
  datatype Origin = Origin(made: Machine, host: nat)

  /** One round as it happened: the machine before and after, and the block that ran, with where the PC is fetched from and
      where the block comes from. */
  datatype Record = Record(before: Machine, code: seq<Inst>, host: nat, origin: Origin, after: Machine)

  /** A fetch that faults enters its exception, and that is all. Otherwise a block for the PC runs; if it finishes, the clock
      advances by its length and a pending interrupt or decrementer is delivered; an exception skips both. */
  ghost predicate IsRound(env: Env, rec: Record, stale: Word) {
    && ConfigOk(rec.before.arch.cfg)
    && var (m, v) := Fetch32(env, rec.before);
       if v.LoadFault? then rec.after == RaiseMem(m, true, true, rec.before.cpu.pc, v.fault, 0)
       else
         && FetchesFrom(env, m, m.cpu.pc, rec.host) && CodeOk(rec.code) && rec.code != [] && BlockShape(rec.code, m.cpu.pc)
         && ConfigOk(m.arch.cfg)
         && var r := RunBlock(env, m, rec.code, 0, stale);
            rec.after == if r.Raised? then r.m else Deliver(WithCpu(r.m, Tick(r.m.cpu, |rec.code|)))
  }

  /** What the JIT sees to: the block that ran is the one that the words in memory made up in the state of its origin, and the key
      it was made under is the key of the PC now. */
  ghost predicate Sourced(env: Env, rec: Record, decode: Word -> Inst)
    requires ConfigOk(rec.before.arch.cfg)
  {
    var o := rec.origin;
    Fetch32(env, rec.before).1.LoadOk? ==>
      && BlockFrom(env, o.made, decode, rec.code, o.made.cpu.pc, o.host, 1000)
      && BlockStore.KeyFor(o.host, o.made.cpu.msr) == BlockStore.KeyFor(rec.host, rec.before.cpu.msr)
  }

  /** What is up to the guest and the host: the block's words, as they are reached, are what they were when it was made, no MMU
      register is written before its end, and the 32 bits of a host address that keys hold tell its address from that of its
      origin. */
  ghost predicate LeftAlone(env: Env, rec: Record, stale: Word)
    requires IsRound(env, rec, stale)
  {
    var (m, v) := Fetch32(env, rec.before);
    v.LoadOk? ==>
      && (rec.host % WORD_LIMIT == rec.origin.host % WORD_LIMIT ==> rec.host == rec.origin.host)
      && Untouched(env, rec.origin.made, m, rec.code, 0, rec.host, stale)
  }

  /** Both together. */
  ghost predicate CodeStands(env: Env, rec: Record, decode: Word -> Inst, stale: Word)
    requires IsRound(env, rec, stale)
  {
    Sourced(env, rec, decode) && LeftAlone(env, rec, stale)
  }

  /** So the block is of the words in memory when they are reached. */
  lemma {:induction false} StandsUndisturbed(env: Env, rec: Record, decode: Word -> Inst, stale: Word)
    requires IsRound(env, rec, stale) && CodeStands(env, rec, decode, stale) && Fetch32(env, rec.before).1.LoadOk?
    ensures Undisturbed(env, Fetch32(env, rec.before).0, decode, rec.code, 0, rec.host, stale)
  {
    hide ConfigOk, Fetch32, FetchesFrom, CodeOk, RunBlock, Undisturbed, Untouched, BlockSize, InstAt, Deliver;
    UntouchedStands(env, rec.origin.made, Fetch32(env, rec.before).0, decode, rec.code, 0, rec.host, stale);
  }

  /** A round by what it amounts to: an exception entry, or some interpreter steps without or with an exception at their end. */
  datatype Round = FetchFault | Ran(steps: nat) | Threw(steps: nat, dsisr: Word)

  ghost function RoundOf(env: Env, rec: Record, stale: Word): Round
    requires IsRound(env, rec, stale)
  {
    var (m, v) := Fetch32(env, rec.before);
    if v.LoadFault? then FetchFault
    else
      var r, n := RunBlock(env, m, rec.code, 0, stale), CallsMade(env, m, rec.code, 0, stale);
      if r.Raised? then Threw(n, r.m.cpu.dsisr) else Ran(n)
  }

  function FetchEntry(env: Env, m: Machine): (r: Machine)
    requires ConfigOk(m.arch.cfg)
    ensures ConfigOk(r.arch.cfg)
  {
    hide ConfigOk;
    var (m', v) := Fetch32(env, m);
    if v.LoadFault? then RaiseMem(m', true, true, m.cpu.pc, v.fault, 0) else m'
  }

  /** The machine after a round, from the interpreter's steps. */
  function RoundEnd(env: Env, m: Machine, decode: Word -> Inst, round: Round): (r: Machine)
    requires ConfigOk(m.arch.cfg) && DecodeOk(decode)
    ensures ConfigOk(r.arch.cfg)
  {
    hide ConfigOk, Steps, Deliver, Tick, FetchEntry, DecodeOk;
    match round
    case FetchFault => FetchEntry(env, m)
    case Ran(n) =>
      StepsOk(env, m, decode, n);
      var s := Steps(env, m, decode, n);
      Deliver(WithCpu(s, Tick(s.cpu, n)))
    case Threw(n, dsisr) =>
      StepsOk(env, m, decode, n);
      var s := Steps(env, m, decode, n);
      s.(cpu := s.cpu.(dsisr := dsisr))
  }

  lemma {:induction false} StepsOk(env: Env, m: Machine, decode: Word -> Inst, n: nat)
    requires ConfigOk(m.arch.cfg) && DecodeOk(decode)
    ensures ConfigOk(Steps(env, m, decode, n).arch.cfg)
    decreases n
  {
    hide ConfigOk, Step, DecodeOk;
    if n > 0 {
      StepsOk(env, Step(env, m, decode), decode, n - 1);
    }
  }

  // ---------------------------------------------------------------- Rounds are interpreter steps

  /** A step begins with the fetch, or with the entry of the exception the fetch raises: having done that already makes no
      difference. */
  lemma StepAfterFetch(env: Env, m: Machine, decode: Word -> Inst)
    requires ConfigOk(m.arch.cfg) && DecodeOk(decode)
    ensures Fetch32(env, m).1.LoadFault? ==> Step(env, m, decode) == Step(env, FetchEntry(env, m), decode)
  {
    hide ConfigOk, Fetch32, Exec, RaiseMem, DecodeOk;
  }

  /** Fetching again finds the same word and changes nothing. */
  lemma FetchTwice(env: Env, m: Machine) returns (host: nat)
    requires WellPlaced(env.devs) && ConfigOk(m.arch.cfg) && Fetch32(env, m).1.LoadOk?
    ensures var (m', v) := Fetch32(env, m);
      Fetch32(env, m') == (m', v) && FetchesFrom(env, m', m.cpu.pc, host) && v == LoadOk(ReadHost(env, m', host, 4))
  {
    hide ConfigOk, ScratchTranslate, ReadHost, WellPlaced, OnlyRCGrew;
    FetchSettles(env.devs, m.arch, Privileged(m), m.cpu.pc);
    var (m', out) := Translate(env, m, m.cpu.pc, true, true);
    host := out.host;
    assert Translate(env, m', m.cpu.pc, true, true) == (m', out);
  }

  lemma StepAfterTranslation(env: Env, m: Machine, decode: Word -> Inst)
    requires WellPlaced(env.devs) && ConfigOk(m.arch.cfg) && DecodeOk(decode) && Fetch32(env, m).1.LoadOk?
    ensures Step(env, m, decode) == Step(env, Fetch32(env, m).0, decode)
  {
    hide ConfigOk, Fetch32, Exec, DecodeOk, WellPlaced, FetchesFrom;
    var _ := FetchTwice(env, m);
  }

  lemma {:induction false} StepsFrom(env: Env, m: Machine, m': Machine, decode: Word -> Inst, n: nat)
    requires ConfigOk(m.arch.cfg) && ConfigOk(m'.arch.cfg) && DecodeOk(decode) && n > 0
    requires Step(env, m, decode) == Step(env, m', decode)
    ensures Steps(env, m, decode, n) == Steps(env, m', decode, n)
  {
    hide ConfigOk, Step, DecodeOk;
  }

  /** Every round, whatever block was found and wherever it was made, is what its kind says in interpreter steps, as long as the
      block was made from memory and has been left alone since. The DSISR of a round that threw is the interpreter's too, unless
      the exception was an alignment fault. */
  lemma {:induction false} RoundIsSteps(env: Env, rec: Record, decode: Word -> Inst, stale: Word)
    requires WellPlaced(env.devs) && DecodeOk(decode) && IsRound(env, rec, stale) && CodeStands(env, rec, decode, stale)
    ensures var round := RoundOf(env, rec, stale);
      && rec.after == RoundEnd(env, rec.before, decode, round)
      && (round.Ran? ==> round.steps == |rec.code|)
      && (!round.FetchFault? ==> 0 < round.steps <= |rec.code|)
      && (round.Threw? ==>
            var m := Fetch32(env, rec.before).0;
            RunBlock(env, m, rec.code, 0, stale).fault == Some(AlignFault)
            || round.dsisr == Steps(env, rec.before, decode, round.steps).cpu.dsisr)
  {
    var (m, v) := Fetch32(env, rec.before);
    if v.LoadOk? {
      RanIsSteps(env, rec, decode, stale);
    }
    hide *;
  }

  lemma {:induction false} RanIsSteps(env: Env, rec: Record, decode: Word -> Inst, stale: Word)
    requires WellPlaced(env.devs) && DecodeOk(decode) && IsRound(env, rec, stale) && CodeStands(env, rec, decode, stale)
    requires Fetch32(env, rec.before).1.LoadOk?
    ensures var m := Fetch32(env, rec.before).0;
      var r, n := RunBlock(env, m, rec.code, 0, stale), CallsMade(env, m, rec.code, 0, stale);
      var s := Steps(env, rec.before, decode, n);
      && 0 < n <= |rec.code| && (r.Next? ==> n == |rec.code| && r.m == s)
      && (r.Raised? ==> r.m == s.(cpu := s.cpu.(dsisr := r.m.cpu.dsisr)) && (r.fault == Some(AlignFault) || r.m == s))
  {
    hide ConfigOk, Exec, FetchesFrom, InstOk, CodeOk, WellPlaced, Step, Fetch32, RunBlock, Steps, Undisturbed,
         FaultWord, DecodeOk, AlignDsisr, CodeStands;
    var m := Fetch32(env, rec.before).0;
    var r, n := RunBlock(env, m, rec.code, 0, stale), CallsMade(env, m, rec.code, 0, stale);
    StandsUndisturbed(env, rec, decode, stale);
    BlockIsSteps(env, m, decode, rec.code, 0, rec.host, stale);
    FinishedBlock(env, m, rec.code, 0, stale);
    StepAfterTranslation(env, rec.before, decode);
    StepsFrom(env, rec.before, m, decode, n);
  }

  // ---------------------------------------------------------------- Whole runs

  /** Rounds that follow on one another. */
  ghost predicate IsRun(env: Env, recs: seq<Record>, stale: Word) {
    && (forall i :: 0 <= i < |recs| ==> IsRound(env, recs[i], stale))
    && (forall i :: 0 <= i < |recs| - 1 ==> recs[i].after == recs[i + 1].before)
  }

  ghost function RoundsOf(env: Env, recs: seq<Record>, stale: Word): (r: seq<Round>)
    requires IsRun(env, recs, stale)
    ensures |r| == |recs|
  {
    seq(|recs|, i requires 0 <= i < |recs| => RoundOf(env, recs[i], stale))
  }

  /** Interpreter steps with the clock and asynchronous exceptions looked at between rounds only. */
  function JitRun(env: Env, m: Machine, decode: Word -> Inst, rounds: seq<Round>): (r: Machine)
    requires ConfigOk(m.arch.cfg) && DecodeOk(decode)
    ensures ConfigOk(r.arch.cfg)
  {
    hide ConfigOk, RoundEnd;
    if rounds == [] then m
    else RoundEnd(env, JitRun(env, m, decode, rounds[..|rounds| - 1]), decode, rounds[|rounds| - 1])
  }

  /** Over any number of rounds, whose blocks were made from memory and left alone since. */
  lemma {:induction false} RunIsSteps(env: Env, recs: seq<Record>, decode: Word -> Inst, stale: Word)
    requires WellPlaced(env.devs) && DecodeOk(decode) && IsRun(env, recs, stale) && recs != []
    requires AllSourced(env, recs, decode) && AllLeftAlone(env, recs, stale)
    ensures ConfigOk(recs[0].before.arch.cfg)
    ensures recs[|recs| - 1].after == JitRun(env, recs[0].before, decode, RoundsOf(env, recs, stale))
  {
    hide ConfigOk, WellPlaced, IsRound, Sourced, LeftAlone, RoundOf, RoundEnd, DecodeOk;
    var n := |recs| - 1;
    var early := recs[..n];
    RoundIsSteps(env, recs[n], decode, stale);
    RoundOk(env, recs[0], stale);
    assert RoundsOf(env, early, stale) == RoundsOf(env, recs, stale)[..n];
    if n > 0 {
      RunIsSteps(env, early, decode, stale);
    } else {
      assert RoundsOf(env, early, stale) == [];
    }
  }

  ghost predicate AllSourced(env: Env, recs: seq<Record>, decode: Word -> Inst) {
    forall i :: 0 <= i < |recs| ==> ConfigOk(recs[i].before.arch.cfg) && Sourced(env, recs[i], decode)
  }

  ghost predicate AllLeftAlone(env: Env, recs: seq<Record>, stale: Word)
    requires IsRun(env, recs, stale)
  {
    forall i :: 0 <= i < |recs| ==> LeftAlone(env, recs[i], stale)
  }

  // ---------------------------------------------------------------- Where blocks come from

  /** A round that made the block it ran. */
  ghost predicate Makes(env: Env, rec: Record) {
    ConfigOk(rec.before.arch.cfg) && rec.origin == Origin(Fetch32(env, rec.before).0, rec.host)
  }

  /** An origin from before the run, or a round of the run that made its own block. */
  ghost predicate KnownOrigin(env: Env, recs: seq<Record>, earlier: seq<Origin>, o: Origin) {
    o in earlier || exists j :: 0 <= j < |recs| && Makes(env, recs[j]) && recs[j].origin == o
  }

  /** Every block that ran was made before the run, or in the same round or an earlier one. */
  ghost predicate Traced(env: Env, recs: seq<Record>, earlier: seq<Origin>) {
    forall i :: 0 <= i < |recs| && recs[i].code != [] ==> KnownOrigin(env, recs[..i + 1], earlier, recs[i].origin)
  }

  lemma OneMoreOrigin(env: Env, recs: seq<Record>, rec: Record, earlier: seq<Origin>, o: Origin)
    requires KnownOrigin(env, recs, earlier, o) || (Makes(env, rec) && o == rec.origin)
    ensures KnownOrigin(env, recs + [rec], earlier, o)
  {
    hide Makes;
    var all := recs + [rec];
    if o !in earlier {
      if j :| 0 <= j < |recs| && Makes(env, recs[j]) && recs[j].origin == o {
        assert all[j] == recs[j];
      } else {
        assert all[|recs|] == rec;
      }
    }
  }

  lemma OneMoreTraced(env: Env, recs: seq<Record>, rec: Record, earlier: seq<Origin>)
    requires Traced(env, recs, earlier) && (rec.code != [] ==> KnownOrigin(env, recs + [rec], earlier, rec.origin))
    ensures Traced(env, recs + [rec], earlier)
  {
    hide KnownOrigin;
    var all := recs + [rec];
    forall i | 0 <= i < |all| && all[i].code != [] ensures KnownOrigin(env, all[..i + 1], earlier, all[i].origin) {
      assert all[..i + 1] == if i < |recs| then recs[..i + 1] else all;
    }
  }

  lemma OneMoreRound(env: Env, recs: seq<Record>, rec: Record, stale: Word)
    requires IsRun(env, recs, stale) && IsRound(env, rec, stale) && (recs != [] ==> recs[|recs| - 1].after == rec.before)
    ensures IsRun(env, recs + [rec], stale)
  {
    hide IsRound;
  }

  lemma {:induction false} NoRounds(env: Env, m: Machine, decode: Word -> Inst, stale: Word)
    requires ConfigOk(m.arch.cfg) && DecodeOk(decode)
    ensures IsRun(env, [], stale) && JitRun(env, m, decode, RoundsOf(env, [], stale)) == m
  {
    hide ConfigOk, DecodeOk;
    assert RoundsOf(env, [], stale) == [];
  }

  lemma RoundOk(env: Env, rec: Record, stale: Word)
    requires IsRound(env, rec, stale)
    ensures ConfigOk(rec.before.arch.cfg)
  {
  }

  // ---------------------------------------------------------------- Runs without asynchronous exceptions

  /** A round in which nothing asynchronous is delivered, and in which a block's alignment fault, if it has one, leaves the
      DSISR that the interpreter leaves. */
  ghost predicate Synchronous(env: Env, rec: Record, stale: Word)
    requires IsRound(env, rec, stale)
  {
    var (m, v) := Fetch32(env, rec.before);
    v.LoadOk? ==>
      var r := RunBlock(env, m, rec.code, 0, stale);
      && (r.Next? ==> var ticked := WithCpu(r.m, Tick(r.m.cpu, |rec.code|)); Deliver(ticked) == ticked)
      && (r == Raised(r.m, Some(AlignFault)) ==>
            AlignDsisr(stale) == AlignDsisr(FaultWord(env, m, rec.code, 0, rec.host, stale)))
  }

  ghost function StepsIn(env: Env, rec: Record, stale: Word): nat
    requires IsRound(env, rec, stale)
  {
    var round := RoundOf(env, rec, stale);
    if round.FetchFault? then 0 else round.steps
  }

  ghost function StepsOver(env: Env, recs: seq<Record>, stale: Word): nat
    requires IsRun(env, recs, stale)
  {
    if recs == [] then 0 else StepsOver(env, recs[..|recs| - 1], stale) + StepsIn(env, recs[|recs| - 1], stale)
  }

  lemma EntryTwice(env: Env, m: Machine, decode: Word -> Inst)
    requires ConfigOk(m.arch.cfg) && DecodeOk(decode) && Fetch32(env, m).1.LoadFault?
    ensures NextInst(env, m, decode) == NextInst(env, FetchEntry(env, m), decode)
  {
    hide ConfigOk, Fetch32, RaiseMem, DecodeOk;
  }

  lemma {:induction false} EntryKeepsReads(env: Env, m: Machine, decode: Word -> Inst, n: nat)
    requires ConfigOk(m.arch.cfg) && DecodeOk(decode) && Fetch32(env, m).1.LoadFault? && NoClockReads(env, m, decode, n)
    ensures NoClockReads(env, FetchEntry(env, m), decode, n)
    ensures n > 0 ==> Steps(env, m, decode, n) == Steps(env, FetchEntry(env, m), decode, n)
  {
    hide ConfigOk, Fetch32, FetchEntry, Step, NextInst, DecodeOk, ReadsClock;
    EntryTwice(env, m, decode);
    StepAfterFetch(env, m, decode);
  }

  /** A round that ran a block, up to the clock. */
  lemma {:induction false} RanUpToClock(env: Env, rec: Record, decode: Word -> Inst, stale: Word)
    requires WellPlaced(env.devs) && DecodeOk(decode) && IsRound(env, rec, stale) && CodeStands(env, rec, decode, stale)
    requires Synchronous(env, rec, stale) && Fetch32(env, rec.before).1.LoadOk?
    ensures StepsIn(env, rec, stale) > 0
    ensures SameButClock(Steps(env, rec.before, decode, StepsIn(env, rec, stale)), rec.after)
  {
    hide ConfigOk, Fetch32, FetchesFrom, CodeOk, WellPlaced, RunBlock, CallsMade, Steps, Undisturbed, FaultWord,
         DecodeOk, AlignDsisr, Deliver, CodeStands;
    var m := Fetch32(env, rec.before).0;
    StandsUndisturbed(env, rec, decode, stale);
    RanIsSteps(env, rec, decode, stale);
    BlockIsSteps(env, m, decode, rec.code, 0, rec.host, stale);
    StepAfterTranslation(env, rec.before, decode);
    StepsFrom(env, rec.before, m, decode, CallsMade(env, m, rec.code, 0, stale));
  }

  lemma {:induction false} RoundUpToClock(env: Env, rec: Record, decode: Word -> Inst, stale: Word, n: nat)
    requires WellPlaced(env.devs) && DecodeOk(decode) && IsRound(env, rec, stale) && CodeStands(env, rec, decode, stale)
    requires Synchronous(env, rec, stale) && (n > 0 || !RoundOf(env, rec, stale).FetchFault?)
    requires ConfigOk(rec.before.arch.cfg) && NoClockReads(env, rec.before, decode, StepsIn(env, rec, stale) + n)
    ensures ConfigOk(rec.after.arch.cfg) && NoClockReads(env, rec.after, decode, n)
    ensures SameButClock(Steps(env, rec.before, decode, StepsIn(env, rec, stale) + n), Steps(env, rec.after, decode, n))
  {
    hide ConfigOk, WellPlaced, Fetch32, CodeStands, Synchronous, FetchesFrom, CodeOk, RunBlock, CallsMade, Steps,
         DecodeOk, Deliver, NoClockReads, SameButClock, RaiseMem;
    if Fetch32(env, rec.before).1.LoadFault? {
      assert rec.after == FetchEntry(env, rec.before);
      EntryKeepsReads(env, rec.before, decode, n);
      SameAsItself(Steps(env, rec.after, decode, n));
    } else {
      var k := StepsIn(env, rec, stale);
      RanUpToClock(env, rec, decode, stale);
      StepsSplit(env, rec.before, decode, k, n);
      StepsClock(env, Steps(env, rec.before, decode, k), rec.after, decode, n);
    }
  }

  lemma SameAsItself(m: Machine)
    ensures SameButClock(m, m)
  {
  }

  lemma SameThrice(m: Machine, m': Machine, m'': Machine)
    requires SameButClock(m, m') && SameButClock(m', m'')
    ensures SameButClock(m, m'')
  {
  }

  /** Over any number of rounds in which nothing asynchronous is delivered, no step reads DEC, and alignment faults leave the same
      DSISR: the JIT's machine is the interpreter's after as many steps as the blocks made calls, but for the clock. If the last
      round was a faulting fetch, that is so once a further step is taken. */
  lemma {:induction false} RunUpToClock(env: Env, recs: seq<Record>, decode: Word -> Inst, stale: Word, n: nat)
    requires WellPlaced(env.devs) && DecodeOk(decode) && recs != []
    ensures ClocklessRun(env, recs, decode, stale, n) ==>
      var last := recs[|recs| - 1].after;
      && ConfigOk(last.arch.cfg)
      && SameButClock(Steps(env, recs[0].before, decode, StepsOver(env, recs, stale) + n), Steps(env, last, decode, n))
  {
    hide *;
    if ClocklessRun(env, recs, decode, stale, n) {
      ClocklessRunIsSteps(env, recs, decode, stale, n);
    }
  }

  /** Rounds whose blocks were made from memory and left alone since, in which nothing is delivered and alignment faults leave the
      same DSISR; and interpreter steps, as many as they make calls and `n` more, none of which reads DEC. */
  ghost predicate ClocklessRun(env: Env, recs: seq<Record>, decode: Word -> Inst, stale: Word, n: nat)
    requires DecodeOk(decode) && recs != []
  {
    && IsRun(env, recs, stale) && AllSourced(env, recs, decode) && AllLeftAlone(env, recs, stale)
    && (forall i :: 0 <= i < |recs| ==> Synchronous(env, recs[i], stale))
    && (n > 0 || !RoundOf(env, recs[|recs| - 1], stale).FetchFault?)
    && ConfigOk(recs[0].before.arch.cfg) && NoClockReads(env, recs[0].before, decode, StepsOver(env, recs, stale) + n)
  }

  lemma {:induction false} ClocklessRunIsSteps(env: Env, recs: seq<Record>, decode: Word -> Inst, stale: Word, n: nat)
    requires WellPlaced(env.devs) && DecodeOk(decode) && recs != [] && ClocklessRun(env, recs, decode, stale, n)
    ensures var last := recs[|recs| - 1].after;
      && IsRun(env, recs, stale) && ConfigOk(recs[0].before.arch.cfg) && ConfigOk(last.arch.cfg)
      && NoClockReads(env, last, decode, n)
      && SameButClock(Steps(env, recs[0].before, decode, StepsOver(env, recs, stale) + n), Steps(env, last, decode, n))
  {
    hide ConfigOk, WellPlaced, IsRound, Sourced, LeftAlone, Synchronous, RoundOf, StepsIn, DecodeOk, NoClockReads, Steps,
         SameButClock;
    var k := |recs| - 1;
    var early, last := recs[..k], recs[k];
    var s := StepsIn(env, last, stale);
    StepsInPositive(env, last, decode, stale);
    if k > 0 {
      ClocklessRunIsSteps(env, early, decode, stale, s + n);
      RoundUpToClock(env, last, decode, stale, n);
      SameThrice(Steps(env, recs[0].before, decode, StepsOver(env, recs, stale) + n), Steps(env, last.before, decode, s + n),
                 Steps(env, last.after, decode, n));
    } else {
      assert StepsOver(env, early, stale) == 0;
      RoundUpToClock(env, last, decode, stale, n);
    }
  }

  lemma StepsInPositive(env: Env, rec: Record, decode: Word -> Inst, stale: Word)
    requires WellPlaced(env.devs) && DecodeOk(decode) && IsRound(env, rec, stale) && CodeStands(env, rec, decode, stale)
    ensures !RoundOf(env, rec, stale).FetchFault? ==> StepsIn(env, rec, stale) > 0
  {
    hide IsRound, CodeStands, RoundEnd, DecodeOk, WellPlaced, RoundOf;
    RoundIsSteps(env, rec, decode, stale);
  }
}
