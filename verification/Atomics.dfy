/** lwarx and stwcx. over runs with exceptions and context switches (PPCInterpreter_Memory.cc, PPCInterpreter_Special.cc,
    PPCInterpreter.h). Exceptions do not blow a reservation; rfi and every completed stwcx. do. */
module Atomics {
  import opened Words
  import opened MmuTypes
  import opened PageWalk
  import opened WalkSpec
  import opened BusMap
  import opened DirectTlb
  import opened DataPath
  import opened CpuTypes
  import opened Alu
  import opened Interp
  import opened Multiples
  import opened CodeFetch
  import CpuRuns
  import DataAccess

  /** One thing that happens to the machine: an instruction, whoever runs it; an exception from outside the instruction
      stream (an interrupt, the decrementer, a faulting fetch); or something that concerns neither data, registers nor the
      reservation (a fetch, which may set R bits, or a tick). */
  datatype Event = Do(i: Inst, inst: Word) | Trap | Quiet

  ghost predicate StepOk(env: Env, m: Machine, e: Event, m': Machine) {
    match e
    case Do(i, inst) => ConfigOk(m.arch.cfg) && InstOk(i) && m' == Exec(env, m, i, inst).m
    case Trap => m'.gen == m.gen && m'.resGen == m.resGen && m'.resAddr == m.resAddr && m'.data == m.data
    case Quiet =>
      && m'.gen == m.gen && m'.resGen == m.resGen && m'.resAddr == m.resAddr && m'.data == m.data
      && m'.cpu.gpr == m.cpu.gpr && m'.cpu.msr == m.cpu.msr
      && m'.arch == m.arch.(mem := m'.arch.mem) && OnlyRCGrew(m.arch.mem, m'.arch.mem)
  }

  ghost predicate Run(env: Env, ms: seq<Machine>, es: seq<Event>) {
    |ms| == |es| + 1 && forall k :: 0 <= k < |es| ==> StepOk(env, ms[k], es[k], ms[k + 1])
  }

  /** What a step means for whoever holds a reservation: nothing, a new reservation, or a change of context. */
  datatype Mark = Plain | Reserves(addr: Word) | Enters | Returns

  ghost function MarkOf(env: Env, m: Machine, e: Event): Mark
    requires e.Do? ==> ConfigOk(m.arch.cfg) && InstOk(e.i)
  {
    match e
    case Quiet => Plain
    case Trap => Enters
    case Do(i, inst) =>
      if Exec(env, m, i, inst).Raised? then Enters
      else if i.Rfi? then Returns
      else if i.Lwarx? then Reserves(EaOf(m.cpu, Indexed(i.ra, i.rb), false))
      else Plain
  }

  /** A stwcx. that completes, whether or not it stores. */
  ghost predicate Completes(env: Env, m: Machine, e: Event)
    requires e.Do? ==> ConfigOk(m.arch.cfg) && InstOk(e.i)
  {
    e.Do? && e.i.Stwcx? && Exec(env, m, e.i, e.inst).Next?
  }

  /** What one step does to the reservation: only an lwarx makes one, and the generation moves on at every rfi and every
      completed stwcx. */
  lemma ReservationStep(env: Env, m: Machine, e: Event, m': Machine)
    requires StepOk(env, m, e, m') && m.resGen <= m.gen
    ensures m'.gen == m.gen + (if MarkOf(env, m, e).Returns? || Completes(env, m, e) then 1 else 0)
    ensures var mark := MarkOf(env, m, e);
      && (mark.Reserves? ==> m'.resAddr == mark.addr && m'.resGen == m'.gen)
      && (mark.Plain? || mark.Returns? ==> m'.resAddr == m.resAddr && m'.resGen == m.resGen)
      && m'.resGen <= m'.gen
  {
    if e.Do? {
      ExecReservation(env, m, e.i, e.inst);
    }
  }

  lemma ExecReservation(env: Env, m: Machine, i: Inst, inst: Word)
    requires ConfigOk(m.arch.cfg) && InstOk(i) && m.resGen <= m.gen
    ensures var r := Exec(env, m, i, inst);
      && r.m.gen == m.gen + (if i.Rfi? || (i.Stwcx? && r.Next?) then 1 else 0)
      && (if i.Lwarx? then r.m.resGen == r.m.gen && r.m.resAddr == EaOf(m.cpu, Indexed(i.ra, i.rb), false)
          else r.m.resGen == m.resGen && r.m.resAddr == m.resAddr)
  {
    hide ConfigOk, ExecMemory, EaOf, RunAlu, Traps, RaiseProg, TakeException, WordAligned, NextPc, ReadSpr, WriteSpr,
         ArchStep, BranchOn, Condition, Goto, Link, Target, IR, DR;
    if IsMemory(i) {
      MemoryReservation(env, m, i, inst);
    }
  }

  lemma MemoryReservation(env: Env, m: Machine, i: Inst, inst: Word)
    requires ConfigOk(m.arch.cfg) && InstOk(i) && IsMemory(i)
    ensures var r := ExecMemory(env, m, i, inst);
      && r.m.gen == m.gen + (if i.Stwcx? && r.Next? then 1 else 0)
      && (if i.Lwarx? then r.m.resGen == r.m.gen && r.m.resAddr == EaOf(m.cpu, Indexed(i.ra, i.rb), false)
          else r.m.resGen == m.resGen && r.m.resAddr == m.resAddr)
  {
    hide ConfigOk, Load, Store, LoadMultiple, StoreMultiple, EaOf, MemFault, InHandler, NextPc;
  }

  // ---------------------------------------------------------------- Over a run

  ghost function MarkAt(env: Env, ms: seq<Machine>, es: seq<Event>, k: nat): Mark
    requires Run(env, ms, es) && k < |es|
  {
    assert StepOk(env, ms[k], es[k], ms[k + 1]);
    MarkOf(env, ms[k], es[k])
  }

  ghost predicate CompletesAt(env: Env, ms: seq<Machine>, es: seq<Event>, k: nat)
    requires Run(env, ms, es) && k < |es|
  {
    assert StepOk(env, ms[k], es[k], ms[k + 1]);
    Completes(env, ms[k], es[k])
  }

  /** Where the last step before `t` is that was not plain. */
  ghost function LastMark(env: Env, ms: seq<Machine>, es: seq<Event>, t: nat): (r: Option<nat>)
    requires Run(env, ms, es) && t <= |es|
    ensures r.Some? ==> r.value < t && !MarkAt(env, ms, es, r.value).Plain?
    ensures forall k :: (if r.Some? then r.value + 1 else 0) <= k < t ==> MarkAt(env, ms, es, k).Plain?
  {
    if t == 0 then None
    else if !MarkAt(env, ms, es, t - 1).Plain? then Some(t - 1)
    else LastMark(env, ms, es, t - 1)
  }

  /** No context begins with a stwcx.: between an exception entry, or the start of the run, and a stwcx. there is an lwarx,
      or the return to some context. */
  ghost predicate Disciplined(env: Env, ms: seq<Machine>, es: seq<Event>)
    requires Run(env, ms, es)
  {
    forall t :: 0 <= t < |es| && CompletesAt(env, ms, es, t) ==>
      var p := LastMark(env, ms, es, t);
      p.Some? && !MarkAt(env, ms, es, p.value).Enters?
  }

  /** A stwcx. that finds its reservation, and completes. */
  ghost predicate SucceedsAt(env: Env, ms: seq<Machine>, es: seq<Event>, t: nat)
    requires Run(env, ms, es) && t < |es|
  {
    CompletesAt(env, ms, es, t) && Reserved(ms[t], Address(ms[t], es[t].i))
  }

  function Address(m: Machine, i: Inst): Word
    requires i.Lwarx? || i.Stwcx?
  {
    EaOf(m.cpu, Indexed(i.ra, i.rb), false)
  }

  /** The generation never goes back, a reservation is never from the future, and plain steps keep it. */
  lemma {:induction false} GenerationsGrow(env: Env, ms: seq<Machine>, es: seq<Event>, j: nat, k: nat)
    requires Run(env, ms, es) && j <= k <= |es| && ms[j].resGen <= ms[j].gen
    ensures ms[k].resGen <= ms[k].gen && ms[j].gen <= ms[k].gen
    ensures (forall i :: j <= i < k ==> MarkAt(env, ms, es, i).Plain?) ==>
      && ms[k].resGen == ms[j].resGen && ms[k].resAddr == ms[j].resAddr
      && (ms[k].gen == ms[j].gen ==> forall i :: j <= i < k ==> !CompletesAt(env, ms, es, i))
  {
    hide MarkOf, Completes, StepOk;
    if j < k {
      GenerationsGrow(env, ms, es, j, k - 1);
      MarkIs(env, ms, es, k - 1);
      ReservationStep(env, ms[k - 1], es[k - 1], ms[k]);
    }
  }

  /** A successful stwcx. completes an uninterrupted stretch: since its lwarx, which completed and was of the same address,
      there has been no exception, no rfi, no other lwarx and no other completed stwcx., and so nothing but instructions
      of one context. */
  lemma Atomic(env: Env, ms: seq<Machine>, es: seq<Event>, t: nat) returns (p: nat)
    requires Run(env, ms, es) && Disciplined(env, ms, es) && ms[0].resGen <= ms[0].gen
    requires t < |es|
    ensures SucceedsAt(env, ms, es, t) ==>
      && p < t && MarkAt(env, ms, es, p) == Reserves(Address(ms[t], es[t].i))
      && forall k :: p < k < t ==> MarkAt(env, ms, es, k).Plain? && !CompletesAt(env, ms, es, k)
  {
    hide MarkAt, CompletesAt, StepOk, EaOf;
    p := 0;
    if SucceedsAt(env, ms, es, t) {
      p := LwarxOf(env, ms, es, t);
    }
  }

  lemma LwarxOf(env: Env, ms: seq<Machine>, es: seq<Event>, t: nat) returns (p: nat)
    requires Run(env, ms, es) && Disciplined(env, ms, es) && ms[0].resGen <= ms[0].gen
    requires t < |es| && SucceedsAt(env, ms, es, t)
    ensures p < t && MarkAt(env, ms, es, p) == Reserves(Address(ms[t], es[t].i))
    ensures forall k :: p < k < t ==> MarkAt(env, ms, es, k).Plain? && !CompletesAt(env, ms, es, k)
  {
    hide MarkAt, CompletesAt, StepOk, EaOf;
    var last := LastMark(env, ms, es, t);
    p := last.value;
    GenerationsGrow(env, ms, es, 0, p);
    assert StepOk(env, ms[p], es[p], ms[p + 1]);
    ReservationStep(env, ms[p], es[p], ms[p + 1]);
    MarkIs(env, ms, es, p);
    GenerationsGrow(env, ms, es, p + 1, t);
  }

  lemma MarkIs(env: Env, ms: seq<Machine>, es: seq<Event>, k: nat)
    requires Run(env, ms, es) && k < |es|
    ensures StepOk(env, ms[k], es[k], ms[k + 1]) && (es[k].Do? ==> ConfigOk(ms[k].arch.cfg) && InstOk(es[k].i))
    ensures MarkAt(env, ms, es, k) == MarkOf(env, ms[k], es[k])
    ensures CompletesAt(env, ms, es, k) == Completes(env, ms[k], es[k])
    ensures CompletesAt(env, ms, es, k) ==> es[k].Do? && es[k].i.Stwcx?
  {
  }

  // ---------------------------------------------------------------- Counters

  /** The word at a place in host memory. */
  function WordAt(m: Machine, host: nat): nat { Fetch(m.data.host, host, 4) }

  /** A successful stwcx. that stores at `host`. */
  ghost predicate StoresAt(env: Env, ms: seq<Machine>, es: seq<Event>, t: nat, host: nat)
    requires Run(env, ms, es) && t < |es|
  {
    SucceedsAt(env, ms, es, t) && Translate(env, ms[t], Address(ms[t], es[t].i), false, false).1 == Translated(host)
  }

  /** Nothing else writes the word. */
  ghost predicate OnlyStwcxWrites(env: Env, ms: seq<Machine>, es: seq<Event>, host: nat)
    requires Run(env, ms, es)
  {
    forall k :: 0 <= k < |es| && !StoresAt(env, ms, es, k, host) ==> WordAt(ms[k + 1], host) == WordAt(ms[k], host)
  }

  /** Each context computes what it stores from what its own lwarx found, as a function `f` of the word: an obligation on
      uninterrupted straight-line stretches only. */
  ghost predicate LocallyComputes(env: Env, ms: seq<Machine>, es: seq<Event>, host: nat, f: nat -> nat)
    requires Run(env, ms, es)
  {
    forall p, t ::
      0 <= p < t < |es| && StoresAt(env, ms, es, t, host) && MarkAt(env, ms, es, p) == Reserves(Address(ms[t], es[t].i))
      && (forall k :: p < k < t ==> MarkAt(env, ms, es, k).Plain?)
      ==> ms[t].cpu.gpr[es[t].i.rs] == f(WordAt(ms[p], host))
  }

  lemma {:induction false} WordKept(env: Env, ms: seq<Machine>, es: seq<Event>, host: nat, j: nat, k: nat)
    requires Run(env, ms, es) && OnlyStwcxWrites(env, ms, es, host) && j <= k <= |es|
    requires forall i :: j <= i < k ==> !CompletesAt(env, ms, es, i)
    ensures WordAt(ms[k], host) == WordAt(ms[j], host)
  {
    hide CompletesAt, WordAt, StepOk;
    if j < k {
      WordKept(env, ms, es, host, j, k - 1);
      assert !StoresAt(env, ms, es, k - 1, host);
    }
  }

  /** What a successful stwcx. leaves in memory. */
  lemma StoresRegister(env: Env, ms: seq<Machine>, es: seq<Event>, t: nat, host: nat)
    requires Run(env, ms, es) && t < |es| && StoresAt(env, ms, es, t, host) && IsDirect(host)
    ensures WordAt(ms[t + 1], host) == ms[t].cpu.gpr[es[t].i.rs]
  {
    hide ConfigOk, EaOf, Translate, MemFault, Put, Fetch, NextPc;
    MarkIs(env, ms, es, t);
    var m, i := ms[t], es[t].i;
    WholeWord(m.cpu.gpr[i.rs]);
    StoredWord(m.data.host, host, m.cpu.gpr[i.rs]);
  }

  /** How many successful stwcx. have stored at `host` in the first `n` steps. */
  ghost function Stores(env: Env, ms: seq<Machine>, es: seq<Event>, host: nat, n: nat): nat
    requires Run(env, ms, es) && n <= |es|
  {
    if n == 0 then 0 else Stores(env, ms, es, host, n - 1) + (if StoresAt(env, ms, es, n - 1, host) then 1 else 0)
  }

  function Iterate(f: nat -> nat, x: nat, n: nat): nat { if n == 0 then x else f(Iterate(f, x, n - 1)) }

  /** No update is lost: the word is the function applied as often as a stwcx. stored it. */
  lemma {:induction false} NoLostUpdate(env: Env, ms: seq<Machine>, es: seq<Event>, host: nat, f: nat -> nat, n: nat)
    requires Run(env, ms, es) && Disciplined(env, ms, es) && ms[0].resGen <= ms[0].gen && IsDirect(host) && n <= |es|
    requires OnlyStwcxWrites(env, ms, es, host) && LocallyComputes(env, ms, es, host, f)
    ensures WordAt(ms[n], host) == Iterate(f, WordAt(ms[0], host), Stores(env, ms, es, host, n))
  {
    hide WordAt, CompletesAt, MarkAt, StoresAt, Disciplined, StepOk, LocallyComputes;
    if n > 0 {
      NoLostUpdate(env, ms, es, host, f, n - 1);
      var t := n - 1;
      if StoresAt(env, ms, es, t, host) {
        OneUpdate(env, ms, es, host, f, t);
      }
    }
  }

  /** A successful stwcx. applies the function to what the word was just before. */
  lemma OneUpdate(env: Env, ms: seq<Machine>, es: seq<Event>, host: nat, f: nat -> nat, t: nat)
    requires Run(env, ms, es) && Disciplined(env, ms, es) && ms[0].resGen <= ms[0].gen && IsDirect(host) && t < |es|
    requires OnlyStwcxWrites(env, ms, es, host) && LocallyComputes(env, ms, es, host, f) && StoresAt(env, ms, es, t, host)
    ensures WordAt(ms[t + 1], host) == f(WordAt(ms[t], host))
  {
    hide WordAt, CompletesAt, MarkAt, SucceedsAt, Disciplined, StepOk, EaOf, Translate;
    var p := Atomic(env, ms, es, t);
    SucceedsCompletes(env, ms, es, t);
    MarkIs(env, ms, es, t);
    assert ms[t].cpu.gpr[es[t].i.rs] == f(WordAt(ms[p], host));
    NotReserving(env, ms, es, p);
    WordKept(env, ms, es, host, p, t);
    StoresRegister(env, ms, es, t, host);
  }

  lemma SucceedsCompletes(env: Env, ms: seq<Machine>, es: seq<Event>, t: nat)
    requires Run(env, ms, es) && t < |es| && SucceedsAt(env, ms, es, t)
    ensures CompletesAt(env, ms, es, t)
  {
  }

  /** An lwarx is not a stwcx. */
  lemma NotReserving(env: Env, ms: seq<Machine>, es: seq<Event>, p: nat)
    requires Run(env, ms, es) && p < |es| && MarkAt(env, ms, es, p).Reserves?
    ensures !CompletesAt(env, ms, es, p)
  {
    hide Exec, StepOk, EaOf;
  }

  function Successor(w: nat): nat { (w + 1) % WORD_LIMIT }

  lemma {:induction false} IterateSuccessor(x: nat, n: nat)
    requires x < WORD_LIMIT
    ensures Iterate(Successor, x, n) == (x + n) % WORD_LIMIT
  {
    if n > 0 {
      IterateSuccessor(x, n - 1);
      SuccessorOfWrapped(x + n - 1);
    } else {
      Unwrapped(x);
    }
    hide Successor;
  }

  lemma SuccessorOfWrapped(y: nat)
    ensures Successor(y % WORD_LIMIT) == (y + 1) % WORD_LIMIT
  {
    var q := y / WORD_LIMIT;
    assert y == q * WORD_LIMIT + y % WORD_LIMIT;
  }

  lemma Unwrapped(x: nat)
    requires x < WORD_LIMIT
    ensures x % WORD_LIMIT == x
  {
  }

  /** The code of a counter, as instructions: whenever a stwcx. stores at the word, what ran since the lwarx is an addi of 1 to
      the register that both use. */
  ghost predicate IncrementCode(env: Env, ms: seq<Machine>, es: seq<Event>, host: nat)
    requires Run(env, ms, es)
  {
    forall p, t ::
      0 <= p < t < |es| && StoresAt(env, ms, es, t, host) && MarkAt(env, ms, es, p) == Reserves(Address(ms[t], es[t].i))
      && (forall k :: p < k < t ==> MarkAt(env, ms, es, k).Plain?)
      ==> IncrementsBetween(es, p, t)
  }

  ghost predicate IncrementsBetween(es: seq<Event>, p: nat, t: nat)
    requires p < t < |es|
  {
    && es[p].Do? && es[p].i.Lwarx? && es[t].Do? && es[t].i.Stwcx? && es[p].i.rt == es[t].i.rs != 0
    && exists q {:trigger es[q]} :: p < q < t && AddsOne(es[q], es[p].i.rt) && AllQuiet(es, p + 1, q) && AllQuiet(es, q + 1, t)
  }

  predicate AddsOne(e: Event, r: Reg) { e.Do? && e.i == Integer(Addi(r, r, 1)) }

  ghost predicate AllQuiet(es: seq<Event>, j: nat, k: nat)
    requires k <= |es|
  {
    forall i :: j <= i < k ==> es[i].Quiet?
  }

  /** What a stretch without instructions, or an addi, leaves as it is. */
  ghost predicate SameButGprs(m: Machine, m': Machine) {
    && m'.data == m.data && m'.cpu.msr == m.cpu.msr
    && m'.arch == m.arch.(mem := m'.arch.mem) && OnlyRCGrew(m.arch.mem, m'.arch.mem)
  }

  lemma SameThrough(m: Machine, m': Machine, m'': Machine)
    requires SameButGprs(m, m') && SameButGprs(m', m'')
    ensures SameButGprs(m, m'')
  {
    hide OnlyRCGrew;
    OnlyRCGrewTrans(m.arch.mem, m'.arch.mem, m''.arch.mem);
  }

  lemma SameSelf(m: Machine)
    ensures SameButGprs(m, m)
  {
    GrewSelf(m.arch.mem);
    hide OnlyRCGrew;
  }

  lemma {:induction false} QuietStretch(env: Env, ms: seq<Machine>, es: seq<Event>, j: nat, k: nat)
    requires Run(env, ms, es) && j <= k <= |es| && AllQuiet(es, j, k)
    ensures SameButGprs(ms[j], ms[k]) && ms[k].cpu.gpr == ms[j].cpu.gpr
  {
    hide OnlyRCGrew, SameButGprs;
    if j < k {
      QuietStretch(env, ms, es, j, k - 1);
      assert StepOk(env, ms[k - 1], es[k - 1], ms[k]);
      QuietIsSame(env, ms[k - 1], es[k - 1], ms[k]);
      SameThrough(ms[j], ms[k - 1], ms[k]);
    } else {
      SameSelf(ms[j]);
    }
  }

  lemma QuietIsSame(env: Env, m: Machine, e: Event, m': Machine)
    requires e.Quiet? && StepOk(env, m, e, m')
    ensures SameButGprs(m, m') && m'.cpu.gpr == m.cpu.gpr
  {
    hide OnlyRCGrew;
  }

  lemma AddStep(env: Env, m: Machine, e: Event, r: Reg, m': Machine)
    requires StepOk(env, m, e, m') && AddsOne(e, r) && r != 0
    ensures SameButGprs(m, m') && m'.cpu.gpr[r] == Successor(m.cpu.gpr[r])
  {
    hide ConfigOk, OnlyRCGrew, NextPc;
    GrewSelf(m.arch.mem);
  }

  /** A load that was translated, and a later store to the same address, went to the same place. */
  lemma SamePlace(env: Env, m: Machine, m': Machine, ea: Word, host: nat, host': nat)
    requires WellPlaced(env.devs) && ConfigOk(m.arch.cfg)
    requires Translate(env, m, ea, false, true).1 == Translated(host)
    requires SameButGprs(Translate(env, m, ea, false, true).0, m')
    requires Translate(env, m', ea, false, false).1 == Translated(host')
    ensures host == host'
  {
    hide Walk, HostOf, WellPlaced, ConfigOk, OnlyRCGrew, Settled;
    var c, on, priv := m.arch.cfg, m.arch.dr, Privileged(m);
    var m'' := Walk(c, on, m'.arch.mem, BaseOf(ea), false, false, priv).1;
    var r := Walk(c, on, m.arch.mem, BaseOf(ea), false, true, priv).0;
    var w := Walk(c, on, m'.arch.mem, BaseOf(ea), false, false, priv).0;
    OffsetsCarry(env.devs, c, on, m.arch.mem, ea, false, true, priv);
    OffsetsCarry(env.devs, c, on, m'.arch.mem, ea, false, false, priv);
    assert Walk(c, on, m.arch.mem, ea, false, true, priv).0.WalkHit?;
    assert Walk(c, on, m'.arch.mem, ea, false, false, priv).0.WalkHit?;
    WalkGrowsRC(c, on, m'.arch.mem, BaseOf(ea), false, false, priv);
    GrewSelf(m'');
    OnlyRCGrewTrans(Walk(c, on, m.arch.mem, BaseOf(ea), false, true, priv).1, m'.arch.mem, m'');
    WalkSettles(c, on, m.arch.mem, m'', BaseOf(ea), false, true, priv);
    WalkSettles(c, on, m'.arch.mem, m'', BaseOf(ea), false, false, priv);
    SettledPlace(c, on, m'', BaseOf(ea), priv, r.pa, r.perms, w.pa, w.perms);
  }

  lemma SettledPlace(c: Config, on: bool, m: Mem, base: Word, priv: bool, pa: Word, perms: Perms, pa': Word, perms': Perms)
    requires ConfigOk(c) && Settled(c, on, m, base, false, priv, pa, perms) && Settled(c, on, m, base, false, priv, pa', perms')
    ensures pa == pa'
  {
    hide Walk, ConfigOk;
  }

  /** What an lwarx that completes loads. */
  lemma LwarxLoads(env: Env, m: Machine, i: Inst, inst: Word) returns (host: nat)
    requires ConfigOk(m.arch.cfg) && i.Lwarx? && InstOk(i) && Exec(env, m, i, inst).Next?
    ensures Translate(env, m, Address(m, i), false, true).1 == Translated(host)
    ensures var m' := Exec(env, m, i, inst).m;
      && SameButGprs(Translate(env, m, Address(m, i), false, true).0, m')
      && (IsDirect(host) ==> m'.cpu.gpr[i.rt] == WordAt(m, host))
  {
    hide ConfigOk, EaOf, Translate, MemFault, Fetch, NextPc, OnlyRCGrew;
    var (m', out) := Translate(env, m, Address(m, i), false, true);
    host := out.host;
    GrewSelf(m'.arch.mem);
    FetchWordBound(m.data.host, host);
    if IsDirect(host) {
      DirectWord(env, m', host, Fetch(m.data.host, host, 4));
    }
  }

  /** So such code stores the successor of what its lwarx found. */
  lemma IncrementCodeComputes(env: Env, ms: seq<Machine>, es: seq<Event>, host: nat)
    requires Run(env, ms, es) && WellPlaced(env.devs) && IsDirect(host) && IncrementCode(env, ms, es, host)
    ensures LocallyComputes(env, ms, es, host, Successor)
  {
    hide MarkAt, IncrementsBetween, WellPlaced, Successor, WordAt, StepOk, Translate, Reserved, EaOf;
    forall p, t |
      0 <= p < t < |es| && StoresAt(env, ms, es, t, host) && MarkAt(env, ms, es, p) == Reserves(Address(ms[t], es[t].i))
      && (forall k :: p < k < t ==> MarkAt(env, ms, es, k).Plain?)
      ensures ms[t].cpu.gpr[es[t].i.rs] == Successor(WordAt(ms[p], host))
    {
      assert IncrementsBetween(es, p, t);
      OneIncrement(env, ms, es, host, p, t);
    }
  }

  lemma OneIncrement(env: Env, ms: seq<Machine>, es: seq<Event>, host: nat, p: nat, t: nat)
    requires Run(env, ms, es) && WellPlaced(env.devs) && IsDirect(host) && p < t < |es| && IncrementsBetween(es, p, t)
    requires StoresAt(env, ms, es, t, host) && MarkAt(env, ms, es, p) == Reserves(Address(ms[t], es[t].i))
    ensures ms[t].cpu.gpr[es[t].i.rs] == Successor(WordAt(ms[p], host))
  {
    hide WellPlaced, Successor, WordAt, Translate, EaOf, Exec, ConfigOk, SameButGprs, OnlyRCGrew, SucceedsAt, MarkAt,
         CompletesAt, StepOk, AllQuiet;
    var r := es[p].i.rt;
    var q :| p < q < t && AddsOne(es[q], r) && AllQuiet(es, p + 1, q) && AllQuiet(es, q + 1, t);
    MarkIs(env, ms, es, p);
    MarkIs(env, ms, es, q);
    LwarxStep(env, ms[p], es[p], ms[p + 1], Address(ms[t], es[t].i));
    var place := LwarxLoads(env, ms[p], es[p].i, es[p].inst);
    QuietStretch(env, ms, es, p + 1, q);
    AddStep(env, ms[q], es[q], r, ms[q + 1]);
    QuietStretch(env, ms, es, q + 1, t);
    var m' := Translate(env, ms[p], Address(ms[p], es[p].i), false, true).0;
    SameThrough(m', ms[p + 1], ms[q]);
    SameThrough(m', ms[q], ms[q + 1]);
    SameThrough(m', ms[q + 1], ms[t]);
    SamePlace(env, ms[p], ms[t], Address(ms[p], es[p].i), place, host);
  }

  lemma LwarxStep(env: Env, m: Machine, e: Event, m': Machine, addr: Word)
    requires e.Do? && e.i.Lwarx? && StepOk(env, m, e, m') && MarkOf(env, m, e) == Reserves(addr)
    ensures ConfigOk(m.arch.cfg) && InstOk(e.i) && Exec(env, m, e.i, e.inst) == Next(m') && addr == Address(m, e.i)
  {
    hide Exec, EaOf, ConfigOk;
  }

  lemma WordBound(m: Machine, host: nat)
    ensures WordAt(m, host) < WORD_LIMIT
  {
    hide Fetch;
    FetchWordBound(m.data.host, host);
  }

  /** A shared counter incremented by lwarx, addi and stwcx. ends at its start plus the number of successful stwcx. */
  lemma {:induction false} CounterCounts(env: Env, ms: seq<Machine>, es: seq<Event>, host: nat)
    requires Run(env, ms, es) && Disciplined(env, ms, es) && ms[0].resGen <= ms[0].gen && IsDirect(host) && WellPlaced(env.devs)
    requires OnlyStwcxWrites(env, ms, es, host) && IncrementCode(env, ms, es, host)
    ensures WordAt(ms[|es|], host) == (WordAt(ms[0], host) + Stores(env, ms, es, host, |es|)) % WORD_LIMIT
  {
    hide WordAt, Disciplined, OnlyStwcxWrites, LocallyComputes, Stores, StepOk, Iterate, IncrementCode, WellPlaced;
    IncrementCodeComputes(env, ms, es, host);
    NoLostUpdate(env, ms, es, host, Successor, |es|);
    WordBound(ms[0], host);
    IterateSuccessor(WordAt(ms[0], host), Stores(env, ms, es, host, |es|));
  }

  lemma {:induction false} FetchWordBound(h: HostMem, a: nat)
    ensures Fetch(h, a, 4) < WORD_LIMIT
  {
    FetchBound(h, a, 4);
    WordLimit4();
  }

  // ---------------------------------------------------------------- What the guest is told

  /** lwarx reserves the sum of its registers, and loads from there as any load does. */
  lemma LwarxReserves(env: Env, m: Machine, rt: Reg, ra: Reg, rb: Reg, inst: Word)
    requires ConfigOk(m.arch.cfg) && WellPlaced(env.devs)
    ensures var r := Exec(env, m, Lwarx(rt, ra, rb), inst);
      var addr := DataAccess.Address(m.cpu, Indexed(ra, rb), false);
      var (m', out) := Translate(env, m, addr, false, true);
      && r.m.resAddr == addr && r.m.resGen == r.m.gen == m.gen
      && (r.Next? <==> out.Translated? && out.host % 8 <= 4)
      && (r.Next? ==>
            var v := DataAccess.Found(env, m.data, out.host, 4);
            && v < 0x1_0000_0000
            && r.m == m'.(cpu := m.cpu.(pc := (m.cpu.pc + 4) % 0x1_0000_0000, gpr := m.cpu.gpr[rt := v]),
                          resAddr := addr, resGen := m.gen))
  {
    hide ConfigOk, Translate, EaOf, MemFault, ReadHost, WellPlaced, DataAccess.Found, DataAccess.Address;
    DataAccess.AddressIs(m.cpu, Indexed(ra, rb), false);
    DataAccess.FoundThere(env, m, DataAccess.Address(m.cpu, Indexed(ra, rb), false), true, 4);
  }

  /** The address of a stwcx. is that of the reservation, which is of this generation. */
  predicate Holds(m: Machine, ra: Reg, rb: Reg) {
    DataAccess.Address(m.cpu, Indexed(ra, rb), false) == m.resAddr && m.gen == m.resGen
  }

  /** A stwcx. that completes says in EQ whether it held its reservation, which is whether it has stored; LT and GT are clear, and SO
      is copied. Without the reservation it always completes. */
  lemma StwcxAnswers(env: Env, m: Machine, rs: Reg, ra: Reg, rb: Reg, inst: Word)
    requires ConfigOk(m.arch.cfg) && WellPlaced(env.devs)
    ensures var r, held := Exec(env, m, Stwcx(rs, ra, rb), inst), Holds(m, ra, rb);
      var (m', out) := Translate(env, m, DataAccess.Address(m.cpu, Indexed(ra, rb), false), false, false);
      && (r.Next? <==> held ==> out.Translated? && out.host % 8 <= 4)
      && (r.Next? ==>
            && r.m.cpu.cr[0] == (if held then 2 else 0) + (if m.cpu.so then 1 else 0)
            && (CrBit(r.m.cpu, 2) <==> held) && !CrBit(r.m.cpu, 0) && !CrBit(r.m.cpu, 1) && (CrBit(r.m.cpu, 3) <==> m.cpu.so)
            && r.m.cpu == m.cpu.(cr := m.cpu.cr[0 := r.m.cpu.cr[0]], pc := (m.cpu.pc + 4) % 0x1_0000_0000)
            && r.m == (if held then m' else m).(cpu := r.m.cpu, data := r.m.data, gen := m.gen + 1)
            && (if held then DataAccess.Left(m.data, r.m.data, out.host, 4, m.cpu.gpr[rs]) else r.m.data == m.data))
  {
    hide ConfigOk, Translate, EaOf, MemFault, StoreVia, WellPlaced, DataAccess.Left, DataAccess.Address, Truncate, InHandler;
    DataAccess.AddressIs(m.cpu, Indexed(ra, rb), false);
    DataAccess.LeftThere(env, m, DataAccess.Address(m.cpu, Indexed(ra, rb), false), 4, m.cpu.gpr[rs]);
  }

  /** A stwcx. whose address translates to `host`, and that told the guest in EQ that it had stored. */
  ghost predicate ReportsAt(env: Env, ms: seq<Machine>, es: seq<Event>, t: nat, host: nat)
    requires Run(env, ms, es) && t < |es|
  {
    && CompletesAt(env, ms, es, t) && CrBit(ms[t + 1].cpu, 2)
    && Translate(env, ms[t], DataAccess.Address(ms[t].cpu, Indexed(es[t].i.ra, es[t].i.rb), false), false, false).1
       == Translated(host)
  }

  /** How many there were in the first `n` steps. */
  ghost function Reported(env: Env, ms: seq<Machine>, es: seq<Event>, host: nat, n: nat): nat
    requires Run(env, ms, es) && n <= |es|
  {
    if n == 0 then 0 else Reported(env, ms, es, host, n - 1) + (if ReportsAt(env, ms, es, n - 1, host) then 1 else 0)
  }

  lemma ReportsIff(env: Env, ms: seq<Machine>, es: seq<Event>, t: nat, host: nat)
    requires Run(env, ms, es) && t < |es| && WellPlaced(env.devs)
    ensures ReportsAt(env, ms, es, t, host) <==> StoresAt(env, ms, es, t, host)
  {
    hide ConfigOk, Translate, EaOf, Exec, WellPlaced, DataAccess.Left, DataAccess.Address, StepOk, CrBit;
    MarkIs(env, ms, es, t);
    if CompletesAt(env, ms, es, t) {
      var m, i := ms[t], es[t].i;
      assert StepOk(env, m, es[t], ms[t + 1]);
      CompletedExec(env, m, es[t], ms[t + 1]);
      StwcxAnswers(env, m, i.rs, i.ra, i.rb, es[t].inst);
      DataAccess.AddressIs(m.cpu, Indexed(i.ra, i.rb), false);
    }
  }

  lemma CompletedExec(env: Env, m: Machine, e: Event, m': Machine)
    requires StepOk(env, m, e, m') && e.Do? && e.i.Stwcx?
    requires ConfigOk(m.arch.cfg) && InstOk(e.i) && Completes(env, m, e)
    ensures Exec(env, m, Stwcx(e.i.rs, e.i.ra, e.i.rb), e.inst) == Next(m')
  {
    hide ConfigOk, Exec;
  }

  lemma {:induction false} ReportedIsStores(env: Env, ms: seq<Machine>, es: seq<Event>, host: nat, n: nat)
    requires Run(env, ms, es) && n <= |es| && WellPlaced(env.devs)
    ensures Reported(env, ms, es, host, n) == Stores(env, ms, es, host, n)
  {
    hide ReportsAt, StoresAt, StepOk, WellPlaced;
    if n > 0 {
      ReportedIsStores(env, ms, es, host, n - 1);
      ReportsIff(env, ms, es, n - 1, host);
    }
  }

  /** So the counter has gone up by as much as the guest was told. */
  lemma {:induction false} CounterReported(env: Env, ms: seq<Machine>, es: seq<Event>, host: nat)
    requires Run(env, ms, es) && Disciplined(env, ms, es) && ms[0].resGen <= ms[0].gen && IsDirect(host) && WellPlaced(env.devs)
    requires OnlyStwcxWrites(env, ms, es, host) && IncrementCode(env, ms, es, host)
    ensures WordAt(ms[|es|], host) == (WordAt(ms[0], host) + Reported(env, ms, es, host, |es|)) % 0x1_0000_0000
  {
    hide WordAt, Disciplined, OnlyStwcxWrites, Stores, Reported, StepOk, IncrementCode, WellPlaced;
    CounterCounts(env, ms, es, host);
    ReportedIsStores(env, ms, es, host, |es|);
  }

  // ---------------------------------------------------------------- Runs of the machine are such runs

  /** What happens in a turn of the main loop: a fetch, after a trap if it faulted first, the instruction that was fetched, a tick,
      and a trap if something asynchronous is delivered. */
  function TurnEvents(env: Env, m: Machine, decode: Word -> Inst): (es: seq<Event>)
    requires ConfigOk(m.arch.cfg) && DecodeOk(decode)
  {
    hide ConfigOk, Step, FetchLoop, Fetch32, Tick;
    var w := FetchLoop(env, m).1;
    var ticked := Tick(Step(env, m, decode).cpu, 1);
    (if Fetch32(env, m).1.LoadFault? then [Trap] else []) + [Quiet, Do(decode(w), w), Quiet]
    + (if IrqPending(ticked) || DecPending(ticked) then [Trap] else [])
  }

  /** And over any run of turns and changes of the interrupt line. */
  function PlayEvents(env: Env, m: Machine, decode: Word -> Inst, events: seq<CpuRuns.Event>): seq<Event>
    requires ConfigOk(m.arch.cfg) && DecodeOk(decode)
  {
    hide ConfigOk, DecodeOk, TurnEvents;
    if events == [] then []
    else
      var early := events[..|events| - 1];
      PlayEvents(env, m, decode, early)
      + (if events[|events| - 1].RunTurn? then TurnEvents(env, CpuRuns.Play(env, m, decode, early), decode) else [Quiet])
  }

  /** A run from one machine to another. */
  ghost predicate Leads(env: Env, ms: seq<Machine>, es: seq<Event>, m: Machine, m': Machine) {
    Run(env, ms, es) && ms[0] == m && ms[|es|] == m'
  }

  lemma OneEvent(env: Env, m: Machine, e: Event, m': Machine)
    requires StepOk(env, m, e, m')
    ensures Leads(env, [m, m'], [e], m, m')
  {
    hide StepOk;
  }

  lemma Joined(env: Env, ms: seq<Machine>, es: seq<Event>, ms': seq<Machine>, es': seq<Event>,
               m: Machine, m': Machine, m'': Machine)
    requires Leads(env, ms, es, m, m') && Leads(env, ms', es', m', m'')
    ensures Leads(env, ms + ms'[1..], es + es', m, m'')
  {
    hide StepOk;
    var all, events := ms + ms'[1..], es + es';
    forall k | 0 <= k < |events| ensures StepOk(env, all[k], events[k], all[k + 1]) {
      if k < |es| {
        assert StepOk(env, ms[k], es[k], ms[k + 1]);
      } else {
        assert StepOk(env, ms'[k - |es|], es'[k - |es|], ms'[k - |es| + 1]);
        assert all[k] == ms'[k - |es|];
      }
    }
  }

  lemma FetchIsQuiet(env: Env, m: Machine)
    requires WellPlaced(env.devs) && ConfigOk(m.arch.cfg)
    ensures var (m', v) := Fetch32(env, m);
      && StepOk(env, m, Quiet, m') && ConfigOk(m'.arch.cfg)
      && (v.LoadFault? ==> var e := RaiseMem(m', true, true, m.cpu.pc, v.fault, 0);
                           StepOk(env, m, Trap, e) && ConfigOk(e.arch.cfg) && !e.arch.ir)
  {
    hide ConfigOk, ReadHost, OnlyRCGrew, WellPlaced, MemFaultRegs, ScratchTranslate;
    FetchSettles(env.devs, m.arch, Privileged(m), m.cpu.pc);
  }

  /** The fetch loop, with the trap that a faulting fetch begins with. */
  lemma {:induction false} FetchIsRun(env: Env, m: Machine) returns (ms: seq<Machine>)
    requires WellPlaced(env.devs) && ConfigOk(m.arch.cfg)
    ensures Leads(env, ms, (if Fetch32(env, m).1.LoadFault? then [Trap] else []) + [Quiet], m, FetchLoop(env, m).0)
    ensures ConfigOk(FetchLoop(env, m).0.arch.cfg)
  {
    hide ConfigOk, StepOk, WellPlaced, Leads, RaiseMem, Fetch32;
    var (m', v) := Fetch32(env, m);
    FetchIsQuiet(env, m);
    if v.LoadFault? {
      var e := RaiseMem(m', true, true, m.cpu.pc, v.fault, 0);
      var (e', _) := Fetch32(env, e);
      FetchIsQuiet(env, e);
      OneEvent(env, m, Trap, e);
      OneEvent(env, e, Quiet, e');
      Joined(env, [m, e], [Trap], [e, e'], [Quiet], m, e, e');
      ms := [m, e] + [e, e'][1..];
    } else {
      OneEvent(env, m, Quiet, m');
      ms := [m, m'];
      assert [] + [Quiet] == [Quiet];
    }
  }

  lemma TickIsQuiet(env: Env, m: Machine)
    ensures StepOk(env, m, Quiet, WithCpu(m, Tick(m.cpu, 1)))
    ensures forall on :: StepOk(env, m, Quiet, WithCpu(m, m.cpu.(irq := on)))
    ensures IrqPending(m.cpu) || DecPending(m.cpu) ==> StepOk(env, m, Trap, Deliver(m))
    ensures !IrqPending(m.cpu) && !DecPending(m.cpu) ==> Deliver(m) == m
  {
    GrewSelf(m.arch.mem);
    hide OnlyRCGrew, EntryRegs, IrqPending, DecPending;
  }

  lemma {:induction false} StepIs(env: Env, m: Machine, decode: Word -> Inst)
    requires ConfigOk(m.arch.cfg) && DecodeOk(decode)
    ensures var (f, w) := FetchLoop(env, m);
      ConfigOk(f.arch.cfg) && StepOk(env, f, Do(decode(w), w), Step(env, m, decode))
  {
    hide ConfigOk, FetchLoop, Exec, InstOk;
  }

  /** A turn of the main loop is a run of these steps. */
  lemma {:induction false} TurnIsRun(env: Env, m: Machine, decode: Word -> Inst) returns (ms: seq<Machine>)
    requires WellPlaced(env.devs) && ConfigOk(m.arch.cfg) && DecodeOk(decode)
    ensures Leads(env, ms, TurnEvents(env, m, decode), m, Turn(env, m, decode)) && ms != []
  {
    hide ConfigOk, StepOk, WellPlaced, Leads, FetchLoop, Fetch32, Step, Tick, Deliver, DecodeOk, IrqPending, DecPending;
    var fetch := (if Fetch32(env, m).1.LoadFault? then [Trap] else []) + [Quiet];
    var (f, w) := FetchLoop(env, m);
    var s := Step(env, m, decode);
    var t := WithCpu(s, Tick(s.cpu, 1));
    ms := FetchIsRun(env, m);
    StepIs(env, m, decode);
    OneEvent(env, f, Do(decode(w), w), s);
    TickIsQuiet(env, s);
    OneEvent(env, s, Quiet, t);
    Joined(env, [f, s], [Do(decode(w), w)], [s, t], [Quiet], f, s, t);
    Joined(env, ms, fetch, [f, s] + [s, t][1..], [Do(decode(w), w)] + [Quiet], m, f, t);
    ms := ms + ([f, s] + [s, t][1..])[1..];
    var es := fetch + ([Do(decode(w), w)] + [Quiet]);
    TickIsQuiet(env, t);
    if IrqPending(t.cpu) || DecPending(t.cpu) {
      OneEvent(env, t, Trap, Deliver(t));
      Joined(env, ms, es, [t, Deliver(t)], [Trap], m, t, Deliver(t));
      ms := ms + [t, Deliver(t)][1..];
      assert TurnEvents(env, m, decode) == es + [Trap];
    } else {
      assert TurnEvents(env, m, decode) == es;
    }
  }

  /** So is every run of the machine, whatever happens to the interrupt line in between. */
  lemma {:induction false} PlayIsRun(env: Env, m: Machine, decode: Word -> Inst, events: seq<CpuRuns.Event>)
    returns (ms: seq<Machine>)
    requires WellPlaced(env.devs) && ConfigOk(m.arch.cfg) && DecodeOk(decode)
    ensures Leads(env, ms, PlayEvents(env, m, decode, events), m, CpuRuns.Play(env, m, decode, events))
    decreases |events|
  {
    hide ConfigOk, StepOk, WellPlaced, Leads, Turn, DecodeOk, TurnEvents;
    if events == [] {
      NothingHappens(env, m);
      ms := [m];
    } else {
      var early := events[..|events| - 1];
      var before := CpuRuns.Play(env, m, decode, early);
      ms := PlayIsRun(env, m, decode, early);
      var es := PlayEvents(env, m, decode, early);
      match events[|events| - 1]
      case RunTurn =>
        var more := TurnIsRun(env, before, decode);
        Joined(env, ms, es, more, TurnEvents(env, before, decode), m, before, Turn(env, before, decode));
        ms := ms + more[1..];
      case IrqLine(on) =>
        var after := WithCpu(before, before.cpu.(irq := on));
        TickIsQuiet(env, before);
        OneEvent(env, before, Quiet, after);
        Joined(env, ms, es, [before, after], [Quiet], m, before, after);
        ms := ms + [before, after][1..];
    }
  }

  /** The counter over every run of the machine. */
  lemma {:induction false} CounterInPlay(env: Env, m: Machine, decode: Word -> Inst, events: seq<CpuRuns.Event>, host: nat)
    returns (ms: seq<Machine>)
    requires WellPlaced(env.devs) && ConfigOk(m.arch.cfg) && DecodeOk(decode) && IsDirect(host) && m.resGen <= m.gen
    ensures var es := PlayEvents(env, m, decode, events);
      && Leads(env, ms, es, m, CpuRuns.Play(env, m, decode, events))
      && (Disciplined(env, ms, es) && OnlyStwcxWrites(env, ms, es, host) && IncrementCode(env, ms, es, host) ==>
            WordAt(CpuRuns.Play(env, m, decode, events), host)
            == (WordAt(m, host) + Reported(env, ms, es, host, |es|)) % 0x1_0000_0000)
  {
    hide ConfigOk, StepOk, WellPlaced, DecodeOk, PlayEvents, CpuRuns.Play, Disciplined, OnlyStwcxWrites, IncrementCode,
         WordAt, Reported;
    ms := PlayIsRun(env, m, decode, events);
    var es := PlayEvents(env, m, decode, events);
    if Disciplined(env, ms, es) && OnlyStwcxWrites(env, ms, es, host) && IncrementCode(env, ms, es, host) {
      CounterReported(env, ms, es, host);
    }
  }

  lemma NothingHappens(env: Env, m: Machine)
    ensures Leads(env, [m], [], m, m)
  {
  }
}
