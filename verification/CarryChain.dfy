/** Multi-word addition and subtraction with addc/adde and subfc/subfe (inst_utility.h, tools/PPC.csv). */
module CarryChain {
  import opened Words
  import opened CpuTypes
  import opened Alu

  /** The registers a chain uses. */
  datatype Regs = Regs(rt: Reg, ra: Reg, rb: Reg)

  predicate RegsOk(g: Regs) { g.ra != g.rb }

  /** One word of a chain: the operands are brought into RA and RB, by instructions that leave CA alone, and added or
      subtracted; the first word uses addc or subfc, the others adde or subfe. */
  function Word1(c: Cpu, g: Regs, sub: bool, first: bool, oe: bool, x: Word, y: Word): Cpu {
    var ci := if first then (if sub then One else NoCarry) else Ca;
    RunAlu(SetGpr(SetGpr(c, g.ra, x), g.rb, y), AddX(g.rt, g.ra, sub, RegB(g.rb), ci, true, oe, false))
  }

  /** The first `n` words of a chain over little-endian operands: the CPU afterwards and the words of the result.
      `oe` says which instructions have their OE bit set. */
  function Chain(c: Cpu, g: Regs, sub: bool, oe: seq<bool>, a: seq<Word>, b: seq<Word>, n: nat): (r: (Cpu, seq<Word>))
    requires n <= |a| && n <= |b| && n <= |oe|
    ensures |r.1| == n
  {
    if n == 0 then (c, [])
    else
      var (d, r) := Chain(c, g, sub, oe, a, b, n - 1);
      var e := Word1(d, g, sub, n == 1, oe[n - 1], a[n - 1], b[n - 1]);
      (e, r + [e.gpr[g.rt]])
  }

  function Base(n: nat): (r: nat)
    ensures r > 0
  {
    if n == 0 then 1 else WORD_LIMIT * Base(n - 1)
  }

  /** The number whose first `n` little-endian words are given. */
  function Value(s: seq<Word>, n: nat): nat
    requires n <= |s|
  {
    if n == 0 then 0 else Value(s, n - 1) + Scaled(s[n - 1], n - 1)
  }

  function Scaled(w: nat, n: nat): nat { w * Base(n) }

  /** The same words as a two's complement number. */
  function SignedValue(s: seq<Word>, n: nat): int
    requires 0 < n <= |s|
  {
    Value(s, n) - (if s[n - 1] >= HALF then Base(n) else 0)
  }

  function Complement(s: seq<Word>): seq<Word> { seq(|s|, i requires 0 <= i < |s| => Not(s[i])) }

  function Operand(s: seq<Word>, sub: bool): seq<Word> { if sub then Complement(s) else s }

  function CarryIn(c: Cpu, sub: bool, first: bool): nat { if (if first then sub else c.ca) then 1 else 0 }

  lemma AddScaled(x: nat, y: nat, n: nat)
    ensures Scaled(x + y, n) == Scaled(x, n) + Scaled(y, n)
  {
  }

  lemma ScaledUnits(n: nat)
    ensures Scaled(1, n) == Base(n) && Scaled(0, n) == 0 && Scaled(WORD_LIMIT, n) == Base(n + 1)
  {
  }

  /** A word, its carry in and its carry out. */
  lemma WordSum(c: Cpu, g: Regs, sub: bool, first: bool, oe: bool, x: Word, y: Word)
    requires RegsOk(g)
    ensures var d := Word1(c, g, sub, first, oe, x, y);
      && d.gpr[g.rt] + (if d.ca then WORD_LIMIT else 0) == (if sub then Not(x) else x) + y + CarryIn(c, sub, first)
      && (oe ==> d.ov == AddOvCoCi(if sub then Not(x) else x, y, CarryIn(c, sub, first)).ov && (d.ov ==> d.so))
      && (c.so ==> d.so)
  {
    hide AddOvCoCi, Not, Compare;
    var k := if sub then Not(x) else x;
    var loaded := SetGpr(SetGpr(c, g.ra, x), g.rb, y);
    AluKeeps(loaded, AddX(g.rt, g.ra, sub, RegB(g.rb), if first then (if sub then One else NoCarry) else Ca, true, oe, false));
    SumParts(k, y, CarryIn(c, sub, first));
  }

  lemma SumParts(a: Word, b: Word, ci: nat)
    requires ci <= 1
    ensures var s := AddOvCoCi(a, b, ci); s.val + (if s.co then WORD_LIMIT else 0) == a + b + ci
  {
  }

  /** The words of the result and the carry out hold the sum of the operands. */
  lemma {:induction false} ChainSum(c: Cpu, g: Regs, sub: bool, oe: seq<bool>, a: seq<Word>, b: seq<Word>, n: nat)
    requires RegsOk(g) && n <= |a| && n <= |b| && n <= |oe|
    ensures var (d, r) := Chain(c, g, sub, oe, a, b, n);
      && Value(r, n) + Scaled(CarryIn(d, sub, n == 0), n) == Value(Operand(a, sub), n) + Value(b, n) + (if sub then 1 else 0)
      && (c.so ==> d.so)
  {
    hide Scaled, Word1, Base;
    if n == 0 {
      ScaledZero(CarryIn(c, sub, true));
    } else {
      var (d, r) := Chain(c, g, sub, oe, a, b, n - 1);
      var (e, r') := Chain(c, g, sub, oe, a, b, n);
      ChainSum(c, g, sub, oe, a, b, n - 1);
      WordSum(d, g, sub, n == 1, oe[n - 1], a[n - 1], b[n - 1]);
      SamePrefix(r, r', n - 1);
      var x: nat, y: nat, cin := Operand(a, sub)[n - 1], b[n - 1], CarryIn(d, sub, n == 1);
      AddScaled(x + y, cin, n - 1);
      AddScaled(x, y, n - 1);
      AddScaled(e.gpr[g.rt], if e.ca then WORD_LIMIT else 0, n - 1);
      ScaledUnits(n - 1);
      ScaledUnits(n);
    }
  }

  lemma ScaledZero(k: nat)
    ensures Scaled(k, 0) == k
  {
  }

  lemma {:induction false} SamePrefix(r: seq<Word>, s: seq<Word>, n: nat)
    requires n <= |r| && n <= |s| && forall i :: 0 <= i < n ==> r[i] == s[i]
    ensures Value(r, n) == Value(s, n)
  {
    if n > 0 {
      SamePrefix(r, s, n - 1);
    }
  }

  lemma {:induction false} ComplementValue(s: seq<Word>, n: nat)
    requires n <= |s|
    ensures Value(Complement(s), n) + Value(s, n) + 1 == Base(n)
  {
    hide Scaled;
    if n > 0 {
      ComplementValue(s, n - 1);
      AddScaled(Not(s[n - 1]), s[n - 1], n - 1);
      AddScaled(WORD_LIMIT - 1, 1, n - 1);
      ScaledUnits(n - 1);
    }
  }

  /** addc then adde: the n-word sum, with the carry out in CA. */
  lemma {:induction false} AddChain(c: Cpu, g: Regs, oe: seq<bool>, a: seq<Word>, b: seq<Word>, n: nat)
    requires RegsOk(g) && 0 < n <= |a| && n <= |b| && n <= |oe|
    ensures var (d, r) := Chain(c, g, false, oe, a, b, n);
      && Value(r, n) + (if d.ca then Base(n) else 0) == Value(a, n) + Value(b, n)
      && Value(r, n) < Base(n) && (c.so ==> d.so)
  {
    var (d, r) := Chain(c, g, false, oe, a, b, n);
    ChainSum(c, g, false, oe, a, b, n);
    ScaledUnits(n);
    ComplementValue(r, n);
    hide Chain, Value, Scaled;
  }

  /** subfc then subfe: the n-word difference, with CA set exactly when there was no borrow. */
  lemma {:induction false} SubChain(c: Cpu, g: Regs, oe: seq<bool>, a: seq<Word>, b: seq<Word>, n: nat)
    requires RegsOk(g) && 0 < n <= |a| && n <= |b| && n <= |oe|
    ensures var (d, r) := Chain(c, g, true, oe, a, b, n);
      && Value(r, n) == Value(b, n) - Value(a, n) + (if d.ca then 0 else Base(n))
      && (d.ca <==> Value(a, n) <= Value(b, n)) && (c.so ==> d.so)
  {
    var (d, r) := Chain(c, g, true, oe, a, b, n);
    ChainSum(c, g, true, oe, a, b, n);
    ScaledUnits(n);
    ComplementValue(a, n);
    ComplementValue(r, n);
    hide Chain, Value, Scaled;
  }

  // ---------------------------------------------------------------- Overflow of the whole number

  predicate FitsSigned(v: int, n: nat) { 0 <= 2 * v + Base(n) && 2 * v < Base(n) }

  /** A result's top word tells which half of the range the value is in. */
  lemma {:induction false} TopWord(r: seq<Word>, n: nat)
    requires 0 < n <= |r|
    ensures r[n - 1] < HALF <==> 2 * Value(r, n) < Base(n)
    ensures Value(r, n) < Base(n)
  {
    hide Scaled, Value, Base;
    ComplementValue(r, n - 1);
    ComplementValue(r, n);
    assert Value(r, n) == Value(r, n - 1) + Scaled(r[n - 1], n - 1) by {
      Unfold(r, n);
    }
    HalfBase(n);
    var w: nat := r[n - 1];
    ScaledUnits(n - 1);
    if w < HALF {
      AddScaled(w + 1, HALF - 1 - w, n - 1);
      AddScaled(w, 1, n - 1);
    } else {
      AddScaled(HALF, w - HALF, n - 1);
    }
  }

  lemma Unfold(r: seq<Word>, n: nat)
    requires 0 < n <= |r|
    ensures Value(r, n) == Value(r, n - 1) + Scaled(r[n - 1], n - 1)
  {
  }

  lemma {:induction false} HalfBase(n: nat)
    requires n > 0
    ensures 2 * Scaled(HALF, n - 1) == Base(n)
  {
    AddScaled(HALF, HALF, n - 1);
    ScaledUnits(n - 1);
  }

  /** Signed overflow of a top word, from its operands, carries and the value of the whole result. */
  lemma OverflowCases(x: Word, y: Word, cin: nat, total: int, v: nat, base: nat)
    requires cin <= 1 && v < base
    requires var s := AddOvCoCi(x, y, cin); (s.val < HALF <==> 2 * v < base) && total == v + (if s.co then base else 0)
    ensures var exact := total - (if x >= HALF then base else 0) - (if y >= HALF then base else 0);
      AddOvCoCi(x, y, cin).ov <==> !(0 <= 2 * exact + base && 2 * exact < base)
  {
  }

  lemma ComplementSigned(s: seq<Word>, n: nat)
    requires 0 < n <= |s|
    ensures SignedValue(Complement(s), n) == -1 - SignedValue(s, n)
  {
    ComplementValue(s, n);
    hide Value, Base;
  }

  /** OV of the last instruction is signed overflow of the n-word sum or difference. */
  lemma {:induction false} ChainOverflow(c: Cpu, g: Regs, sub: bool, oe: seq<bool>, a: seq<Word>, b: seq<Word>, n: nat)
    requires RegsOk(g) && 0 < n <= |a| && n <= |b| && n <= |oe| && oe[n - 1]
    ensures var (d, r) := Chain(c, g, sub, oe, a, b, n);
      var exact := if sub then SignedValue(b, n) - SignedValue(a, n) else SignedValue(a, n) + SignedValue(b, n);
      (d.ov <==> !FitsSigned(exact, n)) && (d.ov ==> d.so)
  {
    hide Word1, Value, Base, AddOvCoCi, Scaled;
    var (e, _) := Chain(c, g, sub, oe, a, b, n - 1);
    var (d, r) := Chain(c, g, sub, oe, a, b, n);
    ChainSum(c, g, sub, oe, a, b, n);
    ScaledUnits(n);
    WordSum(e, g, sub, n == 1, oe[n - 1], a[n - 1], b[n - 1]);
    TopWord(r, n);
    ComplementSigned(a, n);
    var x, y, cin := Operand(a, sub)[n - 1], b[n - 1], CarryIn(e, sub, n == 1);
    SumParts(x, y, cin);
    OverflowCases(x, y, cin, Value(Operand(a, sub), n) + Value(b, n) + (if sub then 1 else 0), Value(r, n), Base(n));
  }
}
