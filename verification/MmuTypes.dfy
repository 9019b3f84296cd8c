/** The MMU's configuration as the guest programs it, and the fields of its registers (PPCMMU.h). */
module MmuTypes {
  import opened Words

  /** What a failed access reports to the CPU. */
  datatype Fault = NoPage | NoSegment | PermsFault | PermsNX | AlignFault

  /** Read and write permission, and whether the page's C bit was still 0 when the walk read it. */
  datatype Perms = Perms(r: bool, w: bool, clean: bool)

  /** A BAT register pair, unpacked; `bepi` and `brpn` are kept unshifted. */
  datatype Bat = Bat(bepi: Word, blShift: nat, vs: bool, vp: bool, brpn: Word, wimg: nat, pp: nat)

  /** A segment register, unpacked. */
  datatype Seg = Seg(vsid: nat, ks: bool, kp: bool, n: bool)

  /** The registers a walk consults. */
  datatype Config = Config(ibat: seq<Bat>, dbat: seq<Bat>, seg: seq<Seg>, htabPhys: Word, htabMask: nat)

  /** Physical memory as the walker sees it: guest words by bus address. */
  type Mem = map<Word, Word>

  const NR_BATS: nat := 4
  const NR_SEGS: nat := 16
  const BLOCK: nat := 0x20000

  function Rd(m: Mem, a: Word): Word { if a in m then m[a] else 0 }

  /** Position of the last set bit, 1-based; 0 for 0. */
  function FindLastSet(x: nat): nat { if x == 0 then 0 else 1 + FindLastSet(x / 2) }

  function BatWithUpper(b: Bat, val: Word): Bat {
    b.(bepi := val - val % BLOCK, blShift := FindLastSet(val / 4 % 0x800), vs := val / 2 % 2 == 1, vp := val % 2 == 1)
  }

  function BatWithLower(b: Bat, val: Word): Bat {
    b.(brpn := val - val % BLOCK, wimg := val % 0x80 - val % 8, pp := val % 4)
  }

  function SegOf(val: Word): Seg {
    Seg(val % 0x1000000, val / 0x40000000 % 2 == 1, val / 0x20000000 % 2 == 1, val / 0x10000000 % 2 == 1)
  }

  function HtabBase(val: Word): Word { val - val % 0x10000 }

  function HtabMask(val: Word): nat { val % 0x200 }

  /** What every sequence of register writes leaves true of the configuration. */
  predicate BatOk(b: Bat) { b.blShift <= 11 && b.bepi % BLOCK == 0 && b.brpn % BLOCK == 0 && b.pp <= 3 }

  ghost predicate BatsOk(bats: seq<Bat>) {
    |bats| == NR_BATS && forall i {:trigger bats[i]} :: 0 <= i < |bats| ==> BatOk(bats[i])
  }

  ghost predicate ConfigOk(c: Config) {
    && BatsOk(c.ibat) && BatsOk(c.dbat) && |c.seg| == NR_SEGS
    && (forall i {:trigger c.seg[i]} :: 0 <= i < NR_SEGS ==> c.seg[i].vsid < 0x1000000)
    && c.htabPhys % 0x10000 == 0 && c.htabMask < 0x200
  }

  /** The registers after construction; those that the source leaves uninitialised are zero. */
  function ResetConfig(): (c: Config)
    ensures ConfigOk(c)
  {
    var bats := seq(NR_BATS, _ => Bat(0, 0, false, false, 0, 0, 0));
    Config(bats, bats, seq(NR_SEGS, _ => Seg(0, false, false, false)), 0, 0)
  }

  lemma {:induction false} LastSetBound(x: nat, n: nat)
    requires x < Pow2(n)
    ensures FindLastSet(x) <= n
  {
    if x != 0 {
      LastSetBound(x / 2, n - 1);
    }
  }

  lemma UpperWriteKeepsBatOk(b: Bat, val: Word)
    requires BatOk(b)
    ensures BatOk(BatWithUpper(b, val))
  {
    Pow2Values();
    LastSetBound(val / 4 % 0x800, 11);
  }
}
