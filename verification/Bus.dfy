/** The bus's device table and where an address lands: in host memory behind a RAM device, or on an I/O device
    (Bus.h, DevRAM.h, and the address conversion of utlbInsert). */
module BusMap {
  import opened Words

  /** `hostBase` is where the bytes of a RAM device (or ROM: the same class with a flag) start in host memory. */
  datatype Device = Ram(base: Word, size: Word, hostBase: nat, isRom: bool) | Io(base: Word, size: Word)

  /** PPCMMU_HVA_IO_BIT: set in a translated address that must go through the bus. */
  const IO_BIT: nat := 0x8000_0000_0000_0000

  /** The end of the device is computed in 32 bits. */
  predicate Decodes(d: Device, a: Word) { d.base <= a < (d.base + d.size) % WORD_LIMIT }

  /** The first device at or after index `i` that decodes `a`; `|devs|` if there is none. */
  function FindDev(devs: seq<Device>, i: nat, a: Word): (r: nat)
    requires i <= |devs|
    ensures i <= r <= |devs| && (r < |devs| ==> Decodes(devs[r], a))
    ensures forall k :: i <= k < r ==> !Decodes(devs[k], a)
    decreases |devs| - i
  {
    if i == |devs| || Decodes(devs[i], a) then i else FindDev(devs, i + 1, a)
  }

  /** What utlbInsert stores for a physical address: a host address, or the address itself with the I/O bit. */
  function HostOf(devs: seq<Device>, a: Word): nat {
    var i := FindDev(devs, 0, a);
    if i < |devs| && devs[i].Ram? then devs[i].hostBase + (a - devs[i].base) else a + IO_BIT
  }

  predicate IsDirect(host: nat) { host < IO_BIT }

  /** Devices do not overlap, RAM comes in whole pages at page boundaries on both sides, and host memory lies
      below the I/O bit. */
  ghost predicate WellPlaced(devs: seq<Device>) {
    && (forall i, j, a: Word :: 0 <= i < j < |devs| && Decodes(devs[i], a) ==> !Decodes(devs[j], a))
    && (forall i :: 0 <= i < |devs| && devs[i].Ram? ==>
          && devs[i].base % 0x1000 == 0 && devs[i].size % 0x1000 == 0 && devs[i].hostBase % 0x1000 == 0
          && devs[i].hostBase + devs[i].size <= IO_BIT)
  }

  lemma {:induction false} OnlyDecoder(devs: seq<Device>, i: nat, a: Word)
    requires WellPlaced(devs) && i < |devs| && Decodes(devs[i], a)
    ensures FindDev(devs, 0, a) == i
  {
  }

  /** A page is decoded as a whole by RAM, or not at all by RAM. */
  lemma RamDecodesPages(d: Device, a: Word)
    requires d.base % 0x1000 == 0 && d.size % 0x1000 == 0
    ensures Decodes(d, a - a % 0x1000) <==> Decodes(d, a)
  {
    var b, e := d.base / 0x1000, (d.base + d.size) % WORD_LIMIT / 0x1000;
    assert d.base == b * 0x1000;
    assert (d.base + d.size) % 0x1000 == 0;
    assert (d.base + d.size) % WORD_LIMIT == e * 0x1000;
    var p := a / 0x1000;
    assert a == p * 0x1000 + a % 0x1000;
  }

  /** Host addresses of one page differ only in the page offset, and never carry the I/O bit into host memory. */
  lemma HostPages(devs: seq<Device>, a: Word)
    requires WellPlaced(devs)
    ensures HostOf(devs, a) == HostOf(devs, a - a % 0x1000) + a % 0x1000
    ensures HostOf(devs, a) % 0x1000 == a % 0x1000
  {
    hide Decodes, FindDev;
    RamPage(devs, a);
    var i := FindDev(devs, 0, a);
    if i < |devs| && devs[i].Ram? {
      assert a == a / 0x1000 * 0x1000 + a % 0x1000;
    }
  }

  /** An address and its page are in the same RAM device, or neither is in RAM. */
  lemma RamPage(devs: seq<Device>, a: Word)
    requires WellPlaced(devs)
    ensures var i, j := FindDev(devs, 0, a), FindDev(devs, 0, a - a % 0x1000);
      i == j || !((i < |devs| && devs[i].Ram?) || (j < |devs| && devs[j].Ram?))
  {
    var page := a - a % 0x1000;
    var i, j := FindDev(devs, 0, a), FindDev(devs, 0, page);
    if i < |devs| && devs[i].Ram? {
      RamDecodesPages(devs[i], a);
      OnlyDecoder(devs, i, page);
    } else if j < |devs| && devs[j].Ram? {
      RamDecodesPages(devs[j], a);
      assert false;
    }
  }

  /** The I/O bit tells the two kinds of target apart. */
  lemma {:induction false} DirectIffRam(devs: seq<Device>, a: Word)
    requires WellPlaced(devs)
    ensures IsDirect(HostOf(devs, a)) <==> FindDev(devs, 0, a) < |devs| && devs[FindDev(devs, 0, a)].Ram?
  {
    var i := FindDev(devs, 0, a);
    if i < |devs| && devs[i].Ram? {
      assert a - devs[i].base < devs[i].size;
    }
  }

  /** What is in RAM is at its offset from where the device begins in host memory; anything else keeps its address, marked by the top
      bit of 64. */
  lemma {:induction false} HostPlace(devs: seq<Device>, a: Word)
    requires WellPlaced(devs)
    ensures forall i :: 0 <= i < |devs| && devs[i].base <= a < (devs[i].base + devs[i].size) % 0x1_0000_0000 && devs[i].Ram? ==>
      HostOf(devs, a) == devs[i].hostBase + (a - devs[i].base) < 0x8000_0000_0000_0000
    ensures (forall i :: 0 <= i < |devs| && devs[i].Ram? ==> !(devs[i].base <= a < (devs[i].base + devs[i].size) % 0x1_0000_0000))
      ==> HostOf(devs, a) == 0x8000_0000_0000_0000 + a
  {
    forall i | 0 <= i < |devs| && Decodes(devs[i], a) ensures FindDev(devs, 0, a) == i {
      OnlyDecoder(devs, i, a);
    }
    DirectIffRam(devs, a);
    var j := FindDev(devs, 0, a);
    assert j < |devs| ==> Decodes(devs[j], a);
  }

  /** A device answers every address of its range exactly when the range ends below 4 GiB: one that ends at or
      wraps past the top of the address space is never selected inside it. */
  lemma DecodesItsRangeIff(d: Device)
    requires d.size > 0
    ensures (forall a: Word :: d.base <= a < d.base + d.size ==> Decodes(d, a)) <==> d.base + d.size < WORD_LIMIT
  {
    if d.base + d.size >= WORD_LIMIT {
      assert (d.base + d.size) % WORD_LIMIT == d.base + d.size - WORD_LIMIT <= d.base;
      assert !Decodes(d, d.base);
    }
  }

  /** A device in the last 64 KiB of the address space decodes nothing, so not even its first address finds it. */
  lemma TopDeviceIsDeaf()
    ensures var d := Io(0xffff_0000, 0x1_0000); (forall a: Word :: !Decodes(d, a)) && FindDev([d], 0, 0xffff_0000) == 1
  {
    assert forall a: Word :: !Decodes(Io(0xffff_0000, 0x1_0000), a);
  }

  /** The bus with its memo of the last device found (Bus::get_dev). */
  class Bus {
    const devs: seq<Device>
    var lastDev: nat

    ghost predicate Valid()
      reads this
    {
      WellPlaced(devs)
    }

    constructor (devs: seq<Device>)
      requires WellPlaced(devs)
      ensures Valid() && this.devs == devs
    {
      this.devs, lastDev := devs, 0;
    }

    /** Whatever the memo holds, the answer is the first device that decodes the address. Without one the simulator
        exits; that is `|devs|` here. */
    method GetDev(addr: Word) returns (i: nat)
      requires Valid()
      modifies this
      ensures Valid() && i == FindDev(devs, 0, addr)
    {
      if lastDev < |devs| && Decodes(devs[lastDev], addr) {
        i := lastDev;
        OnlyDecoder(devs, lastDev, addr);
      } else {
        i := 0;
        while i < |devs| && !Decodes(devs[i], addr)
          invariant i <= |devs| && FindDev(devs, 0, addr) == FindDev(devs, i, addr)
        {
          i := i + 1;
        }
        lastDev := i;
      }
    }
  }
}
