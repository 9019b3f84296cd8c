/** Loads and stores after translation: through a host pointer, or over the bus (loadXX/storeXX in PPCMMU.cc,
    Bus.h, DevRAM.h). */
module DataPath {
  import opened Words
  import opened BusMap

  /** Host memory behind the RAM devices. */
  type HostMem = map<nat, Byte>

  /** Guest-visible data: host memory, and the writes seen by I/O devices, as (address, size, value). */
  datatype Data = Data(host: HostMem, io: seq<(Word, nat, nat)>)

  function ByteAt(h: HostMem, a: nat): Byte { if a in h then h[a] else 0 }

  /** The big-endian value of `n` bytes of host memory. */
  function Fetch(h: HostMem, a: nat, n: nat): nat {
    if n == 0 then 0 else Fetch(h, a, n - 1) * 256 + ByteAt(h, a + n - 1)
  }

  /** Host memory with `v` stored big-endian in `n` bytes. */
  function Put(h: HostMem, a: nat, n: nat, v: nat): HostMem {
    if n == 0 then h else Put(h, a, n - 1, v / 256)[a + n - 1 := v % 256]
  }

  /** A bus read of `n` bytes: first device that decodes the address; `device` answers for I/O. */
  function BusRead(devs: seq<Device>, d: Data, device: (Word, nat) -> nat, a: Word, n: nat): nat {
    var i := FindDev(devs, 0, a);
    if i < |devs| && devs[i].Ram? then Fetch(d.host, devs[i].hostBase + (a - devs[i].base), n) else device(a, n)
  }

  /** A bus write of `n` bytes; ROM ignores it. */
  function BusWrite(devs: seq<Device>, d: Data, a: Word, n: nat, v: nat): Data {
    var i := FindDev(devs, 0, a);
    if i < |devs| && devs[i].Ram? then
      if devs[i].isRom then d else d.(host := Put(d.host, devs[i].hostBase + (a - devs[i].base), n, v))
    else d.(io := d.io + [(a, n, v)])
  }

  /** loadXX once translation has produced `host`. */
  function LoadVia(devs: seq<Device>, d: Data, device: (Word, nat) -> nat, host: nat, n: nat): nat {
    if IsDirect(host) then Fetch(d.host, host, n) else BusRead(devs, d, device, host % WORD_LIMIT, n)
  }

  /** storeXX once translation has produced `host`. */
  function StoreVia(devs: seq<Device>, d: Data, host: nat, n: nat, v: nat): Data {
    if IsDirect(host) then d.(host := Put(d.host, host, n, v)) else BusWrite(devs, d, host % WORD_LIMIT, n, v)
  }

  /** FAULT_ALIGN of the default build: an access of `n` bytes that crosses an 8-byte boundary. */
  predicate Misaligned(host: nat, n: nat) { host % 8 + n > 8 }

  /** Loading through the translated address is reading the physical address over the bus. */
  lemma LoadIsBusRead(devs: seq<Device>, d: Data, device: (Word, nat) -> nat, a: Word, n: nat)
    requires WellPlaced(devs)
    ensures LoadVia(devs, d, device, HostOf(devs, a), n) == BusRead(devs, d, device, a, n)
  {
    DirectIffRam(devs, a);
    UntagIo(a);
  }

  lemma UntagIo(a: Word)
    ensures (a + IO_BIT) % WORD_LIMIT == a
  {
    assert IO_BIT == 0x8000_0000 * WORD_LIMIT;
  }

  predicate InRom(devs: seq<Device>, a: Word) {
    var i := FindDev(devs, 0, a);
    i < |devs| && devs[i].Ram? && devs[i].isRom
  }

  lemma {:induction false} PutFrame(h: HostMem, a: nat, n: nat, v: nat, b: nat)
    requires b < a || a + n <= b
    ensures ByteAt(Put(h, a, n, v), b) == ByteAt(h, b)
  {
    if n > 0 {
      PutFrame(h, a, n - 1, v / 256, b);
    }
  }

  lemma {:induction false} FetchFrame(h: HostMem, h': HostMem, a: nat, n: nat)
    requires forall b :: a <= b < a + n ==> ByteAt(h, b) == ByteAt(h', b)
    ensures Fetch(h, a, n) == Fetch(h', a, n)
  {
    if n > 0 {
      FetchFrame(h, h', a, n - 1);
    }
  }

  function Limit(n: nat): (r: nat)
    ensures r > 0
  {
    if n == 0 then 1 else 256 * Limit(n - 1)
  }

  lemma {:induction false} FetchBound(h: HostMem, a: nat, n: nat)
    ensures Fetch(h, a, n) < Limit(n)
  {
    if n > 0 {
      FetchBound(h, a, n - 1);
    }
  }

  /** What is stored is what is loaded back. */
  lemma {:induction false} FetchAfterPut(h: HostMem, a: nat, n: nat, v: nat)
    requires v < Limit(n)
    ensures Fetch(Put(h, a, n, v), a, n) == v
  {
    if n > 0 {
      FetchAfterPut(h, a, n - 1, v / 256);
      FetchFrame(Put(h, a, n - 1, v / 256), Put(h, a, n, v), a, n - 1);
    }
  }

  /** Most significant byte first. */
  lemma {:induction false} FetchBytes(h: HostMem, a: nat)
    ensures Fetch(h, a, 1) == ByteAt(h, a) && Fetch(h, a, 2) == ByteAt(h, a) * 0x100 + ByteAt(h, a + 1)
    ensures Fetch(h, a, 4)
         == ByteAt(h, a) * 0x100_0000 + ByteAt(h, a + 1) * 0x1_0000 + ByteAt(h, a + 2) * 0x100 + ByteAt(h, a + 3)
  {
    assert Fetch(h, a, 0) == 0;
    assert Fetch(h, a, 2) == ByteAt(h, a) * 0x100 + ByteAt(h, a + 1);
    assert Fetch(h, a, 3) == ByteAt(h, a) * 0x1_0000 + ByteAt(h, a + 1) * 0x100 + ByteAt(h, a + 2);
  }

  lemma {:induction false} PutByte(h: HostMem, a: nat, n: nat, v: nat, i: nat)
    requires i < n
    ensures ByteAt(Put(h, a, n, v), a + i) == v / Limit(n - 1 - i) % 256
    decreases n
  {
    if i < n - 1 {
      PutByte(h, a, n - 1, v / 256, i);
      DivideTwice(v, 256, Limit(n - 2 - i));
    }
  }

  /** The same bytes everywhere, and the same device writes. */
  ghost predicate SameData(d: Data, d': Data) { d.io == d'.io && forall b :: ByteAt(d.host, b) == ByteAt(d'.host, b) }

  /** Storing through the translated address is writing the physical address over the bus, except in ROM: the bus
      drops a write to ROM, but ROM is direct-mapped like RAM and the host pointer does not. There the two agree exactly
      when the value is in place already. */
  lemma {:induction false} StoreIsBusWriteIff(devs: seq<Device>, d: Data, a: Word, n: nat, v: nat)
    requires WellPlaced(devs)
    ensures !InRom(devs, a) ==> StoreVia(devs, d, HostOf(devs, a), n, v) == BusWrite(devs, d, a, n, v)
    ensures v < Limit(n) ==>
      (SameData(StoreVia(devs, d, HostOf(devs, a), n, v), BusWrite(devs, d, a, n, v))
       <==> !InRom(devs, a) || Fetch(d.host, HostOf(devs, a), n) == v)
  {
    DirectIffRam(devs, a);
    UntagIo(a);
    hide Put, Fetch, Limit, HostOf, FindDev, WellPlaced;
    var host := HostOf(devs, a);
    if InRom(devs, a) && v < Limit(n) {
      var stored := Put(d.host, host, n, v);
      FetchAfterPut(d.host, host, n, v);
      if Fetch(d.host, host, n) == v {
        forall b ensures ByteAt(stored, b) == ByteAt(d.host, b) {
          PutIsIdempotent(d.host, host, n, b);
        }
      } else if SameData(StoreVia(devs, d, host, n, v), d) {
        FetchFrame(stored, d.host, host, n);
        assert false;
      }
    }
  }

  /** A byte stored to ROM that held zero: the host pointer writes it, the bus does not. */
  lemma RomStoreWrites()
    ensures var devs, empty := [Ram(0, 0x1000, 0, true)], Data(map[], []);
      && WellPlaced(devs) && HostOf(devs, 0) == 0
      && ByteAt(StoreVia(devs, empty, 0, 1, 0x55).host, 0) == 0x55 && BusWrite(devs, empty, 0, 1, 0x55) == empty
      && ByteAt(empty.host, 0) == 0
  {
    var devs := [Ram(0, 0x1000, 0, true)];
    assert FindDev(devs, 0, 0) == 0;
    assert Put(map[], 0, 0, 0) == map[];
  }

  /** Putting a value that is already there changes no byte. */
  lemma {:induction false} PutIsIdempotent(h: HostMem, a: nat, n: nat, b: nat)
    ensures ByteAt(Put(h, a, n, Fetch(h, a, n)), b) == ByteAt(h, b)
  {
    if n > 0 {
      PutIsIdempotent(h, a, n - 1, b);
    }
  }

  /** An access of 1, 2 or 4 bytes that does not fault on alignment stays inside its page. */
  lemma AlignedStaysInPage(host: nat, n: nat)
    requires 1 <= n <= 4 && !Misaligned(host, n)
    ensures host / 0x1000 == (host + n - 1) / 0x1000
  {
    var q := host / 8;
    assert host == 8 * q + host % 8 && (host + n - 1) / 8 == q;
    assert host / 0x1000 == q / 0x200 && (host + n - 1) / 0x1000 == (host + n - 1) / 8 / 0x200;
  }
}
