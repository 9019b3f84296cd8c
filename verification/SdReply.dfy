/** What the SD card answers to commands: 48-bit responses with their CRC, and the CID and CSD registers (DevSDCard.cc). */
module SdReply {
  import opened Words
  import opened Rotates

  /** The words written to the response registers. */
  datatype Reply = NoReply | Short(r0: Word, r1: Word) | Long(r0: Word, r1: Word, r2: Word, r3: Word)

  // ---------------------------------------------------------------- CRC7
  // The table of the source is the division by x^7 + x^3 + 1, a byte at a time, with the remainder in the top seven bits.

  function CrcBit(c: Byte): (r: Byte)
    ensures r % 2 == 0
  {
    if c < 0x80 then 2 * c
    else
      Flipped(c - 0x80);
      Xor(2 * (c - 0x80), 0x12)
  }

  lemma {:induction false} Flipped(c: nat)
    requires c < 0x80
    ensures Xor(2 * c, 0x12) < 0x100 && Xor(2 * c, 0x12) % 2 == 0
  {
    assert Pow2(8) == 0x100 by {
      assert Pow2(4) == 0x10;
    }
    XorBound(2 * c, 0x12, 8);
  }

  /** `crc7_tab[c]` */
  function CrcTable(c: Byte): (r: Byte)
    ensures r % 2 == 0
  {
    CrcBit(CrcBit(CrcBit(CrcBit(CrcBit(CrcBit(CrcBit(CrcBit(c))))))))
  }

  function Crc7(bytes: seq<Byte>): (r: Byte)
    ensures r % 2 == 0
  {
    if bytes == [] then 0
    else
      var c, d := Crc7(bytes[..|bytes| - 1]), bytes[|bytes| - 1];
      ByteXor(c, d);
      CrcTable(Xor(c, d))
  }

  lemma {:induction false} ByteXor(c: Byte, d: Byte)
    ensures Xor(c, d) < 0x100
  {
    assert Pow2(8) == 0x100 by {
      assert Pow2(4) == 0x10;
    }
    XorBound(c, d, 8);
  }

  // ---------------------------------------------------------------- Bit by bit

  /** The division as hardware does it: bit by bit, the register shifted left and x^3 + 1 taken off when a one falls out. */
  function Serial(bits: seq<bool>): (r: nat)
    ensures r < 0x80
  {
    if bits == [] then 0
    else
      var r := Serial(bits[..|bits| - 1]);
      Feed(r, bits[|bits| - 1])
  }

  function Feed(r: nat, bit: bool): (s: nat)
    requires r < 0x80
    ensures s < 0x80
  {
    var shifted := 2 * r % 0x80;
    SevenBits(shifted);
    if bit != (r >= 0x40) then Xor(shifted, 9) else shifted
  }

  lemma {:induction false} SevenBits(x: nat)
    requires x < 0x80
    ensures Xor(x, 9) < 0x80
  {
    assert Pow2(7) == 0x80 by {
      assert Pow2(4) == 0x10;
    }
    XorBound(x, 9, 7);
  }

  /** The bits of a byte, most significant first, from bit `n` - 1 down. */
  function BitsOf(b: nat, n: nat): (r: seq<bool>)
    ensures |r| == n
  {
    if n == 0 then [] else [Bit(b, n - 1)] + BitsOf(b, n - 1)
  }

  function AllBits(bytes: seq<Byte>): seq<bool> {
    if bytes == [] then [] else AllBits(bytes[..|bytes| - 1]) + BitsOf(bytes[|bytes| - 1], 8)
  }

  /** Going byte by byte through the table comes to the same, a place further left. */
  lemma {:induction false} TableIsSerial(bytes: seq<Byte>)
    ensures Crc7(bytes) == 2 * Serial(AllBits(bytes))
  {
    hide CrcTable, BitsOf;
    if bytes != [] {
      var early, d := bytes[..|bytes| - 1], bytes[|bytes| - 1];
      TableIsSerial(early);
      var r := Serial(AllBits(early));
      ByteXor(2 * r, d);
      ByteFed(r, d);
      SerialSplit(AllBits(early), BitsOf(d, 8));
    }
  }

  /** The register after more bits. */
  function FeedAll(r: nat, bits: seq<bool>): (s: nat)
    requires r < 0x80
    ensures s < 0x80
    decreases |bits|
  {
    if bits == [] then r else FeedAll(Feed(r, bits[0]), bits[1..])
  }

  lemma {:induction false} SerialSplit(a: seq<bool>, b: seq<bool>)
    ensures Serial(a + b) == FeedAll(Serial(a), b)
    decreases |b|
  {
    hide Feed;
    if b == [] {
      assert a + b == a;
    } else {
      var c := a + [b[0]];
      assert a + b == c + b[1..] && c[..|a|] == a;
      SerialSplit(c, b[1..]);
    }
  }

  /** `x` is the register, a place further left, with what remains of a byte. */
  predicate Mixed(x: nat, r: nat, rest: nat) {
    x < 0x100 && r < 0x80 && rest < 0x100 && x == Xor(2 * r, rest)
  }

  function Shift8(x: nat): nat { 2 * x % 0x100 }

  /** One step of the table's division is one step of the register. */
  lemma {:induction false} OneBit(x: Byte, r: nat, rest: nat)
    requires Mixed(x, r, rest)
    ensures Mixed(CrcBit(x), Feed(r, rest >= 0x80), Shift8(rest))
  {
    hide Xor, CrcBit, Feed, Bit;
    var y, s := CrcBit(x), Feed(r, rest >= 0x80);
    ByteXor(2 * s, Shift8(rest));
    Pow8();
    forall i | 0 <= i < 8 ensures Bit(y, i) == Bit(Xor(2 * s, Shift8(rest)), i) {
      TopBits(x, r, rest);
      CrcBitBit(x, i);
      XorBit(2 * s, Shift8(rest), i);
      FeedBit(r, rest >= 0x80, i);
      ShiftBit(rest, i);
      ShiftBit(x, i);
      if i > 0 {
        XorBit(2 * r, rest, i - 1);
      }
    }
    SameBits(y, Xor(2 * s, Shift8(rest)), 8);
  }

  lemma Pow8()
    ensures Pow2(8) == 0x100
  {
    assert Pow2(4) == 0x10;
  }

  /** Bits 1 and 4, of x^7 + x^3 + 1 without its first, a place further left. */
  predicate Tap(i: nat) { i == 1 || i == 4 }

  lemma {:induction false} ShiftBit(x: nat, i: nat)
    requires x < 0x100 && i < 8
    ensures Bit(Shift8(x), i) == (i > 0 && Bit(x, i - 1))
  {
    Pow8();
    LowBitsKept(2 * x, 8, i);
    assert 2 * x / 2 == x;
  }

  lemma {:induction false} TopBit(x: nat, n: nat)
    requires x < Pow2(n + 1)
    ensures Bit(x, n) <==> x >= Pow2(n)
  {
    if n > 0 {
      TopBit(x / 2, n - 1);
    }
  }

  lemma {:induction false} TopBits(x: nat, r: nat, rest: nat)
    requires Mixed(x, r, rest)
    ensures x >= 0x80 <==> (r >= 0x40) != (rest >= 0x80)
  {
    hide Xor, Bit;
    Pow8();
    assert Pow2(7) == 0x80;
    TopBit(x, 7);
    TopBit(2 * r, 7);
    TopBit(rest, 7);
    XorBit(2 * r, rest, 7);
  }

  lemma {:induction false} TapBits(i: nat)
    requires i < 8
    ensures Bit(0x12, i) == Tap(i) && (i > 0 ==> Bit(9, i - 1) == Tap(i))
  {
    assert !Bit(9, 1) && !Bit(9, 2) && Bit(9, 3);
    ZeroBit(i);
    if i > 4 {
      ZeroBit(i - 5);
      assert Bit(9, 4) == Bit(0, 0);
      assert !Bit(9, 4) && !Bit(9, 5) && !Bit(9, 6);
    }
  }

  lemma {:induction false} CrcBitBit(x: Byte, i: nat)
    requires i < 8
    ensures Bit(CrcBit(x), i) == (Bit(Shift8(x), i) != (x >= 0x80 && Tap(i)))
  {
    hide Xor, Bit;
    TapBits(i);
    if x >= 0x80 {
      assert 2 * (x - 0x80) == Shift8(x);
      XorBit(Shift8(x), 0x12, i);
    }
  }

  lemma {:induction false} FeedBit(r: nat, bit: bool, i: nat)
    requires r < 0x80 && i < 8
    ensures Bit(2 * Feed(r, bit), i) == (i > 0 && Bit(2 * r, i - 1) != ((bit != (r >= 0x40)) && Tap(i)))
  {
    var s := Feed(r, bit);
    DoubledBit(s, i);
    TapBits(i);
    if i > 0 {
      var shifted := 2 * r % 0x80;
      assert Pow2(7) == 0x80 by {
        assert Pow2(4) == 0x10;
      }
      LowBitsKept(2 * r, 7, i - 1);
      XorBit(shifted, 9, i - 1);
    }
    hide Xor, Bit, Feed;
  }

  lemma {:induction false} DoubledBit(s: nat, i: nat)
    ensures Bit(2 * s, i) == (i > 0 && Bit(s, i - 1))
  {
  }

  /** `k` places of a byte shifted out. */
  function ShiftN(d: Byte, k: nat): (r: nat)
    ensures r < 0x100
  {
    if k == 0 then d else Shift8(ShiftN(d, k - 1))
  }

  lemma {:induction false} ShiftNBit(d: Byte, k: nat, i: nat)
    requires i < 8
    ensures Bit(ShiftN(d, k), i) == (i >= k && Bit(d, i - k))
    decreases k
  {
    hide Bit, Shift8;
    if k > 0 {
      ShiftBit(ShiftN(d, k - 1), i);
      if i > 0 {
        ShiftNBit(d, k - 1, i - 1);
      }
    }
  }

  function CrcN(x: Byte, k: nat): Byte { if k == 0 then x else CrcBit(CrcN(x, k - 1)) }

  lemma {:induction false} TableIsN(x: Byte)
    ensures CrcTable(x) == CrcN(x, 8)
  {
    hide CrcBit;
    assert CrcN(x, 0) == x;
    assert CrcN(x, 1) == CrcBit(x);
    assert CrcN(x, 2) == CrcBit(CrcN(x, 1));
    assert CrcN(x, 4) == CrcBit(CrcBit(CrcN(x, 2)));
    assert CrcN(x, 6) == CrcBit(CrcBit(CrcN(x, 4)));
  }

  /** The register after the first `k` bits of a byte. */
  function FeedN(r: nat, d: Byte, k: nat): (s: nat)
    requires r < 0x80 && k <= 8
    ensures s < 0x80
  {
    if k == 0 then r else Feed(FeedN(r, d, k - 1), Bit(d, 8 - k))
  }

  lemma {:induction false} MixedN(r: nat, d: Byte, k: nat)
    requires r < 0x80 && k <= 8 && Xor(2 * r, d) < 0x100
    ensures Mixed(CrcN(Xor(2 * r, d), k), FeedN(r, d, k), ShiftN(d, k))
  {
    hide Bit, CrcBit, Feed, Shift8, Xor;
    if k > 0 {
      MixedN(r, d, k - 1);
      var rest := ShiftN(d, k - 1);
      OneBit(CrcN(Xor(2 * r, d), k - 1), FeedN(r, d, k - 1), rest);
      ShiftNBit(d, k - 1, 7);
      Pow8();
      assert Pow2(7) == 0x80;
      TopBit(rest, 7);
    }
  }

  lemma {:induction false} FeedRest(r: nat, d: Byte, k: nat)
    requires r < 0x80 && k <= 8
    ensures FeedAll(FeedN(r, d, k), BitsOf(d, 8 - k)) == FeedN(r, d, 8)
    decreases 8 - k
  {
    hide Bit, Feed;
    if k < 8 {
      FeedRest(r, d, k + 1);
      assert BitsOf(d, 8 - k)[1..] == BitsOf(d, 8 - (k + 1));
    }
  }

  /** A byte through the table. */
  lemma {:induction false} ByteFed(r: nat, d: Byte)
    requires r < 0x80 && Xor(2 * r, d) < 0x100
    ensures CrcTable(Xor(2 * r, d)) == 2 * FeedAll(r, BitsOf(d, 8))
  {
    hide Bit, CrcBit, Feed, Shift8, FeedAll, BitsOf;
    TableIsN(Xor(2 * r, d));
    MixedN(r, d, 8);
    FeedRest(r, d, 0);
    forall i | 0 <= i < 8 ensures Bit(ShiftN(d, 8), i) == Bit(0, i) {
      ShiftNBit(d, 8, i);
      ZeroBit(i);
    }
    Pow8();
    SameBits(ShiftN(d, 8), 0, 8);
  }

  // ---------------------------------------------------------------- Responses

  function Byte3(w: Word): Byte { w / 0x100_0000 }

  function Byte2(w: Word): Byte { w / 0x1_0000 % 0x100 }

  function Byte1(w: Word): Byte { w / 0x100 % 0x100 }

  function Byte0(w: Word): Byte { w % 0x100 }

  /** makeResponse: index, payload, CRC and end bit. */
  function ShortReply(cmd: nat, payload: Word): Reply {
    hide Crc7, Byte3, Byte2, Byte1, Byte0;
    var crc := Crc7([cmd % 0x40, Byte3(payload), Byte2(payload), Byte1(payload), Byte0(payload)]);
    Short(payload % 0x100_0000 * 0x100 + crc + 1, cmd % 0x40 * 0x100 + payload / 0x100_0000)
  }

  /** Sixteen register bytes, lowest first; the last byte sent is a CRC over the others, most significant first. */
  function LongReply(high: seq<Byte>): Reply
    requires |high| == 15
  {
    hide Crc7, Reversed, WordOf;
    Long(WordOf(Crc7(Reversed(high)) + 1, high[0], high[1], high[2]), WordOf(high[3], high[4], high[5], high[6]),
         WordOf(high[7], high[8], high[9], high[10]), WordOf(high[11], high[12], high[13], high[14]))
  }

  function WordOf(b0: Byte, b1: Byte, b2: Byte, b3: Byte): Word { b0 + 0x100 * b1 + 0x1_0000 * b2 + 0x100_0000 * b3 }

  function Reversed(s: seq<Byte>): (r: seq<Byte>)
    ensures |r| == |s|
  {
    if s == [] then [] else [s[|s| - 1]] + Reversed(s[..|s| - 1])
  }

  /** makeCID: the card's name and number. */
  function CidReply(): Reply {
    LongReply([0x55, 0x01, 0x64, 0x63, 0x62, 0x61, 123, 0x20, 0x44, 0x53, 0x79, 0x4d, 0x4d, 0x45, 0x69])
  }

  /** makeCSD: the size in units of 512 KiB, less one, in 32-bit arithmetic. */
  function CsdReply(blocks: Word): Reply {
    var s := (blocks / 1024 - 1) % WORD_LIMIT;
    LongReply([0, 0x40, 0x0a, 0x80, 0x7f, Byte0(s), Byte1(s), Byte2(s), 0, 0x59, 0x5b, 0x0b, 0, 0x0e, 0x40])
  }

  /** A short response can be taken apart as a command is: index in the second word, argument across both. Its last bit is
      always one, and the rest of that byte is the CRC of what comes before, most significant byte first. */
  lemma ShortDecodes(cmd: nat, payload: Word)
    ensures var r := ShortReply(cmd, payload);
      && r.Short? && r.r1 / 0x100 % 0x40 == cmd % 0x40 && r.r1 % 0x100 * 0x100_0000 + r.r0 / 0x100 == payload
      && r.r0 % 0x100 == 2 * Serial(AllBits([cmd % 0x40, payload / 0x100_0000, payload / 0x1_0000 % 0x100, payload / 0x100 % 0x100,
                                             payload % 0x100])) + 1
      && r.r0 % 2 == 1
  {
    hide *;
    ShortCrc(cmd, payload);
    var crc := Crc7([cmd % 0x40, Byte3(payload), Byte2(payload), Byte1(payload), Byte0(payload)]);
    ShortFields(cmd % 0x40, payload, crc);
    ShortReplyIs(cmd, payload);
  }

  lemma ShortReplyIs(cmd: nat, payload: Word)
    ensures var crc := Crc7([cmd % 0x40, Byte3(payload), Byte2(payload), Byte1(payload), Byte0(payload)]);
      var r := ShortReply(cmd, payload);
      r.Short? && r.r0 == payload % 0x100_0000 * 0x100 + crc + 1 && r.r1 == cmd % 0x40 * 0x100 + payload / 0x100_0000
  {
    hide Crc7, Byte3, Byte2, Byte1, Byte0;
  }

  lemma ShortFields(index: nat, payload: Word, crc: Byte)
    requires index < 0x40 && crc % 2 == 0
    ensures var r0, r1 := payload % 0x100_0000 * 0x100 + crc + 1, index * 0x100 + payload / 0x100_0000;
      && r1 / 0x100 % 0x40 == index && r1 % 0x100 * 0x100_0000 + r0 / 0x100 == payload
      && r0 % 0x100 == crc + 1 && r0 % 2 == 1
  {
    var hi, lo := payload / 0x100_0000, payload % 0x100_0000;
    Parts(lo, crc + 1);
    Parts(index, hi);
    OddSum(lo, crc);
  }

  lemma OddSum(lo: nat, crc: Byte)
    requires crc % 2 == 0
    ensures (lo * 0x100 + crc + 1) % 2 == 1
  {
    assert lo * 0x100 + crc + 1 == 2 * (lo * 0x80 + crc / 2) + 1;
  }

  lemma ShortCrc(cmd: nat, payload: Word)
    ensures Crc7([cmd % 0x40, Byte3(payload), Byte2(payload), Byte1(payload), Byte0(payload)])
         == 2 * Serial(AllBits([cmd % 0x40, payload / 0x100_0000, payload / 0x1_0000 % 0x100, payload / 0x100 % 0x100,
                                payload % 0x100]))
  {
    hide Crc7, Serial, AllBits;
    TableIsSerial([cmd % 0x40, Byte3(payload), Byte2(payload), Byte1(payload), Byte0(payload)]);
  }

  lemma Parts(hi: nat, lo: nat)
    requires lo < 0x100
    ensures (hi * 0x100 + lo) / 0x100 == hi && (hi * 0x100 + lo) % 0x100 == lo
  {
  }

  /** Most significant first. */
  function FromBytes(b3: nat, b2: nat, b1: nat, b0: nat): nat { ((b3 * 0x100 + b2) * 0x100 + b1) * 0x100 + b0 }

  /** A long response is the register's sixteen bytes: these, and at the low end the CRC of them all, most significant first, and a
      one. */
  lemma {:induction false} LongDecodes(high: seq<Byte>)
    requires |high| == 15
    ensures var r := LongReply(high);
      && r.Long? && Reversed(high) == seq(15, i requires 0 <= i < 15 => high[14 - i])
      && r.r3 == FromBytes(high[14], high[13], high[12], high[11]) && r.r2 == FromBytes(high[10], high[9], high[8], high[7])
      && r.r1 == FromBytes(high[6], high[5], high[4], high[3])
      && r.r0 == FromBytes(high[2], high[1], high[0], 2 * Serial(AllBits(Reversed(high))) + 1)
  {
    hide Crc7, Serial, AllBits, Reversed;
    TableIsSerial(Reversed(high));
    ReversedIs(high);
  }

  lemma {:induction false} ReversedIs(s: seq<Byte>)
    ensures |Reversed(s)| == |s| && forall i :: 0 <= i < |s| ==> Reversed(s)[i] == s[|s| - 1 - i]
  {
    if s != [] {
      ReversedIs(s[..|s| - 1]);
    }
  }

  /** The card's name and number in a CID response. */
  lemma CidSays()
    ensures var r := CidReply();
      r.Long? && r.r3 == 0x6945_4d4d && r.r2 == 0x7953_4420 && r.r1 == 0x7b61_6263 && r.r0 / 0x100 == 0x64_0155
  {
    hide Crc7, Serial, AllBits, Reversed;
    LongDecodes([0x55, 0x01, 0x64, 0x63, 0x62, 0x61, 123, 0x20, 0x44, 0x53, 0x79, 0x4d, 0x4d, 0x45, 0x69]);
  }

  /** The size field of a CSD response, as the host puts it together. */
  function SizeField(r: Reply): int
    requires r.Long?
  {
    r.r1 / 0x1_0000 + r.r2 % 0x100 * 0x1_0000
  }

  /** It holds the size of the image in 512 KiB units less one, modulo 2^24, and so says how many units there are exactly when
      there is at least one: an image of fewer than 1024 blocks is announced as the largest that there can be. */
  lemma CsdSays(blocks: Word)
    ensures SizeField(CsdReply(blocks)) == (blocks / 1024 - 1) % 0x100_0000
    ensures SizeField(CsdReply(blocks)) + 1 == blocks / 1024 <==> blocks >= 1024
    ensures blocks < 1024 ==> SizeField(CsdReply(blocks)) == 0xff_ffff
  {
    hide Crc7, Reversed;
    var s := (blocks / 1024 - 1) % WORD_LIMIT;
    WordThenField(blocks / 1024 - 1);
    Bytes(s);
    HighHalf(0x80, 0x7f, Byte0(s), Byte1(s));
    LowByte(Byte2(s), 0, 0x59, 0x5b);
    hide Byte0, Byte1, Byte2, WordOf;
    var r := CsdReply(blocks);
    assert r.r1 == WordOf(0x80, 0x7f, Byte0(s), Byte1(s)) && r.r2 == WordOf(Byte2(s), 0, 0x59, 0x5b);
  }

  lemma WordThenField(x: int)
    requires -1 <= x < 0x40_0000
    ensures x % WORD_LIMIT % 0x100_0000 == x % 0x100_0000 == if x == -1 then 0xff_ffff else x
  {
    if x == -1 {
      assert x % WORD_LIMIT == 0xffff_ffff;
    } else {
      assert x % WORD_LIMIT == x;
    }
  }

  lemma Bytes(s: Word)
    ensures Byte0(s) + 0x100 * Byte1(s) + 0x1_0000 * Byte2(s) == s % 0x100_0000
  {
    assert s % 0x100_0000 == s - s / 0x100_0000 * 0x100_0000;
  }

  lemma HighHalf(b0: Byte, b1: Byte, b2: Byte, b3: Byte)
    ensures WordOf(b0, b1, b2, b3) / 0x1_0000 == b2 + 0x100 * b3
  {
    assert WordOf(b0, b1, b2, b3) == 0x1_0000 * (b2 + 0x100 * b3) + (b0 + 0x100 * b1);
  }

  lemma LowByte(b0: Byte, b1: Byte, b2: Byte, b3: Byte)
    ensures WordOf(b0, b1, b2, b3) % 0x100 == b0
  {
  }
}
