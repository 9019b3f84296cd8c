/** The SD card: commands, and the transfers they permit (DevSDCard.cc). The image file is a sequence of bytes. */
module SdCard {
  import opened Words
  import opened SdReply

  const IDLE: nat := 0
  const READY: nat := 1
  const IDENT: nat := 2
  const STBY: nat := 3
  const TRAN: nat := 4
  const DATA: nat := 5

  /** `blocks` is the size of the image when it was opened. */
  datatype Card = Card(present: bool, state: nat, acmd: bool, width: nat, lastCmd: nat, lastAcmd: bool,
                       offset: Word, blockCount: Word, disk: seq<Byte>, blocks: Word)

  // ---------------------------------------------------------------- Commands

  /** `arg * 512` in 32 bits. */
  function ByteOffset(arg: Word): Word { arg * 512 % WORD_LIMIT }

  /** A command outside APP_CMD mode; whether it gets a response. CMD0 is obeyed but gets none. */
  function PlainCommand(c: Card, cmd: nat, arg: Word): (Card, bool) {
    if cmd == 0 then (c.(state := IDLE), false)
    else if cmd == 2 then (c.(state := IDENT), true)
    else if cmd == 3 then (c.(state := STBY), true)
    else if cmd == 6 then (c.(state := DATA), true)
    else if cmd == 7 || cmd == 12 then (c.(state := TRAN), true)
    else if cmd == 8 || cmd == 9 || cmd == 13 then (c, true)
    else if cmd == 17 || cmd == 18 || cmd == 24 || cmd == 25 then (c.(offset := ByteOffset(arg), state := DATA), true)
    else if cmd == 23 then (c.(blockCount := arg), true)
    else if cmd == 55 then (c.(acmd := true), true)
    else (c, false)
  }

  /** A command after CMD55. */
  function AppCommand(c: Card, cmd: nat, arg: Word): (Card, bool) {
    if cmd == 41 then (c.(state := READY), true)
    else if cmd == 6 then
      (if arg % 2 == 0 then c.(width := if arg / 2 % 2 == 1 then 4 else 1) else c, true)
    else if cmd == 51 || cmd == 13 then (c.(state := DATA), true)
    else (c, false)
  }

  function Commanded(c: Card, cmd: nat, arg: Word): (Card, bool) {
    if !c.present then (c, false)
    else
      var d := c.(lastCmd := cmd, lastAcmd := c.acmd);
      if !c.acmd then PlainCommand(d, cmd, arg)
      else
        var (e, ok) := AppCommand(d, cmd, arg);
        (e.(acmd := false), ok)
  }

  /** getStatus: the state, ready for data, and whether an application command is expected. */
  function Status(c: Card): Word { (c.state * 0x200 + 0x100 + (if c.acmd then 0x20 else 0)) % WORD_LIMIT }

  /** What is answered: the card's registers, its address, its voltages or an echo for the commands that ask for them, and
      its status after the command for the others. */
  function ReplyTo(c: Card, cmd: nat, arg: Word): Reply {
    var (d, ok) := Commanded(c, cmd, arg);
    if !ok then NoReply
    else if !c.acmd && cmd == 2 then CidReply()
    else if !c.acmd && cmd == 9 then CsdReply(c.blocks)
    else if !c.acmd && cmd == 3 then ShortReply(cmd, 0xbeef_0000)
    else if !c.acmd && cmd == 8 then ShortReply(cmd, arg % 0x1000)
    else if c.acmd && cmd == 41 then ShortReply(cmd, 0xc0ff_8000)
    else ShortReply(cmd, Status(d))
  }

  /** Commands that are answered with the status. */
  predicate StatusCommand(c: Card, cmd: nat) {
    if c.acmd then cmd == 6 || cmd == 51 || cmd == 13 else cmd !in {0, 2, 3, 8, 9}
  }

  /** The answer to those, taken apart as a command is, names the command and tells the state it has left the card in. */
  lemma StatusTells(c: Card, cmd: nat, arg: Word)
    requires Commanded(c, cmd, arg).1 && StatusCommand(c, cmd) && c.state <= 8
    ensures var r, d := ReplyTo(c, cmd, arg), Commanded(c, cmd, arg).0;
      && r.Short? && r.r1 / 0x100 % 0x40 == cmd % 0x40
      && var status := r.r1 % 0x100 * 0x100_0000 + r.r0 / 0x100;
         status / 0x200 == d.state && (status / 0x20 % 2 == 1 <==> d.acmd)
  {
    var d := Commanded(c, cmd, arg).0;
    ShortDecodes(cmd, Status(d));
    assert d.state <= 8;
    hide ShortReply, CidReply, CsdReply, Commanded;
    StatusBits(d);
  }

  lemma StatusBits(d: Card)
    requires d.state <= 8
    ensures Status(d) / 0x200 == d.state && (Status(d) / 0x20 % 2 == 1 <==> d.acmd)
  {
    var low := 0x100 + (if d.acmd then 0x20 else 0);
    assert Status(d) == 0x200 * d.state + low;
    assert Status(d) / 0x20 == 0x10 * d.state + 8 + (if d.acmd then 1 else 0);
  }

  /** Every command, outside APP_CMD mode and in it: which are answered, and what they change. */
  lemma CommandTable(c: Card, cmd: nat, arg: Word)
    requires c.present
    ensures var (d, ok) := Commanded(c, cmd, arg);
      && d == c.(lastCmd := cmd, lastAcmd := c.acmd, acmd := d.acmd, state := d.state, offset := d.offset, width := d.width,
                 blockCount := d.blockCount)
      && (if c.acmd then
            && (ok <==> cmd in {6, 13, 41, 51}) && !d.acmd && d.offset == c.offset && d.blockCount == c.blockCount
            && d.state == (if cmd == 41 then 1 else if cmd in {13, 51} then 5 else c.state)
            && d.width == (if cmd == 6 && arg % 4 == 2 then 4 else if cmd == 6 && arg % 4 == 0 then 1 else c.width)
          else
            && (ok <==> cmd in {2, 3, 6, 7, 8, 9, 12, 13, 17, 18, 23, 24, 25, 55}) && (d.acmd <==> cmd == 55) && d.width == c.width
            && d.state == (if cmd == 0 then 0 else if cmd == 2 then 2 else if cmd == 3 then 3 else if cmd in {7, 12} then 4
                           else if cmd in {6, 17, 18, 24, 25} then 5 else c.state)
            && d.offset == (if cmd in {17, 18, 24, 25} then 512 * arg % 0x1_0000_0000 else c.offset)
            && d.blockCount == (if cmd == 23 then arg else c.blockCount))
  {
    assert arg % 4 == 2 * (arg / 2 % 2) + arg % 2;
  }

  /** What a driver does with a new card, in whatever state it is: reset, voltages, identification, address, selection. Each answer
      is the one that is wanted, and the card ends up ready for transfers. */
  lemma {:induction false} Identification(c: Card, volts: Word, any: Word)
    requires c.present && !c.acmd
    ensures var reset := Commanded(c, 0, 0).0;
      var checked := Commanded(reset, 8, volts).0;
      var app := Commanded(checked, 55, any).0;
      var ready := Commanded(app, 41, any).0;
      var named := Commanded(ready, 2, any).0;
      var addressed := Commanded(named, 3, any).0;
      var selected := Commanded(addressed, 7, any).0;
      && reset.state == 0 && ready.state == 1 && named.state == 2 && addressed.state == 3 && selected.state == 4
      && !selected.acmd && selected.disk == c.disk
      && ReplyTo(c, 0, 0) == NoReply && Payload(ReplyTo(reset, 8, volts)) == volts % 0x1000
      && Payload(ReplyTo(app, 41, any)) == 0xc0ff_8000 && ReplyTo(ready, 2, any) == CidReply()
      && Payload(ReplyTo(named, 3, any)) == 0xbeef_0000 && Payload(ReplyTo(addressed, 7, any)) / 0x200 == 4
      && ReplyTo(selected, 9, any) == CsdReply(c.blocks)
  {
    hide ShortReply, CidReply, CsdReply, Payload, Status;
    PayloadIs(8, volts % 0x1000);
    PayloadIs(41, 0xc0ff_8000);
    PayloadIs(3, 0xbeef_0000);
    var d := Commanded(Commanded(Commanded(Commanded(Commanded(Commanded(Commanded(c, 0, 0).0, 8, volts).0, 55, any).0, 41, any).0,
                                           2, any).0, 3, any).0, 7, any).0;
    PayloadIs(7, Status(d));
    StatusBits(d);
  }

  function Payload(r: Reply): int { if r.Short? then r.r1 % 0x100 * 0x100_0000 + r.r0 / 0x100 else -1 }

  lemma PayloadIs(cmd: nat, payload: Word)
    ensures Payload(ShortReply(cmd, payload)) == payload
  {
    ShortDecodes(cmd, payload);
    hide ShortReply;
  }

  /** Commands that leave the card ready for a transfer. */
  predicate IsDataCommand(c: Card, cmd: nat) {
    c.present && (if c.acmd then cmd == 51 || cmd == 13 else cmd == 6 || cmd == 17 || cmd == 18 || cmd == 24 || cmd == 25)
  }

  // ---------------------------------------------------------------- Transfers

  /** pread: what there is of `n` bytes at `offset`. */
  function Pread(disk: seq<Byte>, offset: nat, n: nat): (r: seq<Byte>)
    ensures |r| <= n
  {
    if offset >= |disk| then [] else if offset + n <= |disk| then disk[offset..offset + n] else disk[offset..]
  }

  /** pwrite: past the end, the file grows, with zeros in any gap. */
  function Pwrite(disk: seq<Byte>, offset: nat, data: seq<Byte>): seq<Byte> {
    var padded := if offset <= |disk| then disk else disk + seq(offset - |disk|, _ => 0);
    padded[..offset] + data + (if offset + |data| <= |padded| then padded[offset + |data|..] else [])
  }

  datatype Transfer = Transfer(card: Card, data: seq<Byte>, ok: bool, err: bool)

  /** The SCR register, "wide" order. */
  const Scr: seq<Byte> := [2, 5, 0x80, 2, 0, 0, 0, 0]

  function SdStatus(width: nat): seq<Byte> {
    [if width == 4 then 0x80 else 0, 0, 0, 0, 0, 0, 0, 0, 4, 0xff, 0x10] + seq(53, _ => 0)
  }

  function SwitchStatus(): seq<Byte> { [0, 2] + seq(62, _ => 0) }

  function Done(c: Card, data: seq<Byte>): Transfer { Transfer(c.(state := TRAN), data, true, false) }

  function Failed(c: Card, data: seq<Byte>): Transfer { Transfer(c.(state := TRAN), data, false, true) }

  /** A file read that must yield `n` bytes; a short one still leaves what it got in the buffer. */
  function FileRead(c: Card, n: nat): Transfer {
    var r := Pread(c.disk, c.offset, n);
    if |r| == n then Done(c, r) else Failed(c, r)
  }

  function ReadOut(c: Card, size: nat): Transfer {
    if c.state != DATA then Transfer(c, [], false, false)
    else if c.lastAcmd && c.lastCmd == 51 then Done(c, Scr)
    else if c.lastAcmd && c.lastCmd == 13 then Done(c, SdStatus(c.width))
    else if !c.lastAcmd && c.lastCmd == 6 then Done(c, SwitchStatus())
    else if !c.lastAcmd && c.lastCmd == 17 then FileRead(c, 512)
    else if !c.lastAcmd && c.lastCmd == 18 then FileRead(c, size)
    else Failed(c, [])
  }

  /** How much a write takes from the buffer: CMD24 always takes a block. */
  function WriteSize(c: Card, size: nat): nat { if c.lastCmd == 24 then 512 else size }

  /** `took` is how much of the data the host's file takes; anything less than all of it is a failure. */
  function WriteIn(c: Card, data: seq<Byte>, took: nat): Transfer {
    if c.state != DATA then Transfer(c, [], false, false)
    else if !c.lastAcmd && (c.lastCmd == 24 || c.lastCmd == 25) then
      if took >= |data| then Done(c.(disk := Pwrite(c.disk, c.offset, data)), [])
      else Failed(c.(disk := Pwrite(c.disk, c.offset, data[..took])), [])
    else Failed(c, [])
  }

  // ---------------------------------------------------------------- The class

  class DevSdCard {
    var present: bool
    var state: nat
    var acmdPending: bool
    var width: nat
    var lastCmd: nat
    var lastAcmd: bool
    var offset: Word
    var blockCount: Word
    var disk: seq<Byte>
    const imageBlocks: Word

    ghost function View(): Card
      reads this
    {
      Card(present, state, acmdPending, width, lastCmd, lastAcmd, offset, blockCount, disk, imageBlocks)
    }

    /** A card, or an empty slot. */
    constructor (inserted: bool, image: seq<Byte>)
      ensures View() == Card(inserted, IDLE, false, 1, 0, false, 0, 0, image, |image| / 512 % WORD_LIMIT)
    {
      imageBlocks := |image| / 512 % WORD_LIMIT;
      present, state, acmdPending, width := inserted, IDLE, false, 1;
      lastCmd, lastAcmd, offset, blockCount, disk := 0, false, 0, 0, image;
    }

    method Command(cmd: nat, arg: Word) returns (ok: bool, reply: Reply)
      modifies this
      ensures (View(), ok) == Commanded(old(View()), cmd, arg) && reply == ReplyTo(old(View()), cmd, arg)
    {
      hide ShortReply, CidReply, CsdReply, Status;
      if !present {
        return false, NoReply;
      }
      var app := acmdPending;
      lastCmd, lastAcmd := cmd, acmdPending;
      if !app {
        ok := PlainCmd(cmd, arg);
      } else {
        ok := AppCmd(cmd, arg);
        acmdPending := false;
      }
      reply := NoReply;
      if ok {
        reply := MakeReply(app, cmd, arg);
      }
    }

    method PlainCmd(cmd: nat, arg: Word) returns (ok: bool)
      modifies this
      ensures (View(), ok) == PlainCommand(old(View()), cmd, arg)
    {
      ok := true;
      if cmd == 0 {
        state := IDLE;
        ok := false;
      } else if cmd == 2 {
        state := IDENT;
      } else if cmd == 3 {
        state := STBY;
      } else if cmd == 6 {
        state := DATA;
      } else if cmd == 7 || cmd == 12 {
        state := TRAN;
      } else if cmd == 8 || cmd == 9 || cmd == 13 {
      } else if cmd == 17 || cmd == 18 || cmd == 24 || cmd == 25 {
        offset, state := ByteOffset(arg), DATA;
      } else if cmd == 23 {
        blockCount := arg;
      } else if cmd == 55 {
        acmdPending := true;
      } else {
        ok := false;
      }
    }

    method AppCmd(cmd: nat, arg: Word) returns (ok: bool)
      modifies this
      ensures (View(), ok) == AppCommand(old(View()), cmd, arg)
    {
      ok := true;
      if cmd == 41 {
        state := READY;
      } else if cmd == 6 {
        if arg % 2 == 0 {
          width := if arg / 2 % 2 == 1 then 4 else 1;
        }
      } else if cmd == 51 || cmd == 13 {
        state := DATA;
      } else {
        ok := false;
      }
    }

    function StatusWord(): (w: Word)
      reads this
      ensures w == Status(View())
    {
      (state * 0x200 + 0x100 + (if acmdPending then 0x20 else 0)) % WORD_LIMIT
    }

    /** By type of response; R1 has the status as it is now. */
    method MakeReply(app: bool, cmd: nat, arg: Word) returns (reply: Reply)
      ensures reply == (if !app && cmd == 2 then CidReply() else if !app && cmd == 9 then CsdReply(imageBlocks)
                        else if !app && cmd == 3 then ShortReply(cmd, 0xbeef_0000)
                        else if !app && cmd == 8 then ShortReply(cmd, arg % 0x1000)
                        else if app && cmd == 41 then ShortReply(cmd, 0xc0ff_8000) else ShortReply(cmd, Status(View())))
    {
      hide ShortReply, CidReply, CsdReply;
      if app {
        reply := ShortReply(cmd, if cmd == 41 then 0xc0ff_8000 else StatusWord());
      } else if cmd == 2 {
        reply := CidReply();
      } else if cmd == 9 {
        reply := CsdReply(imageBlocks);
      } else if cmd == 3 {
        reply := ShortReply(cmd, 0xbeef_0000);
      } else if cmd == 8 {
        reply := ShortReply(cmd, arg % 0x1000);
      } else {
        reply := ShortReply(cmd, StatusWord());
      }
    }

    /** Data from a prior command; not being in DATA state is not an error. */
    method Read(size: nat) returns (data: seq<Byte>, ok: bool, err: bool)
      modifies this`state
      ensures Transfer(View(), data, ok, err) == ReadOut(old(View()), size)
    {
      data, ok, err := [], false, false;
      if state != DATA {
        return;
      }
      if lastAcmd && lastCmd == 51 {
        data := Scr;
      } else if lastAcmd && lastCmd == 13 {
        data := SdStatus(width);
      } else if !lastAcmd && lastCmd == 6 {
        data := SwitchStatus();
      } else if !lastAcmd && (lastCmd == 17 || lastCmd == 18) {
        var n := if lastCmd == 17 then 512 else size;
        data := Pread(disk, offset, n);
        err := |data| != n;
      } else {
        err := true;
      }
      state := TRAN;
      ok := !err;
    }

    method Write(data: seq<Byte>, took: nat) returns (ok: bool, err: bool)
      modifies this`state, this`disk
      ensures Transfer(View(), [], ok, err) == WriteIn(old(View()), data, took)
    {
      ok, err := false, false;
      if state != DATA {
        return;
      }
      if !lastAcmd && (lastCmd == 24 || lastCmd == 25) {
        disk := Pwrite(disk, offset, if took >= |data| then data else data[..took]);
        err := took < |data|;
      } else {
        err := true;
      }
      ok := !err;
      state := TRAN;
    }
  }

  // ---------------------------------------------------------------- Transfers of registers

  /** The SCR after ACMD51, the status with the bus width after ACMD13, the switch status after CMD6. */
  lemma {:induction false} RegistersRead(c: Card, arg: Word, size: nat)
    requires c.present
    ensures c.acmd ==>
      && ReadOut(Commanded(c, 51, arg).0, size).data == [0x02, 0x05, 0x80, 0x02, 0, 0, 0, 0]
      && var status := ReadOut(Commanded(c, 13, arg).0, size).data;
         && |status| == 64 && status[..11] == [if c.width == 4 then 0x80 else 0, 0, 0, 0, 0, 0, 0, 0, 0x04, 0xff, 0x10]
         && forall i :: 11 <= i < 64 ==> status[i] == 0
    ensures !c.acmd ==>
      var switch := ReadOut(Commanded(c, 6, arg).0, size).data;
      |switch| == 64 && switch[1] == 2 && forall i :: 0 <= i < 64 && i != 1 ==> switch[i] == 0
  {
    hide Pread, ByteOffset;
  }

  // ---------------------------------------------------------------- Transfers are paid for by commands

  /** Only data commands arm a transfer; other commands may disarm one. */
  lemma CommandArms(c: Card, cmd: nat, arg: Word)
    ensures var (d, _) := Commanded(c, cmd, arg);
      && (IsDataCommand(c, cmd) ==> d.state == DATA && d.lastCmd == cmd && d.lastAcmd == c.acmd)
      && (!IsDataCommand(c, cmd) ==> d.state == DATA ==> c.state == DATA)
      && d.disk == c.disk && d.present == c.present
  {
  }

  /** A transfer happens only when armed, and disarms. */
  lemma TransferDisarms(c: Card, size: nat, data: seq<Byte>, took: nat)
    ensures var r := ReadOut(c, size);
      (r.ok || r.err <==> c.state == DATA) && !(r.ok && r.err) && (c.state == DATA ==> r.card.state == TRAN)
      && r.card == c.(state := r.card.state) && (c.state != DATA ==> r.card == c)
    ensures var w := WriteIn(c, data, took);
      (w.ok || w.err <==> c.state == DATA) && !(w.ok && w.err) && (c.state == DATA ==> w.card.state == TRAN)
      && w.card == c.(state := w.card.state, disk := w.card.disk) && (w.ok ==> took >= |data|)
      && (c.state != DATA ==> w.card == c)
  {
  }

  // ---------------------------------------------------------------- Blocks written are read back

  /** The bytes of a file after a write: the data where it was written, the old bytes elsewhere, zeros in a gap. */
  lemma PwriteBytes(disk: seq<Byte>, offset: nat, data: seq<Byte>)
    ensures var d := Pwrite(disk, offset, data);
      && |d| == (if offset + |data| > |disk| then offset + |data| else |disk|)
      && forall i :: 0 <= i < |d| ==>
           d[i] == (if offset <= i < offset + |data| then data[i - offset] else if i < |disk| then disk[i] else 0)
  {
  }

  /** A transfer in of which the file takes only part: an error, and exactly that part is written. */
  lemma PartialWrite(c: Card, data: seq<Byte>, took: nat)
    requires c.state == 5 && !c.lastAcmd && c.lastCmd in {24, 25} && took < |data|
    ensures var t := WriteIn(c, data, took); var d := t.card.disk;
      && t.err && !t.ok && t.card == c.(state := 4, disk := d)
      && |d| == (if c.offset + took > |c.disk| then c.offset + took else |c.disk|)
      && forall i :: 0 <= i < |d| ==>
           d[i] == (if c.offset <= i < c.offset + took then data[i - c.offset] else if i < |c.disk| then c.disk[i] else 0)
  {
    hide Pwrite;
    PwriteBytes(c.disk, c.offset, data[..took]);
  }

  lemma PreadIs(disk: seq<Byte>, at: nat, s: seq<Byte>)
    requires at + |s| <= |disk| && forall i :: 0 <= i < |s| ==> disk[at + i] == s[i]
    ensures Pread(disk, at, |s|) == s
  {
    if s != [] {
      assert disk[at..at + |s|] == s;
    }
  }

  /** A range inside what was written reads back. */
  lemma PreadInside(disk: seq<Byte>, offset: nat, data: seq<Byte>, at: nat, n: nat)
    requires offset <= at && at + n <= offset + |data|
    ensures Pread(Pwrite(disk, offset, data), at, n) == data[at - offset..at - offset + n]
  {
    hide Pwrite, Pread;
    PwriteBytes(disk, offset, data);
    PreadIs(Pwrite(disk, offset, data), at, data[at - offset..at - offset + n]);
  }

  /** The card after CMD24 or CMD25 at block `a` and the transfer of `data`, all of which the file takes. */
  function Written(c: Card, cmd: nat, a: Word, data: seq<Byte>): Transfer { WriteIn(Commanded(c, cmd, a).0, data, |data|) }

  /** What CMD17 at block `a` and its transfer yield. */
  function BlockAt(c: Card, a: Word): Transfer { ReadOut(Commanded(c, 17, a).0, 512) }

  /** What CMD18 at block `a` and a transfer of `size` bytes yield. */
  function BlocksAt(c: Card, a: Word, size: nat): Transfer { ReadOut(Commanded(c, 18, a).0, size) }

  predicate Usable(c: Card) { c.present && !c.acmd }

  // Byte offsets have 32 bits, so the card has 2^23 blocks to tell apart: block numbers count modulo that.

  const ADDRESSABLE: nat := 0x80_0000

  function BlockNo(a: Word): (p: nat)
    ensures p < ADDRESSABLE
  {
    a % ADDRESSABLE
  }

  function BlockOf(data: seq<Byte>, k: nat): seq<Byte>
    requires 512 * k + 512 <= |data|
  {
    data[512 * k..512 * k + 512]
  }

  /** Two block numbers name the same bytes exactly when they differ by a multiple of 2^23. */
  lemma SameOffsetIff(a: Word, b: Word)
    ensures ByteOffset(a) == ByteOffset(b) <==> BlockNo(a) == BlockNo(b)
  {
    OffsetIs(a);
    OffsetIs(b);
  }

  lemma OffsetIs(a: Word)
    ensures ByteOffset(a) == 512 * BlockNo(a)
  {
    var q := a / ADDRESSABLE;
    assert a == q * ADDRESSABLE + BlockNo(a);
    WholeTurns(q, 512 * BlockNo(a));
  }

  lemma WholeTurns(q: nat, r: nat)
    requires r < WORD_LIMIT
    ensures (q * WORD_LIMIT + r) % WORD_LIMIT == r
  {
  }

  lemma WrittenIs(c: Card, cmd: nat, a: Word, data: seq<Byte>)
    requires Usable(c) && (cmd == 24 || cmd == 25)
    ensures var w := Written(c, cmd, a, data); w.ok && Usable(w.card) && w.card.disk == Pwrite(c.disk, 512 * BlockNo(a), data)
  {
    hide Pwrite, BlockNo;
    OffsetIs(a);
  }

  lemma BlockIs(c: Card, b: Word)
    requires Usable(c)
    ensures var r := Pread(c.disk, 512 * BlockNo(b), 512); BlockAt(c, b).ok == (|r| == 512) && BlockAt(c, b).data == r
  {
    hide Pread, BlockNo;
    OffsetIs(b);
  }

  lemma BlocksAre(c: Card, b: Word, size: nat)
    requires Usable(c)
    ensures var r := Pread(c.disk, 512 * BlockNo(b), size);
      BlocksAt(c, b, size).ok == (|r| == size) && BlocksAt(c, b, size).data == r
  {
    hide Pread, BlockNo;
    OffsetIs(b);
  }

  /** A command and a length that write whole blocks: CMD24 takes one, CMD25 any number. */
  predicate WritesBlocks(cmd: nat, n: nat, data: seq<Byte>) { n > 0 && |data| == 512 * n && (cmd == 25 || (cmd == 24 && n == 1)) }

  /** A block of a file, zeros past its end. */
  function ZeroExtended(disk: seq<Byte>, p: nat): (s: seq<Byte>)
    ensures |s| == 512 && (512 * p + 512 <= |disk| ==> s == disk[512 * p..512 * p + 512])
  {
    seq<Byte>(512, i requires 0 <= i < 512 => if 512 * p + i < |disk| then disk[512 * p + i] else 0)
  }

  /** Below what is written the file is there, with zeros where it was not; past it nothing changes. */
  lemma PreadBelow(disk: seq<Byte>, offset: nat, data: seq<Byte>, p: nat)
    requires 512 * p + 512 <= offset
    ensures Pread(Pwrite(disk, offset, data), 512 * p, 512) == ZeroExtended(disk, p)
  {
    hide Pwrite, Pread;
    PwriteBytes(disk, offset, data);
    PreadIs(Pwrite(disk, offset, data), 512 * p, ZeroExtended(disk, p));
  }

  lemma PreadAbove(disk: seq<Byte>, offset: nat, data: seq<Byte>, at: nat, n: nat)
    requires offset + |data| <= at
    ensures Pread(Pwrite(disk, offset, data), at, n) == Pread(disk, at, n)
  {
    PwriteBytes(disk, offset, data);
    hide Pwrite;
    var d := Pwrite(disk, offset, data);
    if at < |disk| {
      assert d[offset + |data|..] == disk[offset + |data|..];
      var end := if at + n <= |disk| then at + n else |disk|;
      assert d[at..end] == disk[at..end];
    }
  }

  /** What CMD17 yields at any block number after `n` blocks have been written at any other: a written block if the number,
      modulo 2^23, falls among those written; what it yielded before if it is past them; and below them the old bytes, with
      zeros where the file had ended. */
  lemma BlockAfterWrite(c: Card, cmd: nat, a: Word, n: nat, data: seq<Byte>, b: Word)
    requires Usable(c) && WritesBlocks(cmd, n, data)
    ensures var r := BlockAt(Written(c, cmd, a, data).card, b); var q, p := BlockNo(a), BlockNo(b);
      if p < q then r.ok && r.data == ZeroExtended(c.disk, p)
      else if p < q + n then r.ok && r.data == BlockOf(data, p - q)
      else r.ok == BlockAt(c, b).ok && r.data == BlockAt(c, b).data
  {
    hide Pwrite, Pread, Written, BlockAt, BlockNo, ZeroExtended;
    WrittenIs(c, cmd, a, data);
    var q, p := BlockNo(a), BlockNo(b);
    BlockIs(Written(c, cmd, a, data).card, b);
    BlockIs(c, b);
    if p < q {
      PreadBelow(c.disk, 512 * q, data, p);
    } else if p < q + n {
      PreadInside(c.disk, 512 * q, data, 512 * p, 512);
    } else {
      PreadAbove(c.disk, 512 * q, data, 512 * p, 512);
    }
  }

  lemma BlockInImage(c: Card, b: Word)
    requires Usable(c) && 512 * BlockNo(b) + 512 <= |c.disk|
    ensures BlockAt(c, b).ok && BlockAt(c, b).data == ZeroExtended(c.disk, BlockNo(b))
  {
    hide BlockAt, BlockNo;
    BlockIs(c, b);
  }

  /** A block of the image is left alone exactly when its number, modulo 2^23, is not among those written, or it is written
      with what it held. */
  lemma LeftAloneIff(c: Card, cmd: nat, a: Word, n: nat, data: seq<Byte>, b: Word)
    requires Usable(c) && WritesBlocks(cmd, n, data) && 512 * BlockNo(b) + 512 <= |c.disk|
    ensures var w := Written(c, cmd, a, data).card; var q, p := BlockNo(a), BlockNo(b);
      BlockAt(w, b).data == BlockAt(c, b).data <==> (q <= p < q + n ==> BlockOf(data, p - q) == BlockAt(c, b).data)
  {
    hide Written, BlockAt, BlockNo, BlockOf, ZeroExtended;
    BlockAfterWrite(c, cmd, a, n, data, b);
    BlockInImage(c, b);
  }

  /** The number of the `k`th block from `a`, as a command's 32-bit argument. */
  function BlockArg(a: Word, k: nat): Word { (a + k) % WORD_LIMIT }

  lemma BlockArgNo(a: Word, k: nat)
    requires k < ADDRESSABLE
    ensures BlockNo(BlockArg(a, k)) == if BlockNo(a) + k < ADDRESSABLE then BlockNo(a) + k else BlockNo(a) + k - ADDRESSABLE
  {
    var q := a / ADDRESSABLE;
    assert a == q * ADDRESSABLE + BlockNo(a);
    var t := (a + k) / WORD_LIMIT;
    assert a + k == t * WORD_LIMIT + BlockArg(a, k);
    var r := if BlockNo(a) + k < ADDRESSABLE then BlockNo(a) + k else BlockNo(a) + k - ADDRESSABLE;
    var s := q - 0x200 * t + (if BlockNo(a) + k < ADDRESSABLE then 0 else 1);
    assert BlockArg(a, k) == s * ADDRESSABLE + r;
    ResidueIs(BlockArg(a, k), s, r);
  }

  lemma ResidueIs(x: nat, s: int, r: nat)
    requires x == s * ADDRESSABLE + r && r < ADDRESSABLE
    ensures x % ADDRESSABLE == r
  {
  }

  /** CMD17 at the `k`th block from `a` yields the `k`th block of `data`. */
  predicate ReadsBack(c: Card, a: Word, k: nat, data: seq<Byte>)
    requires 512 * k + 512 <= |data|
  {
    var r := BlockAt(c, BlockArg(a, k));
    r.ok && r.data == BlockOf(data, k)
  }

  /** What `n` blocks written at block `a` do on being read back. CMD18 over all of them always returns them. CMD17 at the
      number of one of them returns it exactly when that block lies below block 2^23, or the low block that its number wraps
      round to holds the same. */
  lemma BlocksReadBack(c: Card, cmd: nat, a: Word, n: nat, data: seq<Byte>)
    requires Usable(c) && WritesBlocks(cmd, n, data) && n <= ADDRESSABLE
    ensures Written(c, cmd, a, data).ok
    ensures var w := Written(c, cmd, a, data).card; var q := BlockNo(a);
      && BlocksAt(w, a, 512 * n).ok && BlocksAt(w, a, 512 * n).data == data
      && forall k: nat :: k < n ==>
           (ReadsBack(w, a, k, data) <==> q + k < ADDRESSABLE || BlockOf(data, k) == ZeroExtended(c.disk, q + k - ADDRESSABLE))
  {
    hide Pwrite, Pread, Written, BlockAt, BlocksAt, BlockNo, ZeroExtended, BlockArg;
    WrittenIs(c, cmd, a, data);
    var w, q := Written(c, cmd, a, data).card, BlockNo(a);
    BlocksAre(w, a, 512 * n);
    PreadInside(c.disk, 512 * q, data, 512 * q, 512 * n);
    assert data[0..512 * n] == data;
    forall k: nat | k < n
      ensures ReadsBack(w, a, k, data) <==> q + k < ADDRESSABLE || BlockOf(data, k) == ZeroExtended(c.disk, q + k - ADDRESSABLE)
    {
      BlockArgNo(a, k);
      BlockAfterWrite(c, cmd, a, n, data, BlockArg(a, k));
    }
  }

  /** So they all read back one by one whenever they stay below block 2^23, whatever `a` is. */
  lemma AllReadBack(c: Card, cmd: nat, a: Word, n: nat, data: seq<Byte>)
    requires Usable(c) && WritesBlocks(cmd, n, data) && BlockNo(a) + n <= ADDRESSABLE
    ensures forall k: nat :: k < n ==> ReadsBack(Written(c, cmd, a, data).card, a, k, data)
  {
    hide Written, BlocksAt, ReadsBack, BlockNo, BlockOf;
    BlocksReadBack(c, cmd, a, n, data);
  }

  /** A block written with CMD24 at 2^23 replaces the one that CMD17 reads at 0. */
  lemma HighBlockHitsLow()
    ensures var c := Card(true, TRAN, false, 1, 0, false, 0, 0, seq(512, _ => 0), 1);
      var ones := seq(512, _ => 1);
      && BlockAt(c, 0).data == seq(512, _ => 0)
      && BlockAt(Written(c, 24, 0x80_0000, ones).card, 0).data == ones
      && BlockAt(Written(c, 24, 0x80_0000, ones).card, 0).data != BlockAt(c, 0).data
  {
    hide Written, BlockAt;
    var c := Card(true, TRAN, false, 1, 0, false, 0, 0, seq(512, _ => 0), 1);
    var ones: seq<Byte> := seq(512, _ => 1);
    BlockAfterWrite(c, 24, 0x80_0000, 1, ones, 0);
    assert BlockOf(ones, 0) == ones;
    BlockInImage(c, 0);
    assert c.disk[0..512] == c.disk;
    assert ones[0] != c.disk[0];
  }
}
