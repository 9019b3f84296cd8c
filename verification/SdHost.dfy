/** The SD host controller: register writes, and the request/acknowledge handshake that drives the card (DevSD.cc). */
module SdHost {
  import opened Words
  import opened DataPath
  import opened SdCard
  import opened SdReply

  datatype Reg = CB0 | CB1 | CTRL | DATACFG | DMA_ADDR | IRQ

  /** The registers a guest writes and reads back. */
  datatype Regs = Regs(cb0: Word, cb1: Word, ctrl: Word, dataCfg: Word, dmaAddr: Word)

  /** The response registers. */
  datatype ReplyRegs = ReplyRegs(rb0: Word, rb1: Word, rb2: Word, rb3: Word)

  /** Those registers, and the handshake state. */
  datatype Host = Host(regs: Regs, rb: ReplyRegs, cmdAck: bool, rxAck: bool, txAck: bool,
                       cmdStatus: nat, rxStatus: nat, txStatus: nat,
                       rxTriggered: bool, rxEnabled: bool, txTriggered: bool, txEnabled: bool)

  /** What has been done so far: card commands run, those of them that arm a transfer, write attempts, transfers that
      moved data, and interrupts raised. */
  datatype Tally = Tally(commands: nat, dataCommands: nat, writeTries: nat, transfers: nat, irqs: nat)

  /** What the host is asked: the bus's direct map, which DMA goes through, and how much of a write of so many bytes at an offset
      the image file takes. */
  datatype Outside = Outside(dma: Word -> nat, accepts: (nat, nat) -> nat)

  datatype World = World(host: Host, card: Card, mem: HostMem, tally: Tally)

  // ---------------------------------------------------------------- Fields

  predicate CmdReq(ctrl: Word) { ctrl % 2 == 1 }

  predicate RxReq(ctrl: Word) { ctrl / 0x10 % 2 == 1 }

  predicate TxReq(ctrl: Word) { ctrl / 0x100 % 2 == 1 }

  predicate EnablesTx(v: Word) { v / 0x200 % 2 == 1 }

  predicate EnablesRx(v: Word) { v / 0x100 % 2 == 1 }

  predicate ClearsTx(v: Word) { v / 2 % 2 == 1 }

  predicate ClearsRx(v: Word) { v % 2 == 1 }

  predicate CmdPending(h: Host) { CmdReq(h.regs.ctrl) != h.cmdAck }

  predicate RxPending(h: Host) { RxReq(h.regs.ctrl) != h.rxAck }

  predicate TxPending(h: Host) { TxReq(h.regs.ctrl) != h.txAck }

  function CommandIndex(cb1: Word): nat { cb1 / 0x100 % 0x40 }

  function CommandArg(cb0: Word, cb1: Word): Word { cb1 % 0x100 * 0x100_0000 + cb0 / 0x100 }

  /** SD_DATACFG_NRBLK: one less than the number of blocks. */
  function BlocksLessOne(dataCfg: Word): nat { dataCfg / 0x1_0000 }

  function RxLength(dataCfg: Word): nat {
    if BlocksLessOne(dataCfg) == 0 then dataCfg % 0x100 * 4 else (BlocksLessOne(dataCfg) + 1) * 512
  }

  function TxLength(dataCfg: Word): nat { (BlocksLessOne(dataCfg) + 1) * 512 }

  function ReadMem(mem: HostMem, a: nat, n: nat): seq<Byte> { seq<Byte>(n, i requires 0 <= i < n => ByteAt(mem, a + i)) }

  function WriteMem(mem: HostMem, a: nat, data: seq<Byte>): HostMem {
    if data == [] then mem else WriteMem(mem, a, data[..|data| - 1])[a + |data| - 1 := data[|data| - 1]]
  }

  // ---------------------------------------------------------------- checkForWork

  /** A pending read is served when a command completes, if the card has been put in a state to. */
  function Receive(w: World, env: Outside): World {
    if !RxPending(w.host) then w
    else
      var t := ReadOut(w.card, RxLength(w.host.regs.dataCfg));
      if !t.ok && !t.err then w.(card := t.card)
      else
        World(w.host.(rxStatus := if t.err then 1 else 0, rxAck := !w.host.rxAck, rxTriggered := true), t.card,
              WriteMem(w.mem, env.dma(w.host.regs.dmaAddr), t.data),
              w.tally.(transfers := w.tally.transfers + (if t.ok then 1 else 0)))
  }

  /** A short response leaves the last two registers as they were. */
  function Replied(rb: ReplyRegs, r: Reply): ReplyRegs {
    match r
    case NoReply => rb
    case Short(r0, r1) => rb.(rb0 := r0, rb1 := r1)
    case Long(r0, r1, r2, r3) => ReplyRegs(r0, r1, r2, r3)
  }

  /** The card runs the command in the registers, its answer goes to the response registers, and it is acknowledged. */
  function CardCommand(w: World): World {
    var cmd := CommandIndex(w.host.regs.cb1);
    var arg := CommandArg(w.host.regs.cb0, w.host.regs.cb1);
    var (c, ok) := Commanded(w.card, cmd, arg);
    World(w.host.(rb := Replied(w.host.rb, ReplyTo(w.card, cmd, arg)), cmdStatus := if ok then 0 else 1,
                  cmdAck := !w.host.cmdAck), c, w.mem,
          w.tally.(commands := w.tally.commands + 1,
                   dataCommands := w.tally.dataCommands + (if IsDataCommand(w.card, cmd) then 1 else 0)))
  }

  function RunCommand(w: World, env: Outside): World {
    if !CmdPending(w.host) then w else Receive(CardCommand(w), env)
  }

  function RunWrite(w: World, env: Outside): World {
    if !TxPending(w.host) then w
    else
      var data := ReadMem(w.mem, env.dma(w.host.regs.dmaAddr), WriteSize(w.card, TxLength(w.host.regs.dataCfg)));
      var t := WriteIn(w.card, data, env.accepts(w.card.offset, |data|));
      World(w.host.(txStatus := if t.ok then 0 else 1, txAck := !w.host.txAck, txTriggered := true), t.card, w.mem,
            w.tally.(writeTries := w.tally.writeTries + 1, transfers := w.tally.transfers + (if t.ok then 1 else 0)))
  }

  function RaiseIrq(w: World): World {
    if (w.host.txTriggered && w.host.txEnabled) || (w.host.rxTriggered && w.host.rxEnabled)
    then w.(tally := w.tally.(irqs := w.tally.irqs + 1))
    else w
  }

  /** A transfer has completed in a direction whose interrupt is enabled. */
  predicate Interrupting(h: Host) { (h.txTriggered && h.txEnabled) || (h.rxTriggered && h.rxEnabled) }

  function CheckedForWork(w: World, env: Outside): World { RaiseIrq(RunWrite(RunCommand(w, env), env)) }

  /** The register write itself. Writing a one to a completion bit of the interrupt register clears it. */
  function WithReg(h: Host, r: Reg, v: Word): Host {
    match r
    case CB0 => h.(regs := h.regs.(cb0 := v))
    case CB1 => h.(regs := h.regs.(cb1 := v))
    case CTRL => h.(regs := h.regs.(ctrl := v))
    case DATACFG => h.(regs := h.regs.(dataCfg := v))
    case DMA_ADDR => h.(regs := h.regs.(dmaAddr := v))
    case IRQ => h.(txEnabled := EnablesTx(v), rxEnabled := EnablesRx(v),
                   txTriggered := h.txTriggered && !ClearsTx(v), rxTriggered := h.rxTriggered && !ClearsRx(v))
  }

  function AfterWrite(w: World, r: Reg, v: Word, env: Outside): World {
    CheckedForWork(w.(host := WithReg(w.host, r, v)), env)
  }

  // ---------------------------------------------------------------- The class

  class DevSd {
    const card: DevSdCard
    const env: Outside
    var regs: Regs
    var rb: ReplyRegs
    var cmdAck: bool
    var rxAck: bool
    var txAck: bool
    var cmdStatus: nat
    var rxStatus: nat
    var txStatus: nat
    var rxTriggered: bool
    var rxEnabled: bool
    var txTriggered: bool
    var txEnabled: bool
    var mem: HostMem
    ghost var tally: Tally

    ghost function View(): World
      reads this, card
    {
      World(Host(regs, rb, cmdAck, rxAck, txAck, cmdStatus, rxStatus, txStatus, rxTriggered, rxEnabled, txTriggered, txEnabled),
            card.View(), mem, tally)
    }

    constructor (sdc: DevSdCard, outside: Outside, memory: HostMem)
      ensures card == sdc && env == outside
      ensures View() == World(Host(Regs(0, 0, 0, 0, 0), ReplyRegs(0, 0, 0, 0), false, false, false, 0, 0, 0,
                                   false, false, false, false),
                              sdc.View(), memory, Tally(0, 0, 0, 0, 0))
    {
      card, env, mem, tally := sdc, outside, memory, Tally(0, 0, 0, 0, 0);
      regs, rb := Regs(0, 0, 0, 0, 0), ReplyRegs(0, 0, 0, 0);
      cmdAck, rxAck, txAck, cmdStatus, rxStatus, txStatus := false, false, false, 0, 0, 0;
      rxTriggered, rxEnabled, txTriggered, txEnabled := false, false, false, false;
    }

    /** Runs the command in the registers. */
    method CardWork()
      modifies this`rb, this`cmdStatus, this`cmdAck, this`tally, card
      ensures View() == CardCommand(old(View()))
    {
      hide Commanded, CommandIndex, CommandArg, IsDataCommand, ReplyTo, Replied;
      var cmd, arg := CommandIndex(regs.cb1), CommandArg(regs.cb0, regs.cb1);
      ghost var arms := IsDataCommand(card.View(), cmd);
      var ok, reply := card.Command(cmd, arg);
      rb := Replied(rb, reply);
      cmdStatus := if ok then 0 else 1;
      cmdAck := !cmdAck;
      tally := tally.(commands := tally.commands + 1, dataCommands := tally.dataCommands + (if arms then 1 else 0));
    }

    /** The command part of checkForWork: runs a pending command, and then serves a pending read. */
    method CommandWork()
      modifies this`rb, this`cmdStatus, this`cmdAck, this`rxStatus, this`rxAck, this`rxTriggered, this`mem, this`tally, card
      ensures View() == RunCommand(old(View()), env)
    {
      hide CardCommand, Receive, CmdReq;
      if CmdReq(regs.ctrl) != cmdAck {
        CardWork();
        ReceiveWork();
      }
    }

    /** What a transfer out leaves in the registers when it ends, in success or failure. */
    method Received(done: bool, err: bool)
      modifies this`rxStatus, this`rxAck, this`rxTriggered, this`tally
      ensures var h := old(View().host);
        View().host == h.(rxStatus := if err then 1 else 0, rxAck := !h.rxAck, rxTriggered := true)
      ensures View().mem == old(mem) && View().card == old(View().card)
      ensures View().tally == old(tally).(transfers := old(tally).transfers + (if done then 1 else 0))
    {
      hide DevSdCard.View;
      rxStatus := if err then 1 else 0;
      rxAck, rxTriggered := !rxAck, true;
      tally := tally.(transfers := tally.transfers + (if done then 1 else 0));
    }

    method ReceiveWork()
      modifies this`rxStatus, this`rxAck, this`rxTriggered, this`mem, this`tally, card`state
      ensures View() == Receive(old(View()), env)
    {
      hide ReadOut, WriteMem, RxReq, RxLength;
      if RxReq(regs.ctrl) != rxAck {
        var data, done, err := card.Read(RxLength(regs.dataCfg));
        if done || err {
          mem := WriteMem(mem, env.dma(regs.dmaAddr), data);
          Received(done, err);
        }
      }
    }

    /** What an attempt to write leaves in the registers. */
    method Attempted(done: bool)
      modifies this`txStatus, this`txAck, this`txTriggered, this`tally
      ensures var h := old(View().host);
        View().host == h.(txStatus := if done then 0 else 1, txAck := !h.txAck, txTriggered := true)
      ensures View().mem == old(mem) && View().card == old(View().card)
      ensures View().tally == old(tally).(writeTries := old(tally).writeTries + 1,
                                          transfers := old(tally).transfers + (if done then 1 else 0))
    {
      hide DevSdCard.View;
      txStatus := if done then 0 else 1;
      txAck, txTriggered := !txAck, true;
      tally := tally.(writeTries := tally.writeTries + 1, transfers := tally.transfers + (if done then 1 else 0));
    }

    /** The write part: one attempt for each pending request, acknowledged whether or not it succeeds. */
    method WriteWork()
      modifies this`txStatus, this`txAck, this`txTriggered, this`tally, card
      ensures View() == RunWrite(old(View()), env)
    {
      hide WriteIn, ReadMem, TxReq, TxLength;
      if TxReq(regs.ctrl) != txAck {
        var data := ReadMem(mem, env.dma(regs.dmaAddr), if card.lastCmd == 24 then 512 else TxLength(regs.dataCfg));
        var done, err := card.Write(data, env.accepts(card.offset, |data|));
        Attempted(done);
      }
    }

    /** The result says whether the interrupt is raised. */
    method CheckForWork() returns (irq: bool)
      modifies this, card
      ensures View() == CheckedForWork(old(View()), env)
      ensures irq <==> Interrupting(View().host)
    {
      hide RunCommand, RunWrite;
      CommandWork();
      WriteWork();
      irq := (txTriggered && txEnabled) || (rxTriggered && rxEnabled);
      if irq {
        tally := tally.(irqs := tally.irqs + 1);
      }
    }

    method SetIrqReg(v: Word)
      modifies this`txEnabled, this`rxEnabled, this`txTriggered, this`rxTriggered
      ensures View() == old(View()).(host := WithReg(old(View()).host, IRQ, v))
    {
      hide EnablesTx, EnablesRx, ClearsTx, ClearsRx;
      txEnabled, rxEnabled := EnablesTx(v), EnablesRx(v);
      txTriggered, rxTriggered := txTriggered && !ClearsTx(v), rxTriggered && !ClearsRx(v);
    }

    /** The register write itself. */
    method SetReg(r: Reg, v: Word)
      modifies this`regs, this`txEnabled, this`rxEnabled, this`txTriggered, this`rxTriggered
      ensures View() == old(View()).(host := WithReg(old(View()).host, r, v))
    {
      match r {
        case IRQ => SetIrqReg(v);
        case CB0 => regs := regs.(cb0 := v);
        case CB1 => regs := regs.(cb1 := v);
        case CTRL => regs := regs.(ctrl := v);
        case DATACFG => regs := regs.(dataCfg := v);
        case DMA_ADDR => regs := regs.(dmaAddr := v);
      }
    }

    method Write32(r: Reg, v: Word) returns (irq: bool)
      modifies this, card
      ensures View() == AfterWrite(old(View()), r, v, env) && (irq <==> Interrupting(View().host))
    {
      hide CheckedForWork, WithReg, View, Interrupting;
      SetReg(r, v);
      irq := CheckForWork();
    }
  }

  // ---------------------------------------------------------------- The handshake

  /** Both acknowledgements match their requests: nothing is pending but perhaps a read. */
  predicate Settled(h: Host) { !CmdPending(h) && !TxPending(h) }

  function Toggles(p: bool, q: bool): nat { if p != q then 1 else 0 }

  lemma CommandEffects(w: World, env: Outside)
    ensures var d := RunCommand(w, env);
      && d.host.regs.ctrl == w.host.regs.ctrl && !CmdPending(d.host) && d.host.txAck == w.host.txAck
      && d.tally.commands == w.tally.commands + (if CmdPending(w.host) then 1 else 0) && d.tally.writeTries == w.tally.writeTries
      && (d.host.rxAck != w.host.rxAck ==> CmdPending(w.host) && !RxPending(d.host))
  {
    hide CardCommand, Receive, CmdReq, RxReq, TxReq;
    CardCommandEffects(w);
    ReceiveEffects(CardCommand(w), env);
  }

  lemma CardCommandEffects(w: World)
    ensures var d := CardCommand(w);
      && d.card == Commanded(w.card, CommandIndex(w.host.regs.cb1), CommandArg(w.host.regs.cb0, w.host.regs.cb1)).0
      && d.host == w.host.(rb := d.host.rb, cmdStatus := d.host.cmdStatus, cmdAck := !w.host.cmdAck) && d.mem == w.mem
      && d.tally == w.tally.(commands := w.tally.commands + 1, dataCommands := d.tally.dataCommands)
  {
    hide Commanded, CommandIndex, CommandArg, IsDataCommand, ReplyTo, Replied;
  }

  lemma ReceiveEffects(w: World, env: Outside)
    ensures var d := Receive(w, env);
      && d.host == w.host.(rxStatus := d.host.rxStatus, rxAck := d.host.rxAck, rxTriggered := d.host.rxTriggered)
      && d.tally == w.tally.(transfers := d.tally.transfers) && (d.host.rxAck != w.host.rxAck ==> !RxPending(d.host))
  {
    hide ReadOut, WriteMem, RxReq, RxLength;
  }

  lemma WriteEffects(w: World, env: Outside)
    ensures var d := RunWrite(w, env);
      && d.host == w.host.(txStatus := d.host.txStatus, txAck := d.host.txAck, txTriggered := d.host.txTriggered)
      && !TxPending(d.host) && d.tally.commands == w.tally.commands
      && d.tally.writeTries == w.tally.writeTries + (if TxPending(w.host) then 1 else 0) && d.mem == w.mem
  {
    hide WriteIn, ReadMem, CmdReq, RxReq, TxReq, TxLength;
  }

  /** After every register write both acknowledgements match their requests. From such a state, a write runs one card
      command if it toggles CMDREQ and none otherwise, makes one write attempt if it toggles TXREQ and none otherwise, and
      acknowledges a read only if it runs a command. */
  lemma OneWrite(w: World, r: Reg, v: Word, env: Outside)
    ensures var d := AfterWrite(w, r, v, env);
      && Settled(d.host) && d.host.regs.ctrl == (if r.CTRL? then v else w.host.regs.ctrl)
      && (Settled(w.host) ==>
            && d.tally.commands == w.tally.commands + Toggles(CmdReq(w.host.regs.ctrl), CmdReq(d.host.regs.ctrl))
            && d.tally.writeTries == w.tally.writeTries + Toggles(TxReq(w.host.regs.ctrl), TxReq(d.host.regs.ctrl))
            && (d.host.rxAck != w.host.rxAck ==> CmdReq(w.host.regs.ctrl) != CmdReq(d.host.regs.ctrl) && !RxPending(d.host)))
  {
    hide RunCommand, RunWrite, CmdReq, RxReq, TxReq;
    var start := w.(host := WithReg(w.host, r, v));
    CommandEffects(start, env);
    WriteEffects(RunCommand(start, env), env);
  }

  /** Every register write raises the interrupt if a completed transfer's is enabled by then, and at no other time. */
  lemma InterruptsCount(w: World, r: Reg, v: Word, env: Outside)
    ensures var d := AfterWrite(w, r, v, env);
      d.tally.irqs == w.tally.irqs + (if Interrupting(d.host) then 1 else 0)
  {
    hide CardCommand, Receive, RunWrite, CmdReq, WithReg;
    var start := w.(host := WithReg(w.host, r, v));
    CardCommandEffects(start);
    ReceiveEffects(CardCommand(start), env);
    WriteCounts(RunCommand(start, env), env);
  }

  lemma WriteCounts(w: World, env: Outside)
    ensures RunWrite(w, env).tally.irqs == w.tally.irqs
  {
    hide WriteIn, ReadMem, TxReq, TxLength;
  }

  /** The interrupt register: bits 8 and 9 enable, and a one in bit 0 or 1 takes the completion back. */
  lemma InterruptRegister(w: World, v: Word, env: Outside)
    requires AllQuiet(w.host)
    ensures var d := AfterWrite(w, IRQ, v, env);
      && d == w.(host := d.host, tally := d.tally)
      && d.host == w.host.(rxEnabled := v / 0x100 % 2 == 1, txEnabled := v / 0x200 % 2 == 1,
                           rxTriggered := w.host.rxTriggered && v % 2 == 0, txTriggered := w.host.txTriggered && v / 2 % 2 == 0)
  {
    hide CheckedForWork, CmdReq, RxReq, TxReq;
    NothingToDo(w.(host := WithReg(w.host, IRQ, v)), env);
  }

  datatype RegWrite = RegWrite(reg: Reg, val: Word)

  /** A driver: any sequence of register writes. */
  function Drive(w: World, ops: seq<RegWrite>, env: Outside): World {
    if ops == [] then w
    else AfterWrite(Drive(w, ops[..|ops| - 1], env), ops[|ops| - 1].reg, ops[|ops| - 1].val, env)
  }

  /** The values CTRL takes. */
  function CtrlAfter(ctrl: Word, ops: seq<RegWrite>): Word {
    if ops == [] then ctrl
    else if ops[|ops| - 1].reg.CTRL? then ops[|ops| - 1].val else CtrlAfter(ctrl, ops[..|ops| - 1])
  }

  /** How often a bit of CTRL is toggled along the way. */
  function CountToggles(ctrl: Word, ops: seq<RegWrite>, bit: Word -> bool): nat {
    if ops == [] then 0
    else
      var early := ops[..|ops| - 1];
      CountToggles(ctrl, early, bit) + Toggles(bit(CtrlAfter(ctrl, early)), bit(CtrlAfter(ctrl, ops)))
  }

  /** Over any sequence of register writes: as many card commands as CMDREQ is toggled, as many write attempts as TXREQ is. */
  lemma {:induction false} OnePerToggle(w: World, ops: seq<RegWrite>, env: Outside)
    requires Settled(w.host)
    ensures var d := Drive(w, ops, env);
      && Settled(d.host) && d.host.regs.ctrl == CtrlAfter(w.host.regs.ctrl, ops)
      && d.tally.commands == w.tally.commands + CountToggles(w.host.regs.ctrl, ops, CmdReq)
      && d.tally.writeTries == w.tally.writeTries + CountToggles(w.host.regs.ctrl, ops, TxReq)
  {
    hide CmdReq, TxReq, AfterWrite, Settled, Toggles;
    if ops != [] {
      var early, last := ops[..|ops| - 1], ops[|ops| - 1];
      OnePerToggle(w, early, env);
      OneWrite(Drive(w, early, env), last.reg, last.val, env);
    }
  }

  // ---------------------------------------------------------------- Transfers are paid for by data commands

  /** Transfers so far, plus the one the card is ready for, are covered by data commands so far. */
  predicate Covered(w: World) {
    w.tally.transfers + (if w.card.state == DATA then 1 else 0) <= w.tally.dataCommands
  }

  lemma CommandCovered(w: World, env: Outside)
    requires Covered(w)
    ensures Covered(RunCommand(w, env))
  {
    hide Commanded, ReadOut, WriteMem, CmdReq, RxReq, CommandIndex, CommandArg, RxLength, IsDataCommand;
    var cmd := CommandIndex(w.host.regs.cb1);
    CommandArms(w.card, cmd, CommandArg(w.host.regs.cb0, w.host.regs.cb1));
    TransferDisarms(Commanded(w.card, cmd, CommandArg(w.host.regs.cb0, w.host.regs.cb1)).0, RxLength(w.host.regs.dataCfg), [], 0);
  }

  lemma WriteCovered(w: World, env: Outside)
    requires Covered(w)
    ensures Covered(RunWrite(w, env))
  {
    hide WriteIn, ReadMem, TxReq, TxLength;
    var data := ReadMem(w.mem, env.dma(w.host.regs.dmaAddr), WriteSize(w.card, TxLength(w.host.regs.dataCfg)));
    TransferDisarms(w.card, 0, data, env.accepts(w.card.offset, |data|));
  }

  /** Over any sequence of register writes, each data command permits at most one transfer. */
  lemma {:induction false} TransfersCovered(w: World, ops: seq<RegWrite>, env: Outside)
    requires Covered(w)
    ensures Covered(Drive(w, ops, env))
  {
    hide RunCommand, RunWrite, WithReg, Covered;
    if ops != [] {
      var early, last := ops[..|ops| - 1], ops[|ops| - 1];
      TransfersCovered(w, early, env);
      var before := Drive(w, early, env);
      var start := before.(host := WithReg(before.host, last.reg, last.val));
      SameCover(before, start);
      CommandCovered(start, env);
      WriteCovered(RunCommand(start, env), env);
      SameCover(RunWrite(RunCommand(start, env), env), Drive(w, ops, env));
    }
  }

  lemma SameCover(w: World, d: World)
    requires Covered(w) && d.card == w.card && d.tally.transfers == w.tally.transfers
    requires d.tally.dataCommands == w.tally.dataCommands
    ensures Covered(d)
  {
  }

  // ---------------------------------------------------------------- A block out, and back in

  /** A write of `v` to CTRL that toggles these requests and no other. */
  predicate TogglesJust(h: Host, v: Word, cmd: bool, rx: bool, tx: bool) {
    && (CmdReq(v) != CmdReq(h.regs.ctrl)) == cmd && (RxReq(v) != RxReq(h.regs.ctrl)) == rx
    && (TxReq(v) != TxReq(h.regs.ctrl)) == tx
  }

  predicate AllQuiet(h: Host) { Settled(h) && !RxPending(h) }

  /** A command by itself. */
  lemma IssueCommand(w: World, v: Word, env: Outside)
    requires AllQuiet(w.host) && TogglesJust(w.host, v, true, false, false)
    ensures var d := AfterWrite(w, CTRL, v, env);
      && AllQuiet(d.host) && d.mem == w.mem && d.host.regs == w.host.regs.(ctrl := v)
      && d.card == Commanded(w.card, CommandIndex(w.host.regs.cb1), CommandArg(w.host.regs.cb0, w.host.regs.cb1)).0
      && d.host.rb == Replied(w.host.rb, ReplyTo(w.card, CommandIndex(w.host.regs.cb1),
                                                 CommandArg(w.host.regs.cb0, w.host.regs.cb1)))
      && d.host.cmdStatus
         == (if Commanded(w.card, CommandIndex(w.host.regs.cb1), CommandArg(w.host.regs.cb0, w.host.regs.cb1)).1 then 0 else 1)
  {
    hide Commanded, CmdReq, RxReq, TxReq, CommandIndex, CommandArg, IsDataCommand, ReplyTo, Replied;
  }

  /** A write attempt. */
  lemma IssueWrite(w: World, v: Word, env: Outside)
    requires AllQuiet(w.host) && TogglesJust(w.host, v, false, false, true)
    ensures var d := AfterWrite(w, CTRL, v, env);
      && AllQuiet(d.host) && d.mem == w.mem && d.host.regs == w.host.regs.(ctrl := v)
      && var size := WriteSize(w.card, TxLength(w.host.regs.dataCfg));
         var data := ReadMem(w.mem, env.dma(w.host.regs.dmaAddr), size);
         var t := WriteIn(w.card, data, env.accepts(w.card.offset, |data|));
         d.card == t.card && d.host.txStatus == (if t.ok then 0 else 1) && d.host.txTriggered
  {
    hide WriteIn, ReadMem, CmdReq, RxReq, TxReq, WriteSize, TxLength;
  }

  /** A command together with a request to receive what it makes available. */
  lemma IssueRead(w: World, v: Word, env: Outside)
    requires AllQuiet(w.host) && TogglesJust(w.host, v, true, true, false)
    ensures var d := AfterWrite(w, CTRL, v, env);
      var c := Commanded(w.card, CommandIndex(w.host.regs.cb1), CommandArg(w.host.regs.cb0, w.host.regs.cb1)).0;
      var t := ReadOut(c, RxLength(w.host.regs.dataCfg));
      if t.ok || t.err then
        && AllQuiet(d.host) && d.host.rxStatus == (if t.err then 1 else 0) && d.host.rxTriggered && d.card == t.card
        && d.mem == WriteMem(w.mem, env.dma(w.host.regs.dmaAddr), t.data)
      else RxPending(d.host) && d.mem == w.mem && d.card == t.card
  {
    hide Commanded, CardCommand, Receive, ReadOut, WriteMem, CmdReq, RxReq, TxReq, CommandIndex, CommandArg, RxLength,
         RaiseIrq;
    var start := w.(host := WithReg(w.host, CTRL, v));
    CardCommandEffects(start);
    ReceiveDone(CardCommand(start), env);
    IrqOnlyCounted(RunWrite(RunCommand(start, env), env));
    ReadOkNotErr(Commanded(w.card, CommandIndex(w.host.regs.cb1), CommandArg(w.host.regs.cb0, w.host.regs.cb1)).0,
                 RxLength(w.host.regs.dataCfg));
  }

  lemma ReceiveDone(w: World, env: Outside)
    ensures var t := ReadOut(w.card, RxLength(w.host.regs.dataCfg));
      var d := Receive(w, env);
      && (RxPending(w.host) && !t.ok && !t.err ==> d == w.(card := t.card))
      && (RxPending(w.host) && (t.ok || t.err) ==>
            && d.card == t.card && d.mem == WriteMem(w.mem, env.dma(w.host.regs.dmaAddr), t.data)
            && d.host == w.host.(rxStatus := if t.err then 1 else 0, rxAck := !w.host.rxAck, rxTriggered := true))
  {
    hide ReadOut, WriteMem, RxReq, RxLength;
  }

  lemma IrqOnlyCounted(w: World)
    ensures var d := RaiseIrq(w); d.host == w.host && d.card == w.card && d.mem == w.mem
  {
  }

  lemma ReadOkNotErr(c: Card, size: nat)
    ensures !(ReadOut(c, size).ok && ReadOut(c, size).err)
  {
    TransferDisarms(c, size, [], 0);
  }

  lemma {:induction false} WriteMemBytes(mem: HostMem, a: nat, data: seq<Byte>, b: nat)
    ensures ByteAt(WriteMem(mem, a, data), b) == if a <= b < a + |data| then data[b - a] else ByteAt(mem, b)
  {
    if data != [] {
      WriteMemBytes(mem, a, data[..|data| - 1], b);
    }
  }

  lemma {:induction false} ReadBackMem(mem: HostMem, a: nat, data: seq<Byte>)
    ensures ReadMem(WriteMem(mem, a, data), a, |data|) == data
  {
    hide WriteMem;
    forall i | 0 <= i < |data| ensures ReadMem(WriteMem(mem, a, data), a, |data|)[i] == data[i] {
      WriteMemBytes(mem, a, data, a + i);
    }
  }

  /** The command registers name command `cmd` with argument `a`. */
  predicate Names(r: Regs, cmd: nat, a: Word) { CommandIndex(r.cb1) == cmd && CommandArg(r.cb0, r.cb1) == a }

  /** CMD24, a write that the image file takes, and later CMD17 with a read at the same block: the read buffer ends up with the
      bytes that were in the write buffer. `later` is the world when the read is issued: registers and memory may have
      changed since. */
  lemma BlockRoundTrip(w: World, v1: Word, v2: Word, later: World, v3: Word, a: Word, env: Outside)
    requires AllQuiet(w.host) && Usable(w.card) && Names(w.host.regs, 24, a) && env.accepts(ByteOffset(a), 512) >= 512
    requires AllQuiet(later.host) && Names(later.host.regs, 17, a)
    ensures var commanded := AfterWrite(w, CTRL, v1, env);
      var written := AfterWrite(commanded, CTRL, v2, env);
      var d := AfterWrite(later, CTRL, v3, env);
      && TogglesJust(w.host, v1, true, false, false) && TogglesJust(commanded.host, v2, false, false, true)
      && later.card == written.card && TogglesJust(later.host, v3, true, true, false) ==>
      && d.host.rxStatus == 0
      && ReadMem(d.mem, env.dma(later.host.regs.dmaAddr), 512) == ReadMem(w.mem, env.dma(w.host.regs.dmaAddr), 512)
  {
    hide AfterWrite, AllQuiet, TogglesJust, ReadMem, WriteMem, TxLength, RxLength, CommandIndex, CommandArg, Commanded,
         WriteIn, Written, Replied, ReplyTo, ReadOut, BlockAt, BlockOf, ReadsBack, BlockArg, BlockNo, ByteOffset;
    if TogglesJust(w.host, v1, true, false, false)
       && TogglesJust(AfterWrite(w, CTRL, v1, env).host, v2, false, false, true)
       && later.card == AfterWrite(AfterWrite(w, CTRL, v1, env), CTRL, v2, env).card
       && TogglesJust(later.host, v3, true, true, false) {
      var block := ReadMem(w.mem, env.dma(w.host.regs.dmaAddr), 512);
      IssueCommand(w, v1, env);
      IssueWrite(AfterWrite(w, CTRL, v1, env), v2, env);
      BlockLength(w.mem, env.dma(w.host.regs.dmaAddr));
      ReadyToWrite(w.card, a);
      Took(Commanded(w.card, 24, a).0, block, env.accepts(ByteOffset(a), 512));
      WrittenOnce(w.card, a, block);
      assert later.card == Written(w.card, 24, a, block).card;
      IssueRead(later, v3, env);
      SizeIgnored(later.card, a, RxLength(later.host.regs.dataCfg));
      ReadOkNotErr(Commanded(later.card, 17, a).0, RxLength(later.host.regs.dataCfg));
      ReadBackMem(later.mem, env.dma(later.host.regs.dmaAddr), block);
    }
  }

  lemma ReadyToWrite(c: Card, a: Word)
    requires Usable(c)
    ensures var d := Commanded(c, 24, a).0; d.lastCmd == 24 && d.offset == ByteOffset(a)
  {
    hide ByteOffset;
  }

  /** A block written reads back at its own number. */
  lemma WrittenOnce(c: Card, a: Word, block: seq<Byte>)
    requires Usable(c) && |block| == 512
    ensures Written(c, 24, a, block).card == WriteIn(Commanded(c, 24, a).0, block, 512).card
    ensures var w := Written(c, 24, a, block).card; Usable(w) && BlockAt(w, a).ok && BlockAt(w, a).data == block
  {
    hide BlockAt, BlockNo, Pwrite, WriteIn, Commanded;
    AllReadBack(c, 24, a, 1, block);
    WrittenIs(c, 24, a, block);
    assert ReadsBack(Written(c, 24, a, block).card, a, 0, block);
    assert BlockArg(a, 0) == a && BlockOf(block, 0) == block;
  }

  lemma Took(c: Card, data: seq<Byte>, took: nat)
    requires took >= |data|
    ensures WriteIn(c, data, took) == WriteIn(c, data, |data|)
  {
    hide Pwrite;
  }

  /** After a command by itself, the response registers hold the card's answer: taken apart as a command is, they name the command,
      and for most commands tell the state it has left the card in. */
  lemma StatusRead(w: World, v: Word, env: Outside)
    requires AllQuiet(w.host) && TogglesJust(w.host, v, true, false, false) && w.card.state <= 8
    requires var cmd := CommandIndex(w.host.regs.cb1);
      StatusCommand(w.card, cmd) && Commanded(w.card, cmd, CommandArg(w.host.regs.cb0, w.host.regs.cb1)).1
    ensures var d := AfterWrite(w, CTRL, v, env); var status := CommandArg(d.host.rb.rb0, d.host.rb.rb1);
      && CommandIndex(d.host.rb.rb1) == CommandIndex(w.host.regs.cb1)
      && status / 0x200 == d.card.state && (status / 0x20 % 2 == 1 <==> d.card.acmd)
  {
    hide AllQuiet, TogglesJust, RunCommand, RunWrite, Commanded, StatusCommand, ReplyTo;
    var cmd, arg := CommandIndex(w.host.regs.cb1), CommandArg(w.host.regs.cb0, w.host.regs.cb1);
    StatusTells(w.card, cmd, arg);
    IssueCommand(w, v, env);
    assert cmd % 0x40 == cmd;
  }

  lemma BlockLength(mem: HostMem, a: nat)
    ensures |ReadMem(mem, a, 512)| == 512
  {
  }

  /** CMD17 reads a block whatever length the host asks for. */
  lemma SizeIgnored(c: Card, a: Word, size: nat)
    requires Usable(c)
    ensures ReadOut(Commanded(c, 17, a).0, size) == BlockAt(c, a)
  {
    hide Pread;
  }

  // ---------------------------------------------------------------- A driver, in register values

  /** A register with one of its bits turned over. */
  function Flip(x: Word, bit: Word): (r: int)
    requires bit > 0
  {
    if x / bit % 2 == 1 then x - bit else x + bit
  }

  /** The two words of a command frame, without its CRC: index and argument, most significant byte first. */
  function Frame0(a: Word): int { a % 0x100_0000 * 0x100 }

  function Frame1(cmd: nat, a: Word): int { cmd * 0x100 + a / 0x100_0000 }

  /** The registers of a transfer, and then CTRL: with request bit 0 turned over for the command. */
  function Setup(cmd: nat, a: Word, cfg: Word, addr: Word): seq<RegWrite>
    requires cmd < 0x40
  {
    [RegWrite(CB0, Frame0(a)), RegWrite(CB1, Frame1(cmd, a)), RegWrite(DATACFG, cfg), RegWrite(DMA_ADDR, addr)]
  }

  lemma FramesName(cmd: nat, a: Word)
    requires cmd < 0x40
    ensures 0 <= Frame0(a) < 0x1_0000_0000 && 0 <= Frame1(cmd, a) < 0x1_0000_0000
    ensures CommandIndex(Frame1(cmd, a)) == cmd && CommandArg(Frame0(a), Frame1(cmd, a)) == a
  {
    Parts(cmd, a / 0x100_0000);
    Parts(a % 0x100_0000, 0);
  }

  lemma Flipped(x: Word, bit: Word)
    requires bit == 1 || bit == 0x10 || bit == 0x100
    ensures 0 <= Flip(x, bit) < 0x1_0000_0000
    ensures var y: Word := Flip(x, bit);
      && (CmdReq(y) != CmdReq(x) <==> bit == 1) && (RxReq(y) != RxReq(x) <==> bit == 0x10) && (TxReq(y) != TxReq(x) <==> bit == 0x100)
  {
    if bit == 1 {
      FlipLow(x);
    } else if bit == 0x10 {
      FlipMiddle(x);
    } else {
      FlipHigh(x);
    }
  }

  lemma FlipLow(x: Word)
    ensures var y := if x % 2 == 1 then x - 1 else x + 1;
      y < 0x1_0000_0000 && y % 2 != x % 2 && y / 0x10 == x / 0x10 && y / 0x100 == x / 0x100
  {
    var y := if x % 2 == 1 then x - 1 else x + 1;
    assert y / 2 == x / 2;
    DivideTwice(x, 2, 8);
    DivideTwice(y, 2, 8);
    DivideTwice(x, 2, 0x80);
    DivideTwice(y, 2, 0x80);
  }

  lemma FlipMiddle(x: Word)
    ensures var y := if x / 0x10 % 2 == 1 then x - 0x10 else x + 0x10;
      y < 0x1_0000_0000 && y % 2 == x % 2 && y / 0x10 % 2 != x / 0x10 % 2 && y / 0x100 == x / 0x100
  {
    var y := if x / 0x10 % 2 == 1 then x - 0x10 else x + 0x10;
    var q, b, r := x / 0x20, x / 0x10 % 2, x % 0x10;
    DivideTwice(x, 0x10, 2);
    assert x == 0x20 * q + 0x10 * b + r;
    assert y == 0x20 * q + 0x10 * (1 - b) + r;
    Quotients(q, 1 - b, r, 0x10, y);
    DivideTwice(x, 0x20, 8);
    DivideTwice(y, 0x20, 8);
    assert y % 2 == r % 2 && x % 2 == r % 2;
  }

  lemma FlipHigh(x: Word)
    ensures var y := if x / 0x100 % 2 == 1 then x - 0x100 else x + 0x100;
      y < 0x1_0000_0000 && y % 2 == x % 2 && y / 0x10 % 2 == x / 0x10 % 2 && y / 0x100 % 2 != x / 0x100 % 2
  {
    var y := if x / 0x100 % 2 == 1 then x - 0x100 else x + 0x100;
    var q, b, r := x / 0x200, x / 0x100 % 2, x % 0x100;
    DivideTwice(x, 0x100, 2);
    assert x == 0x200 * q + 0x100 * b + r;
    assert y == 0x200 * q + 0x100 * (1 - b) + r;
    Quotients(q, 1 - b, r, 0x100, y);
    LowNibbles(q, b, r, x);
    LowNibbles(q, 1 - b, r, y);
  }

  lemma Quotients(q: nat, b: nat, r: nat, bit: nat, y: nat)
    requires b < 2 && bit > 0 && r < bit && y == 2 * bit * q + bit * b + r
    ensures y / bit == 2 * q + b && y / bit % 2 == b && y / (2 * bit) == q
  {
    assert y == bit * (2 * q + b) + r;
    RemainderIs(y, bit, 2 * q + b, r);
    BelowProduct(bit, 2, b, r);
    RemainderIs(y, 2 * bit, q, bit * b + r);
  }

  lemma LowNibbles(q: nat, b: nat, r: nat, x: nat)
    requires b < 2 && r < 0x100 && x == 0x200 * q + 0x100 * b + r
    ensures x % 2 == r % 2 && x / 0x10 % 2 == r / 0x10 % 2
  {
    var k := 0x20 * q + 0x10 * b + r / 0x10;
    RemainderIs(x, 0x10, k, r % 0x10);
    SameParity(0x10 * q + 8 * b, r / 0x10);
    SameParity(0x100 * q + 0x80 * b, r);
  }

  lemma SameParity(x: nat, y: nat)
    ensures (2 * x + y) % 2 == y % 2
  {
  }

  // ---------------------------------------------------------------- Whole transfers

  /** Writing one of the registers of a transfer when nothing is pending only sets it. */
  lemma QuietSet(w: World, r: Reg, v: Word, env: Outside)
    requires AllQuiet(w.host) && r != CTRL && r != IRQ
    ensures var d := AfterWrite(w, r, v, env);
      && AllQuiet(d.host) && d.card == w.card && d.mem == w.mem && d.host == w.host.(regs := d.host.regs)
      && d.host.regs == (match r
                         case CB0 => w.host.regs.(cb0 := v)
                         case CB1 => w.host.regs.(cb1 := v)
                         case DATACFG => w.host.regs.(dataCfg := v)
                         case _ => w.host.regs.(dmaAddr := v))
  {
    hide CheckedForWork, CmdReq, RxReq, TxReq;
    NothingToDo(w.(host := WithReg(w.host, r, v)), env);
  }

  /** With nothing pending there is only the interrupt to look at. */
  lemma NothingToDo(w: World, env: Outside)
    requires AllQuiet(w.host)
    ensures var d := CheckedForWork(w, env); d == w.(tally := d.tally)
  {
    hide CardCommand, Receive, CmdReq, RxReq, TxReq, WriteIn, ReadMem, Interrupting;
  }

  lemma {:induction false} DriveOne(w: World, ops: seq<RegWrite>, op: RegWrite, env: Outside)
    ensures Drive(w, ops + [op], env) == AfterWrite(Drive(w, ops, env), op.reg, op.val, env)
  {
    hide AfterWrite;
    assert (ops + [op])[..|ops|] == ops;
  }

  lemma {:induction false} SetupSets(w: World, cmd: nat, a: Word, cfg: Word, addr: Word, env: Outside)
    requires AllQuiet(w.host) && cmd < 0x40
    ensures var d := Drive(w, Setup(cmd, a, cfg, addr), env);
      && AllQuiet(d.host) && d.card == w.card && d.mem == w.mem && d.host == w.host.(regs := d.host.regs)
      && d.host.regs == w.host.regs.(cb0 := Frame0(a), cb1 := Frame1(cmd, a), dataCfg := cfg, dmaAddr := addr)
      && Names(d.host.regs, cmd, a)
  {
    hide AllQuiet, AfterWrite, CommandIndex, CommandArg, Frame0, Frame1;
    FramesName(cmd, a);
    var ops := Setup(cmd, a, cfg, addr);
    var w0 := Drive(w, [], env);
    var w1 := AfterWrite(w0, CB0, Frame0(a), env);
    var w2 := AfterWrite(w1, CB1, Frame1(cmd, a), env);
    var w3 := AfterWrite(w2, DATACFG, cfg, env);
    DriveOne(w, [], ops[0], env);
    DriveOne(w, [ops[0]], ops[1], env);
    DriveOne(w, [ops[0]] + [ops[1]], ops[2], env);
    DriveOne(w, [ops[0]] + [ops[1]] + [ops[2]], ops[3], env);
    assert ops == [ops[0]] + [ops[1]] + [ops[2]] + [ops[3]];
    assert [] + [ops[0]] == [ops[0]];
    QuietSet(w0, CB0, Frame0(a), env);
    QuietSet(w1, CB1, Frame1(cmd, a), env);
    QuietSet(w2, DATACFG, cfg, env);
    QuietSet(w3, DMA_ADDR, addr, env);
  }

  /** Writes `n` blocks at block `a` from the buffer at `addr`: CMD25, and once it has been answered, the data. */
  function WriteBlocks(w: World, a: Word, n: nat, addr: Word, env: Outside): World
    requires 0 < n <= 0x1_0000
  {
    var commanded := Command(Drive(w, Setup(25, a, (n - 1) * 0x1_0000, addr), env), env);
    Flipped(commanded.host.regs.ctrl, 0x100);
    AfterWrite(commanded, CTRL, Flip(commanded.host.regs.ctrl, 0x100), env)
  }

  /** Turns the command request over. */
  function Command(w: World, env: Outside): World {
    Flipped(w.host.regs.ctrl, 1);
    AfterWrite(w, CTRL, Flip(w.host.regs.ctrl, 1), env)
  }

  /** Reads `n` blocks at block `a` to the buffer at `addr`: CMD18, with the request to receive. One block is given as 128 words. */
  function ReadBlocks(w: World, a: Word, n: nat, addr: Word, env: Outside): World
    requires 0 < n <= 0x1_0000
  {
    var ready := Drive(w, Setup(18, a, if n == 1 then 128 else (n - 1) * 0x1_0000, addr), env);
    var c := ready.host.regs.ctrl;
    Flipped(c, 1);
    Flipped(Flip(c, 1), 0x10);
    AfterWrite(ready, CTRL, Flip(Flip(c, 1), 0x10), env)
  }

  /** What is written through the registers is what is read back, any number of blocks at a time, when the image file takes it. */
  lemma {:induction false} BlocksThroughRegisters(w: World, a: Word, n: nat, from: Word, to: Word, env: Outside)
    requires AllQuiet(w.host) && Usable(w.card) && 0 < n <= 0x1_0000 && env.accepts(512 * a % 0x1_0000_0000, 512 * n) >= 512 * n
    ensures var written := WriteBlocks(w, a, n, from, env);
      var d := ReadBlocks(written, a, n, to, env);
      && AllQuiet(written.host) && written.host.txStatus == 0 && written.host.txTriggered
      && AllQuiet(d.host) && d.host.rxStatus == 0 && d.host.rxTriggered && Usable(d.card)
      && ReadMem(d.mem, env.dma(to), 512 * n) == ReadMem(w.mem, env.dma(from), 512 * n)
  {
    hide AllQuiet, AfterWrite, Drive, Setup, ReadMem, WriteMem, Usable, Flip, Written, BlocksAt, Commanded, WriteIn, ReadOut,
         CommandIndex, CommandArg, TxLength, RxLength, BlockNo, Frame0, Frame1, ReplyTo, Replied, CmdReq, RxReq, TxReq;
    var cfg: Word := (n - 1) * 0x1_0000;
    var ready := Drive(w, Setup(25, a, cfg, from), env);
    SetupSets(w, 25, a, cfg, from, env);
    Flipped(ready.host.regs.ctrl, 1);
    IssueCommand(ready, Flip(ready.host.regs.ctrl, 1), env);
    var commanded := Command(ready, env);
    Flipped(commanded.host.regs.ctrl, 0x100);
    IssueWrite(commanded, Flip(commanded.host.regs.ctrl, 0x100), env);
    var written := WriteBlocks(w, a, n, from, env);
    var data := ReadMem(w.mem, env.dma(from), 512 * n);
    LengthsAre(n);
    DataLength(w.mem, env.dma(from), 512 * n);
    ReadyToWriteMany(w.card, a);
    Took(Commanded(w.card, 25, a).0, data, env.accepts(512 * a % 0x1_0000_0000, 512 * n));
    WrittenMany(w.card, a, n, data);
    assert written.card == Written(w.card, 25, a, data).card;
    var back := Drive(written, Setup(18, a, if n == 1 then 128 else cfg, to), env);
    SetupSets(written, 18, a, if n == 1 then 128 else cfg, to, env);
    var c := back.host.regs.ctrl;
    Flipped(c, 1);
    Flipped(Flip(c, 1), 0x10);
    IssueRead(back, Flip(Flip(c, 1), 0x10), env);
    ReadBackMem(back.mem, env.dma(to), data);
    StillUsable(written.card, a, 512 * n);
    ReadOkNotErr(Commanded(written.card, 18, a).0, 512 * n);
  }

  lemma LengthsAre(n: nat)
    requires 0 < n <= 0x1_0000
    ensures (n - 1) * 0x1_0000 < 0x1_0000_0000
    ensures TxLength((n - 1) * 0x1_0000) == 512 * n && RxLength(if n == 1 then 128 else (n - 1) * 0x1_0000) == 512 * n
  {
    RemainderIs((n - 1) * 0x1_0000, 0x1_0000, n - 1, 0);
  }

  lemma DataLength(mem: HostMem, a: nat, n: nat)
    ensures |ReadMem(mem, a, n)| == n
  {
  }

  lemma ReadyToWriteMany(c: Card, a: Word)
    requires Usable(c)
    ensures var d := Commanded(c, 25, a).0; d.lastCmd == 25 && d.offset == 512 * a % 0x1_0000_0000
  {
  }

  lemma WrittenMany(c: Card, a: Word, n: nat, data: seq<Byte>)
    requires Usable(c) && 0 < n <= 0x1_0000 && |data| == 512 * n
    ensures var t := WriteIn(Commanded(c, 25, a).0, data, 512 * n); Written(c, 25, a, data).card == t.card && t.ok
    ensures var w := Written(c, 25, a, data).card;
      Usable(w) && BlocksAt(w, a, 512 * n).ok && BlocksAt(w, a, 512 * n).data == data
  {
    hide BlocksAt, BlockNo, Pwrite, WriteIn, Commanded, BlockOf, ReadsBack;
    BlocksReadBack(c, 25, a, n, data);
    WrittenIs(c, 25, a, data);
  }

  lemma StillUsable(c: Card, a: Word, size: nat)
    requires Usable(c)
    ensures BlocksAt(c, a, size) == ReadOut(Commanded(c, 18, a).0, size) && Usable(BlocksAt(c, a, size).card)
  {
    hide Pread;
  }
}
