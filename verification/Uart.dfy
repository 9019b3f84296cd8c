/** The PTY listener thread and the CPU thread at the simple UART, step by step and in every interleaving
    (SerialPTY.cc, DevSimpleUart.cc). */
module Uart {
  import opened Words
  import opened Rotates

  /** Where the listener thread is: about to do what the name says. The last five are asyncRxCB. */
  datatype Listener =
    | Starting | Polling | Testing | Clearing | Locking | SettingRxne | SettingStatus | Assessing | Unlocking

  /** What the CPU thread asks of the UART. */
  datatype Access = ReadRx | ReadReg | WriteTx | WriteIrqStatus(data: Byte) | WriteIrqEnable(data: Byte)

  /** Where the CPU thread is in read8 or write8; the middle of a read of RX is getByte. */
  datatype CpuAt =
    | Idle | Entering(op: Access) | Doing(op: Access) | Reporting | ClearingRxne | CpuAssessing | CpuUnlocking

  datatype Owner = Free | ByListener | ByCpu

  /** `queue` is what waits in the pty; `arrived` and `taken` are the bytes so far. `edges` counts raised interrupts. */
  datatype State = State(reportRx: bool, registered: bool, queue: seq<Byte>, arrived: seq<Byte>, taken: seq<Byte>,
                         rxne: bool, irqStatus: Byte, irqEnable: Byte, irqActive: bool, edges: nat,
                         mutex: Owner, listener: Listener, cpu: CpuAt)

  datatype Action = Listen | CpuStarts(op: Access) | CpuSteps | Arrives(b: Byte) | Registers

  const Initial: State :=
    State(true, false, [], [], [], false, 0, 0, false, 0, Free, Starting, Idle)

  function WantIrq(status: Byte, enable: Byte): bool { And(status, enable) != 0 }

  /** assessIRQstatus */
  function Assessed(s: State): State {
    var want := WantIrq(s.irqStatus, s.irqEnable);
    s.(irqActive := want, edges := if !s.irqActive && want then s.edges + 1 else s.edges)
  }

  /** `|= UART_REG_IRQ_STATUS_RX` */
  function WithRx(status: Byte): Byte { if status % 2 == 1 then status else status + 1 }

  /** One step of listenThread or of the callback it makes; None when it has to wait. */
  function ListenStep(s: State): (r: State)
    requires CanListen(s)
  {
    match s.listener
    case Starting => s.(reportRx := true, listener := Polling)
    case Polling => s.(listener := Testing)
    case Testing => s.(listener := if s.reportRx && s.registered then Clearing else Polling)
    case Clearing => s.(reportRx := false, listener := Locking)
    case Locking => s.(mutex := ByListener, listener := SettingRxne)
    case SettingRxne => s.(rxne := true, listener := SettingStatus)
    case SettingStatus => s.(irqStatus := WithRx(s.irqStatus), listener := Assessing)
    case Assessing => Assessed(s).(listener := Unlocking)
    case Unlocking => s.(mutex := Free, listener := Polling)
  }

  /** poll waits for input, and the callback for the mutex. */
  predicate CanListen(s: State) {
    (s.listener.Polling? ==> s.queue != []) && (s.listener.Locking? ==> s.mutex == Free)
  }

  /** The access itself. A read of RX starts with taking the byte, in getByte. */
  function DoAccess(s: State, op: Access): (r: State)
    requires op.ReadRx? ==> s.queue != []
    ensures r == s.(queue := r.queue, taken := r.taken, irqStatus := r.irqStatus, irqEnable := r.irqEnable,
                    cpu := if op.ReadRx? then Reporting else CpuAssessing)
    ensures s.taken + s.queue == r.taken + r.queue
  {
    match op
    case ReadRx => s.(queue := s.queue[1..], taken := s.taken + [s.queue[0]], cpu := Reporting)
    case ReadReg => s.(cpu := CpuAssessing)
    case WriteTx => s.(cpu := CpuAssessing)
    case WriteIrqStatus(data) => s.(irqStatus := And(s.irqStatus, 255 - data), cpu := CpuAssessing)
    case WriteIrqEnable(data) => s.(irqEnable := data, cpu := CpuAssessing)
  }

  /** One step of read8 or write8. */
  function CpuStep(s: State): State
    requires CanStep(s)
  {
    match s.cpu
    case Entering(op) => s.(mutex := ByCpu, cpu := Doing(op))
    case Doing(op) => DoAccess(s, op)
    case Reporting => s.(reportRx := true, cpu := ClearingRxne)
    case ClearingRxne => s.(rxne := false, cpu := CpuAssessing)
    case CpuAssessing => Assessed(s).(cpu := CpuUnlocking)
    case CpuUnlocking => s.(mutex := Free, cpu := Idle)
  }

  /** The CPU waits for the mutex, and getByte for a byte, with the mutex held. */
  predicate CanStep(s: State) {
    && !s.cpu.Idle? && (s.cpu.Entering? ==> s.mutex == Free)
    && (s.cpu.Doing? && s.cpu.op.ReadRx? ==> s.queue != [])
  }

  predicate Enabled(s: State, a: Action) {
    match a
    case Listen => CanListen(s)
    case CpuStarts(_) => s.cpu.Idle?
    case CpuSteps => CanStep(s)
    case Arrives(_) => true
    case Registers => true
  }

  function Next(s: State, a: Action): State
    requires Enabled(s, a)
  {
    match a
    case Listen => ListenStep(s)
    case CpuStarts(op) => s.(cpu := Entering(op))
    case CpuSteps => CpuStep(s)
    case Arrives(b) => s.(queue := s.queue + [b], arrived := s.arrived + [b])
    case Registers => s.(registered := true)
  }

  /** The state after a schedule; steps that cannot be taken are passed over, so any schedule is an interleaving. */
  function Play(s: State, schedule: seq<Action>): State {
    if schedule == [] then s
    else
      var before := Play(s, schedule[..|schedule| - 1]);
      var a := schedule[|schedule| - 1];
      if Enabled(before, a) then Next(before, a) else before
  }

  // ---------------------------------------------------------------- Invariant

  /** A callback is on its way: the listener has cleared reportRX and has yet to set RXNE. */
  predicate InFlight(s: State) { s.listener.Locking? || s.listener.SettingRxne? }

  predicate ListenerInside(s: State) {
    s.listener.SettingRxne? || s.listener.SettingStatus? || s.listener.Assessing? || s.listener.Unlocking?
  }

  predicate CpuInside(s: State) { !s.cpu.Idle? && !s.cpu.Entering? }

  predicate Locks(s: State) { (s.mutex == ByListener <==> ListenerInside(s)) && (s.mutex == ByCpu <==> CpuInside(s)) }

  predicate Notified(s: State) {
    && (!s.reportRx && !InFlight(s) ==> s.rxne && !s.cpu.ClearingRxne?)
    && (s.listener.Starting? ==> s.reportRx)
    && (ListenerInside(s) && !s.listener.SettingRxne? ==> s.rxne)
  }

  /** The callback has set the status bit of received input. */
  predicate Flagged(s: State) { s.listener.Assessing? || s.listener.Unlocking? ==> s.irqStatus % 2 == 1 }

  predicate IrqRight(s: State) {
    (s.mutex == Free || s.listener.Unlocking? || s.cpu.CpuUnlocking?) ==> s.irqActive == WantIrq(s.irqStatus, s.irqEnable)
  }

  /** The listener is past its test, in the callback or about to make it. */
  predicate Calling(s: State) { !s.listener.Starting? && !s.listener.Polling? && !s.listener.Testing? }

  /** There is no callback, and so no RXNE, before one is registered; and one is made only when it was asked for. */
  predicate Asked(s: State) { (s.rxne || Calling(s) ==> s.registered) && (s.listener.Clearing? ==> s.reportRx) }

  predicate Inv(s: State) { Locks(s) && Notified(s) && IrqRight(s) && Flagged(s) && Asked(s) }

  predicate InOrder(s: State) { s.arrived == s.taken + s.queue }

  lemma ListenKeeps(s: State)
    requires Inv(s) && CanListen(s)
    ensures Inv(ListenStep(s))
  {
    ListenNotifies(s);
    ListenFlags(s);
    ListenAsks(s);
    hide WantIrq, WithRx, Notified, Flagged, Asked;
  }

  lemma ListenFlags(s: State)
    requires Flagged(s) && CanListen(s)
    ensures Flagged(ListenStep(s))
  {
    hide WantIrq;
  }

  lemma ListenAsks(s: State)
    requires Asked(s) && CanListen(s)
    ensures Asked(ListenStep(s))
  {
    hide WantIrq, WithRx;
  }

  lemma CpuAsks(s: State)
    requires Asked(s) && CanStep(s)
    ensures Asked(CpuStep(s))
  {
    hide WantIrq, DoAccess;
  }

  lemma CpuFlags(s: State)
    requires Flagged(s) && Locks(s) && CanStep(s)
    ensures Flagged(CpuStep(s))
  {
    hide WantIrq, DoAccess;
  }

  lemma ListenNotifies(s: State)
    requires Locks(s) && Notified(s) && CanListen(s)
    ensures Locks(ListenStep(s)) && Notified(ListenStep(s))
  {
    hide WantIrq, WithRx;
  }

  lemma CpuKeeps(s: State)
    requires Inv(s) && CanStep(s)
    ensures Inv(CpuStep(s))
  {
    CpuNotifies(s);
    CpuFlags(s);
    CpuAsks(s);
    hide WantIrq, Notified, DoAccess, Flagged, Asked;
  }

  lemma CpuNotifies(s: State)
    requires Locks(s) && Notified(s) && CanStep(s)
    ensures Locks(CpuStep(s)) && Notified(CpuStep(s))
  {
    hide WantIrq, DoAccess;
  }

  lemma StepInOrder(s: State, a: Action)
    requires InOrder(s) && Enabled(s, a)
    ensures InOrder(Next(s, a))
  {
    hide WantIrq, DoAccess, WithRx;
    match a
    case Arrives(b) => assert s.taken + s.queue + [b] == s.taken + (s.queue + [b]);
    case _ =>
  }

  lemma {:induction false} PlayKeeps(s: State, schedule: seq<Action>)
    requires Inv(s) && InOrder(s)
    ensures Inv(Play(s, schedule)) && InOrder(Play(s, schedule))
  {
    hide And, ListenStep, CpuStep, InOrder, CanListen, CanStep;
    if schedule != [] {
      var early := schedule[..|schedule| - 1];
      PlayKeeps(s, early);
      var before, a := Play(s, early), schedule[|schedule| - 1];
      if Enabled(before, a) {
        StepInOrder(before, a);
        match a
        case Listen => ListenKeeps(before);
        case CpuSteps => CpuKeeps(before);
        case _ =>
      }
    }
  }

  lemma InitialInv()
    ensures Inv(Initial) && InOrder(Initial)
  {
  }

  // ---------------------------------------------------------------- What it means

  /** In every interleaving: when reportRX is false and no callback is on its way, RXNE is set. The interrupt line is right
      whenever the mutex is free, and bytes are taken in the order they came. */
  lemma {:induction false} NoLostNotification(schedule: seq<Action>)
    ensures var s := Play(Initial, schedule);
      && (!s.reportRx && !InFlight(s) ==> s.rxne)
      && (s.mutex == Free ==> s.irqActive == WantIrq(s.irqStatus, s.irqEnable))
      && s.taken <= s.arrived
      && (s.listener.Assessing? || s.listener.Unlocking? ==> s.irqStatus % 2 == 1)
      && (s.listener.Unlocking? && s.irqEnable % 2 == 1 ==> s.irqActive)
      && (!s.registered ==> !s.rxne && !Calling(s))
  {
    hide And, Play;
    InitialInv();
    PlayKeeps(Initial, schedule);
    var s := Play(Initial, schedule);
    assert s.taken + s.queue == s.arrived;
    BothOdd(s.irqStatus, s.irqEnable);
  }

  lemma {:induction false} BothOdd(x: Byte, y: Byte)
    ensures x % 2 == 1 && y % 2 == 1 ==> WantIrq(x, y)
  {
  }

  // ---------------------------------------------------------------- Not more often than asked

  /** How often the callback has been made, in the course of a schedule. */
  function Callbacks(schedule: seq<Action>): nat {
    if schedule == [] then 0
    else
      var early := schedule[..|schedule| - 1];
      Callbacks(early) + (if Calls(Play(Initial, early), schedule[|schedule| - 1]) then 1 else 0)
  }

  predicate Calls(s: State, a: Action) { a.Listen? && s.listener.Clearing? }

  /** In every interleaving, once at first, and then not again until another byte has been taken. */
  lemma {:induction false} OncePerByte(schedule: seq<Action>)
    ensures Callbacks(schedule) <= |Play(Initial, schedule).taken| + 1
  {
    Owing(schedule);
  }

  /** A request that stands, or is about to be made, has not been answered yet. */
  function Owed(s: State): nat { (if s.reportRx then 1 else 0) + (if s.cpu.Reporting? then 1 else 0) }

  lemma {:induction false} Owing(schedule: seq<Action>)
    ensures Callbacks(schedule) + Owed(Play(Initial, schedule)) <= |Play(Initial, schedule).taken| + 1
  {
    hide Owed, Enabled, Next, Inv, InOrder;
    if schedule == [] {
      OwedAtFirst();
    } else {
      var early, a := schedule[..|schedule| - 1], schedule[|schedule| - 1];
      Owing(early);
      InitialInv();
      PlayKeeps(Initial, early);
      var before := Play(Initial, early);
      if Enabled(before, a) {
        StepOwes(before, a);
      } else {
        DisabledCalls(before, a);
      }
    }
  }

  lemma OwedAtFirst()
    ensures Owed(Initial) == 1 && Initial.taken == []
  {
  }

  lemma StepOwes(s: State, a: Action)
    requires Inv(s) && Enabled(s, a)
    ensures Owed(Next(s, a)) + (if Calls(s, a) then 1 else 0) + |s.taken| <= Owed(s) + |Next(s, a).taken|
  {
    hide ListenStep, CpuStep, CanListen, CanStep, Inv, Owed;
    match a
    case Listen => ListenOwes(s);
    case CpuSteps => CpuOwes(s);
    case _ => SameOwed(s, Next(s, a));
  }

  lemma ListenOwes(s: State)
    requires Inv(s) && CanListen(s)
    ensures Owed(ListenStep(s)) + (if s.listener.Clearing? then 1 else 0) <= Owed(s) && ListenStep(s).taken == s.taken
  {
    hide WantIrq, WithRx, IrqRight, Locks, Flagged;
  }

  lemma CpuOwes(s: State)
    requires CanStep(s)
    ensures Owed(CpuStep(s)) + |s.taken| <= Owed(s) + |CpuStep(s).taken|
  {
    hide WantIrq, And;
  }

  lemma SameOwed(s: State, t: State)
    requires t.reportRx == s.reportRx && (t.cpu.Reporting? ==> s.cpu.Reporting?)
    ensures Owed(t) <= Owed(s)
  {
  }

  lemma DisabledCalls(s: State, a: Action)
    ensures !Enabled(s, a) ==> !Calls(s, a)
  {
    hide CanStep;
  }

  // ---------------------------------------------------------------- Announcement

  /** The listener running by itself, `n` steps or until it has to wait. */
  function ListenAlone(s: State, n: nat): State
    decreases n
  {
    if n == 0 || !CanListen(s) then s else ListenAlone(ListenStep(s), n - 1)
  }

  /** What the listener's callback has done by the time that it lets go of the mutex: input is flagged in both status registers, and
      if its interrupt is enabled the line is active, and was raised if it was not. */
  predicate Told(s: State, t: State) {
    && t.rxne && t.irqStatus % 2 == 1 && t.irqEnable == s.irqEnable
    && (s.irqEnable % 2 == 1 ==> t.irqActive && t.edges == s.edges + (if s.irqActive then 0 else 1))
  }

  /** And so input is never left unannounced: in any reachable state with a byte waiting, the callback registered and the
      CPU not in the middle of an access, RXNE is set, or the listener alone sets it within six steps, and within eight has done
      all that its callback does. */
  lemma {:induction false} InputIsAnnounced(schedule: seq<Action>)
    ensures var s := Play(Initial, schedule);
      s.queue != [] && s.registered && s.mutex != ByCpu && !s.rxne ==>
        && (exists n :: 0 <= n <= 6 && ListenAlone(s, n).rxne)
        && exists n :: 0 <= n <= 8 && ListenAlone(s, n).listener.Unlocking? && Told(s, ListenAlone(s, n))
  {
    hide And, Play;
    InitialInv();
    PlayKeeps(Initial, schedule);
    var s := Play(Initial, schedule);
    if s.queue != [] && s.registered && s.mutex != ByCpu && !s.rxne {
      AnnouncedIn(s);
      var n := Distance(s.listener);
      assert 0 <= n <= 6 && ListenAlone(s, n).rxne;
      ToldIn(s);
      assert 0 <= n + 2 <= 8 && ListenAlone(s, n + 2).listener.Unlocking? && Told(s, ListenAlone(s, n + 2));
    }
  }

  lemma {:induction false} AnnouncedIn(s: State)
    requires Inv(s) && s.queue != [] && s.registered && s.mutex != ByCpu && !s.rxne
    ensures Distance(s.listener) > 0 && ListenAlone(s, Distance(s.listener)).rxne
    decreases Distance(s.listener)
  {
    hide And, Assessed;
    ListenKeeps(s);
    if !s.listener.SettingRxne? {
      AnnouncedIn(ListenStep(s));
    }
  }

  lemma {:induction false} ToldIn(s: State)
    requires Inv(s) && s.queue != [] && s.registered && s.mutex != ByCpu && !s.rxne
    ensures var t := ListenAlone(s, Distance(s.listener) + 2); t.listener.Unlocking? && Told(s, t)
    decreases Distance(s.listener)
  {
    hide And, Assessed, Told, Flagged;
    ListenKeeps(s);
    if s.listener.SettingRxne? {
      CallbackEnds(s);
    } else {
      var s' := ListenStep(s);
      AnnouncedIn(s);
      ToldIn(s');
      ToldSame(s, s', ListenAlone(s', Distance(s'.listener) + 2));
    }
  }

  lemma ToldSame(s: State, s': State, t: State)
    requires Told(s', t) && s'.irqEnable == s.irqEnable && s'.edges == s.edges && s'.irqActive == s.irqActive
    ensures Told(s, t)
  {
  }

  lemma {:induction false} CallbackEnds(s: State)
    requires s.listener.SettingRxne?
    ensures var t := ListenAlone(s, 3); t.listener.Unlocking? && Told(s, t)
  {
    var t := ListenStep(ListenStep(s));
    Odd(s.irqStatus);
    BothOdd(t.irqStatus, t.irqEnable);
    hide WantIrq, WithRx;
    assert ListenAlone(s, 3) == ListenStep(t);
  }

  lemma Odd(status: Byte)
    ensures WithRx(status) % 2 == 1
  {
  }

  /** Steps from a place in the listener's loop to RXNE being set. */
  function Distance(l: Listener): nat {
    match l
    case Starting => 6
    case Polling => 5
    case Testing => 4
    case Clearing => 3
    case Locking => 2
    case SettingRxne => 1
    case _ => 0
  }

  // ---------------------------------------------------------------- What an access does

  /** The CPU running by itself, `n` steps or until it has to wait. */
  function CpuAlone(s: State, n: nat): State
    decreases n
  {
    if n == 0 || !CanStep(s) then s else CpuAlone(CpuStep(s), n - 1)
  }

  predicate BothHave(x: Byte, y: Byte, i: nat) { Bit(x, i) && Bit(y, i) }

  /** The interrupt line after an access: active exactly if some enabled bit of the status is set, and raised if it was not. */
  ghost predicate LineRight(s: State, t: State) {
    && (t.irqActive <==> exists i :: 0 <= i < 8 && BothHave(t.irqStatus, t.irqEnable, i))
    && t.edges == s.edges + (if t.irqActive && !s.irqActive then 1 else 0)
  }

  /** An access that is not disturbed. Reading RX takes the oldest byte, clears RXNE and asks to be told of more; writing the
      interrupt status clears the bits that are written as one; writing the interrupt enables replaces them. */
  lemma {:induction false} AccessDoes(s: State, op: Access)
    requires s.cpu == Entering(op) && s.mutex == Free && (op.ReadRx? ==> s.queue != [])
    ensures var t := CpuAlone(s, if op.ReadRx? then 6 else 4);
      && t == s.(cpu := Idle, reportRx := t.reportRx, queue := t.queue, taken := t.taken, rxne := t.rxne,
                 irqStatus := t.irqStatus, irqEnable := t.irqEnable, irqActive := t.irqActive, edges := t.edges)
      && (if op.ReadRx? then t.taken == s.taken + [s.queue[0]] && t.queue == s.queue[1..] && !t.rxne && t.reportRx
          else t.taken == s.taken && t.queue == s.queue && t.rxne == s.rxne && t.reportRx == s.reportRx)
      && (forall i :: 0 <= i < 8 ==>
            Bit(t.irqStatus, i) == (Bit(s.irqStatus, i) && !(op.WriteIrqStatus? && Bit(op.data, i))))
      && t.irqEnable == (if op.WriteIrqEnable? then op.data else s.irqEnable)
      && LineRight(s, t)
  {
    hide WantIrq, Bit, And, BothHave, CpuAlone;
    var done := CpuAlone(s, if op.ReadRx? then 4 else 2);
    StepsOfAccess(s, op);
    forall i | 0 <= i < 8
      ensures Bit(done.irqStatus, i) == (Bit(s.irqStatus, i) && !(op.WriteIrqStatus? && Bit(op.data, i)))
    {
      if op.WriteIrqStatus? {
        ClearedBit(s.irqStatus, op.data, i);
      }
    }
    AssessedRight(done);
  }

  lemma {:induction false} StepsOfAccess(s: State, op: Access)
    requires s.cpu == Entering(op) && s.mutex == Free && (op.ReadRx? ==> s.queue != [])
    ensures var done := CpuAlone(s, if op.ReadRx? then 4 else 2);
      && done.cpu.CpuAssessing?
      && CpuAlone(s, if op.ReadRx? then 6 else 4) == Assessed(done).(cpu := Idle, mutex := Free)
      && done == s.(mutex := ByCpu, cpu := CpuAssessing, reportRx := s.reportRx || op.ReadRx?, rxne := s.rxne && !op.ReadRx?,
                    queue := if op.ReadRx? then s.queue[1..] else s.queue,
                    taken := if op.ReadRx? then s.taken + [s.queue[0]] else s.taken,
                    irqStatus := if op.WriteIrqStatus? then And(s.irqStatus, 255 - op.data) else s.irqStatus,
                    irqEnable := if op.WriteIrqEnable? then op.data else s.irqEnable)
  {
    hide WantIrq, And, CpuAlone, Assessed;
    var entered := CpuStep(s);
    var first := CpuStep(entered);
    var done := if op.ReadRx? then CpuStep(CpuStep(first)) else first;
    OneCpuStep(s, 4);
    OneCpuStep(s, 2);
    OneCpuStep(entered, 3);
    OneCpuStep(entered, 1);
    NoCpuStep(done);
    if op.ReadRx? {
      OneCpuStep(s, 6);
      OneCpuStep(entered, 5);
      OneCpuStep(first, 2);
      OneCpuStep(first, 4);
      OneCpuStep(CpuStep(first), 1);
      OneCpuStep(CpuStep(first), 3);
    }
    AssessThenUnlock(done);
  }

  lemma OneCpuStep(s: State, n: nat)
    requires n > 0
    ensures CanStep(s) ==> CpuAlone(s, n) == CpuAlone(CpuStep(s), n - 1)
  {
    hide CpuStep, CanStep;
  }

  lemma {:induction false} NoCpuStep(s: State)
    ensures CpuAlone(s, 0) == s
  {
  }

  lemma {:induction false} AssessThenUnlock(s: State)
    requires s.cpu.CpuAssessing?
    ensures CpuAlone(s, 2) == Assessed(s).(cpu := Idle, mutex := Free)
  {
    hide WantIrq;
  }

  lemma {:induction false} ClearedBit(x: Byte, data: Byte, i: nat)
    requires i < 8
    ensures Bit(And(x, 255 - data), i) == (Bit(x, i) && !Bit(data, i))
  {
    assert Pow2(8) == 256 by {
      assert Pow2(4) == 16;
    }
    AndBit(x, 255 - data, i);
    ComplementBit(data, 8, i);
  }

  lemma AssessedRight(s: State)
    ensures LineRight(s, Assessed(s).(cpu := Idle, mutex := Free))
  {
    CommonBit(s.irqStatus, s.irqEnable);
    hide And, BothHave;
    var t := Assessed(s).(cpu := Idle, mutex := Free);
    assert t.irqStatus == s.irqStatus && t.irqEnable == s.irqEnable && t.irqActive == (And(s.irqStatus, s.irqEnable) != 0);
  }

  /** Two bytes have a common bit exactly when their conjunction is not zero. */
  lemma {:induction false} CommonBit(x: Byte, y: Byte)
    ensures And(x, y) != 0 <==> exists i :: 0 <= i < 8 && BothHave(x, y, i)
  {
    hide And;
    assert Pow2(8) == 256 by {
      assert Pow2(4) == 16;
    }
    if And(x, y) == 0 {
      forall i | 0 <= i < 8 ensures !BothHave(x, y, i) {
        AndBit(x, y, i);
        ZeroBit(i);
      }
    } else if !exists i :: 0 <= i < 8 && BothHave(x, y, i) {
      forall i | 0 <= i < 8 ensures Bit(And(x, y), i) == Bit(0, i) {
        assert !BothHave(x, y, i);
        AndBit(x, y, i);
        ZeroBit(i);
      }
      SameBits(And(x, y), 0, 8);
      assert false;
    }
  }

  // ---------------------------------------------------------------- What does not hold

  ghost predicate Reached(s: State) { exists schedule :: Play(Initial, schedule) == s }

  lemma {:induction false} OneMore(s: State, a: Action)
    requires Reached(s) && Enabled(s, a)
    ensures Reached(Next(s, a))
  {
    hide Enabled, Next;
    var schedule :| Play(Initial, schedule) == s;
    assert (schedule + [a])[..|schedule|] == schedule;
    assert Play(Initial, schedule + [a]) == Next(s, a);
  }

  lemma {:induction false} ListenMore(s: State, n: nat)
    requires Reached(s)
    ensures Reached(ListenAlone(s, n))
    decreases n
  {
    hide ListenStep, Reached, CanListen;
    if n > 0 && CanListen(s) {
      OneMore(s, Listen);
      ListenMore(ListenStep(s), n - 1);
    }
  }

  lemma {:induction false} CpuMore(s: State, n: nat)
    requires Reached(s)
    ensures Reached(CpuAlone(s, n))
    decreases n
  {
    hide CpuStep, Reached, CanStep;
    if n > 0 && CanStep(s) {
      OneMore(s, CpuSteps);
      CpuMore(CpuStep(s), n - 1);
    }
  }

  /** RXNE does not mean that a byte is waiting. A byte arrives and is announced; poll returns once more; the CPU, seeing RXNE,
      takes the byte, and in doing so asks for reports again; and the listener, which has yet to look at that flag, announces
      input that is no longer there. */
  lemma {:induction false} RxneWithoutByte(b: Byte)
    ensures exists s :: Reached(s) && s.rxne && s.queue == []
  {
    hide Reached, And;
    StartReached();
    OneMore(Initial, Registers);
    var s0 := Initial.(registered := true);
    OneMore(s0, Arrives(b));
    var s1 := s0.(queue := [b], arrived := [b]);
    assert [] + [b] == [b];
    ListenMore(s1, 10);
    var s2 := ListenAlone(s1, 10);
    AnnouncedThenPolled(s1);
    OneMore(s2, CpuStarts(ReadRx));
    var s3 := s2.(cpu := Entering(ReadRx));
    CpuMore(s3, 6);
    var s4 := CpuAlone(s3, 6);
    TakenAndAsked(s3);
    ListenMore(s4, 4);
    AnnouncedLate(s4);
  }

  lemma StartReached()
    ensures Reached(Initial)
  {
    assert Play(Initial, []) == Initial;
  }

  lemma {:induction false} AnnouncedThenPolled(s: State)
    requires s.listener.Starting? && s.registered && s.mutex == Free && s.cpu.Idle? && |s.queue| == 1
    ensures var t := ListenAlone(s, 10);
      t.listener.Testing? && t.registered && t.rxne && t.mutex == Free && t.cpu.Idle? && t.queue == s.queue
  {
    hide WantIrq, WithRx;
    AnnouncedIn5(s);
    var u := ListenAlone(s, 5);
    RestOfCallback(u);
    ListenSplit(s, 5, 5);
  }

  lemma {:induction false} ListenSplit(s: State, j: nat, k: nat)
    ensures ListenAlone(s, j + k) == ListenAlone(ListenAlone(s, j), k)
    decreases j
  {
    hide ListenStep, CanListen;
    if j > 0 && CanListen(s) {
      ListenSplit(ListenStep(s), j - 1, k);
    }
  }

  lemma {:induction false} AnnouncedIn5(s: State)
    requires s.listener.Starting? && s.registered && s.mutex == Free && s.cpu.Idle? && |s.queue| == 1
    ensures ListenAlone(s, 5) == s.(listener := SettingRxne, reportRx := false, mutex := ByListener)
  {
    hide WantIrq, WithRx;
  }

  lemma {:induction false} RestOfCallback(s: State)
    requires s.listener.SettingRxne? && s.registered && s.mutex == ByListener && s.cpu.Idle? && |s.queue| == 1
    ensures var t := ListenAlone(s, 5);
      t.listener.Testing? && t.registered && t.rxne && t.mutex == Free && t.cpu.Idle? && t.queue == s.queue
  {
    hide WantIrq, WithRx;
  }

  lemma {:induction false} TakenAndAsked(s: State)
    requires s.listener.Testing? && s.registered && s.mutex == Free && s.cpu == Entering(ReadRx) && |s.queue| == 1
    ensures var t := CpuAlone(s, 6); t.listener.Testing? && t.registered && t.reportRx && t.mutex == Free && t.queue == []
  {
    hide WantIrq, WithRx;
  }

  lemma {:induction false} AnnouncedLate(s: State)
    requires s.listener.Testing? && s.registered && s.reportRx && s.mutex == Free && s.queue == []
    ensures var t := ListenAlone(s, 4); t.rxne && t.queue == []
  {
  }

  // ---------------------------------------------------------------- Exactly when RXNE can mislead

  /** The CPU takes the last byte waiting while the listener, back from poll, has yet to take the mutex. */
  predicate TakesLate(s: State, a: Action) {
    && a.CpuSteps? && s.cpu == Doing(ReadRx) && |s.queue| == 1
    && (s.listener.Testing? || s.listener.Clearing? || s.listener.Locking?)
  }

  ghost predicate NeverLate(schedule: seq<Action>) {
    forall k :: 0 <= k < |schedule| ==> !TakesLate(Play(Initial, schedule[..k]), schedule[k])
  }

  predicate Honest(s: State) {
    && (s.listener.Testing? || s.listener.Clearing? || s.listener.Locking? || s.listener.SettingRxne? ==> s.queue != [])
    && (s.rxne ==> s.queue != [] || s.cpu.Reporting? || s.cpu.ClearingRxne?)
  }

  lemma StepHonest(s: State, a: Action)
    requires Locks(s) && Honest(s) && Enabled(s, a) && !TakesLate(s, a)
    ensures Honest(Next(s, a))
  {
    hide WantIrq, WithRx;
    if a.CpuSteps? && s.cpu.Doing? && s.cpu.op.ReadRx? {
      assert s.queue[1..] == [] ==> |s.queue| == 1;
    }
  }

  /** In every interleaving without such a take, RXNE means that a byte is waiting, whenever the CPU is not in the middle of
      taking it. */
  lemma {:induction false} RxneHonest(schedule: seq<Action>)
    requires NeverLate(schedule)
    ensures var s := Play(Initial, schedule); Inv(s) && InOrder(s) && Honest(s)
    ensures var s := Play(Initial, schedule); s.rxne && s.mutex != ByCpu ==> s.queue != []
  {
    hide Enabled, Next, TakesLate, Honest, Inv, InOrder, And;
    if schedule == [] {
      StartsHonest();
    } else {
      var early, a := schedule[..|schedule| - 1], schedule[|schedule| - 1];
      forall k | 0 <= k < |early| ensures !TakesLate(Play(Initial, early[..k]), early[k]) {
        assert schedule[..k] == early[..k];
      }
      RxneHonest(early);
      InitialInv();
      PlayKeeps(Initial, schedule);
      var before := Play(Initial, early);
      LocksOf(before);
      if Enabled(before, a) {
        StepHonest(before, a);
      }
    }
    OutsideHonest(Play(Initial, schedule));
  }

  lemma LocksOf(s: State)
    requires Inv(s)
    ensures Locks(s)
  {
  }

  lemma StartsHonest()
    ensures Inv(Initial) && InOrder(Initial) && Honest(Initial)
  {
  }

  lemma OutsideHonest(s: State)
    requires Inv(s) && Honest(s)
    ensures s.rxne && s.mutex != ByCpu ==> s.queue != []
  {
    hide WantIrq;
  }

  /** And every such take can mislead: the CPU finishes its access, a callback is registered if there was none, the listener goes
      on, and RXNE is set with nothing waiting. */
  lemma {:induction false} LateTakeMisleads(s: State)
    requires Inv(s) && TakesLate(s, CpuSteps)
    ensures exists n ::
      0 <= n <= 4 && var t := ListenAlone(Next(CpuAlone(s, 5), Registers), n); t.rxne && t.queue == [] && t.cpu.Idle?
    ensures s.registered ==> Next(CpuAlone(s, 5), Registers) == CpuAlone(s, 5)
  {
    hide WantIrq, WithRx;
    AccessEnds(s);
    var u := Next(CpuAlone(s, 5), Registers);
    Announces(u);
    var n := Distance(u.listener);
    assert 0 <= n <= 4 && ListenAlone(u, n).rxne;
  }

  lemma {:induction false} AccessEnds(s: State)
    requires s.cpu == Doing(ReadRx) && |s.queue| == 1
    ensures var t := CpuAlone(s, 5);
      t.listener == s.listener && t.registered == s.registered && t.reportRx && t.mutex == Free && t.queue == [] && t.cpu.Idle?
  {
    hide WantIrq;
  }

  lemma {:induction false} Announces(s: State)
    requires s.listener.Testing? || s.listener.Clearing? || s.listener.Locking? || s.listener.SettingRxne?
    requires s.registered && (s.listener.Testing? ==> s.reportRx) && (s.listener.SettingRxne? || s.mutex == Free)
    requires s.queue == [] && s.cpu.Idle?
    ensures var t := ListenAlone(s, Distance(s.listener)); t.rxne && t.queue == [] && t.cpu.Idle?
    decreases Distance(s.listener)
  {
    if !s.listener.SettingRxne? {
      Announces(ListenStep(s));
    }
  }
}
