/** The MCP7940N real-time clock driver: a state machine with a continuation, over an I2C bus. */
module Rtc {
  import opened Wrappers
  import opened Bits
  import opened BcdFields

  const NUM_REGISTERS := 31
  const REG_SECONDS: byte := 0x00
  const REG_DAY_OF_WEEK: byte := 0x03
  const FLAG_START_OSCILLATOR: byte := 0x80
  const FLAG_BATTERY_ENABLE: byte := 0x08

  datatype State = NoState | ErrorState | StatusCheck

  datatype NextTask =
    | NoTask
    | OscillatorUpdate(enable: bool) | OscillatorStatus
    | BatteryUpdate(enable: bool) | BatteryStatus
    | DateTimeConvertBcd | DateTimeUpdateAndTransmit

  /** Where received bytes go: into the shared union, or into storage of the caller. */
  datatype Destination = Union(at: nat) | CallerDateTime | CallerRegisters

  datatype Transfer =
    | Transmit(from: nat, count: nat)
    | TransmitThenReceive(from: nat, dest: Destination, count: nat)
  {
    /** The bytes that move behind the register address. */
    function Size(): int
    {
      if Transmit? then count - 1 else count
    }
  }

  datatype Bus = NoHandle | Busy(transfer: Transfer) | Completed | Failed

  /**
   * What the bus may answer to one poll: the transfer is still pending; it is done, and a transfer that
   * the continuation submits gets a handle or is refused; it failed after moving some of its bytes.
   */
  datatype Event = Wait | Done(accepted: bool) | Fail(moved: nat)

  // ---------------------------------------------------------------------------
  // The driver, the bus and the device as values.

  // Layout of the shared union on the 32-bit controller. Its longest member has 31 bytes, and pointers in it round its
  // size up. The date to be written sits behind the registers read back; the pointer to the structure a date is read
  // into is at the front, the one to the answer of a status question behind the register read and its padding.
  const UNION_SIZE := 32
  const DATE_AT := 8
  const DATE_ADDRESS_END := 4
  const STATUS_ADDRESS_AT := 4
  const STATUS_ADDRESS_END := 8

  // `dateAt` and `statusAt` are the addresses of the caller's date structure and flag; `stray` lists the addresses,
  // other than those, that a continuation has written through.
  datatype Driver = Driver(
    state: State, next: NextTask, union: seq<byte>, bus: Bus,
    callerDate: seq<byte>, callerRegisters: seq<byte>, callerStatus: bool, device: seq<byte>,
    dateAt: seq<byte>, statusAt: seq<byte>, stray: seq<seq<byte>>)
  {
    predicate Sized()
    {
      && |union| == UNION_SIZE && |callerDate| == 7
      && |callerRegisters| == NUM_REGISTERS && |device| == NUM_REGISTERS
      && |dateAt| == 4 && |statusAt| == 4
    }

    function DatePointer(): seq<byte>
      requires Sized()
    {
      union[..DATE_ADDRESS_END]
    }

    function StatusPointer(): seq<byte>
      requires Sized()
    {
      union[STATUS_ADDRESS_AT..STATUS_ADDRESS_END]
    }

    /** The transfer stays inside the union, the caller's structure and the register file. */
    predicate TransferOk(t: Transfer)
      requires Sized()
    {
      match t
      case Transmit(from, count) =>
        1 <= count && from + count <= UNION_SIZE && union[from] as int + count - 1 <= NUM_REGISTERS
      case TransmitThenReceive(from, dest, count) =>
        from < UNION_SIZE && union[from] as int + count <= NUM_REGISTERS && FitsIn(dest, count)
    }

    predicate Valid()
    {
      && Sized()
      && (bus.Busy? ==> state == StatusCheck && TransferOk(bus.transfer))
      && (state == StatusCheck ==> bus.Busy? || (bus == Completed && next == NoTask))
      && (state == NoState ==> next == NoTask)
    }

    /** The opposite of busy, as callers may ask before a call: no operation is under way, or one has failed. */
    predicate Ready()
    {
      Valid() && state != StatusCheck
    }

    predicate Idle()
    {
      Valid() && state == NoState
    }
  }

  function Overwrite(s: seq<byte>, at: nat, bytes: seq<byte>): (r: seq<byte>)
    requires at + |bytes| <= |s|
    ensures |r| == |s|
  {
    s[..at] + bytes + s[at + |bytes|..]
  }

  lemma OverwriteNone(s: seq<byte>, at: nat)
    requires at <= |s|
    ensures Overwrite(s, at, []) == s
  {
  }

  lemma OverwriteOne(s: seq<byte>, at: nat, b: byte)
    requires at < |s|
    ensures Overwrite(s, at, [b]) == s[at := b]
  {
  }

  /** The bytes fit where they are received. */
  predicate FitsIn(dest: Destination, size: nat)
  {
    match dest
    case Union(at) => at + size <= UNION_SIZE
    case CallerDateTime => size <= 7
    case CallerRegisters => size <= NUM_REGISTERS
  }

  function Received(d: Driver, dest: Destination, bytes: seq<byte>): (r: Driver)
    requires d.Sized() && FitsIn(dest, |bytes|)
    ensures r.Sized()
  {
    match dest
    case Union(at) => d.(union := Overwrite(d.union, at, bytes))
    case CallerDateTime => d.(callerDate := Overwrite(d.callerDate, 0, bytes))
    case CallerRegisters => d.(callerRegisters := Overwrite(d.callerRegisters, 0, bytes))
  }

  /** The effect of the first `n` bytes of a transfer on the device or on the receive buffer. */
  function Moved(d: Driver, t: Transfer, n: nat): (r: Driver)
    requires d.Sized() && d.TransferOk(t) && n <= t.Size()
    ensures r.Sized()
  {
    match t
    case Transmit(from, _) =>
      d.(device := Overwrite(d.device, d.union[from] as int, d.union[from + 1..from + 1 + n]))
    case TransmitThenReceive(from, dest, _) =>
      Received(d, dest, d.device[d.union[from] as int..d.union[from] as int + n])
  }

  lemma NothingMoved(d: Driver, t: Transfer)
    requires d.Sized() && d.TransferOk(t)
    ensures Moved(d, t, 0).device == d.device
  {
  }

  lemma RegisterRead(d: Driver, from: nat)
    requires d.Sized() && d.TransferOk(TransmitThenReceive(from, Union(0), 1))
    ensures Moved(d, TransmitThenReceive(from, Union(0), 1), 1)
            == d.(union := d.union[0 := d.device[d.union[from] as int]])
  {
    var address := d.union[from] as int;
    assert d.device[address..address + 1] == [d.device[address]];
    OverwriteOne(d.union, 0, d.device[address]);
  }

  lemma RegisterWritten(d: Driver, from: nat)
    requires d.Sized() && d.TransferOk(Transmit(from, 2)) && d.union[from] as int < NUM_REGISTERS
    ensures Moved(d, Transmit(from, 2), 0).device == d.device
    ensures Moved(d, Transmit(from, 2), 1)
            == d.(device := d.device[d.union[from] as int := d.union[from + 1]])
  {
    assert d.union[from + 1..from + 2] == [d.union[from + 1]];
    OverwriteNone(d.device, d.union[from] as int);
    OverwriteOne(d.device, d.union[from] as int, d.union[from + 1]);
  }

  /** Submitting while another transfer is pending is an error, and so is a bus that gives no handle. */
  function Submit(d: Driver, t: Transfer, accepted: bool): Driver
  {
    if d.bus.Busy? then d.(state := ErrorState)
    else if accepted then d.(bus := Busy(t), state := StatusCheck)
    else d.(bus := NoHandle, state := ErrorState)
  }

  function SetFlag(register: byte, flag: byte, enable: bool): byte
  {
    if enable then register | flag else register & !flag
  }

  function Digits(date: seq<byte>): (r: seq<byte>)
    requires |date| == 7
    ensures |r| == 7
  {
    seq(7, k requires 0 <= k < 7 => ToBcd(date[k]))
  }

  function UpdatedRegisters(registers: seq<byte>, digits: seq<byte>): (r: seq<byte>)
    requires |registers| == |digits| == 7
    ensures |r| == 7
  {
    seq(7, k requires 0 <= k < 7 => UpdateField(registers[k], DateMask(k), digits[k]))
  }

  function ConvertedDate(registers: seq<byte>): (r: seq<byte>)
    requires |registers| == 7
    ensures |r| == 7
  {
    seq(7, k requires 0 <= k < 7 => FromBcd(registers[k] & DateMask(k)))
  }

  /** Sending the register read into the first byte of the union back with one flag changed. */
  function SendFlag(d: Driver, register: byte, flag: byte, enable: bool, accepted: bool): Driver
    requires d.Sized()
  {
    var v := SetFlag(d.union[0], flag, enable);
    Submit(d.(union := Overwrite(d.union, 1, [register, v])), Transmit(1, 2), accepted).(next := NoTask)
  }

  /** A status question answered through the pointer in the union. */
  function Answered(d: Driver, answer: bool): (r: Driver)
    requires d.Sized()
  {
    if d.StatusPointer() == d.statusAt then d.(callerStatus := answer) else d.(stray := d.stray + [d.StatusPointer()])
  }

  /** The date structure converted in place, through the pointer in the union. */
  function Converted(d: Driver): (r: Driver)
    requires d.Sized()
  {
    if d.DatePointer() == d.dateAt then d.(callerDate := ConvertedDate(d.callerDate))
    else d.(stray := d.stray + [d.DatePointer()])
  }

  /** The continuation that runs when a transfer is complete; `accepted` answers the transfer it may submit. */
  function Continue(d: Driver, accepted: bool): Driver
    requires d.Sized()
  {
    match d.next
    case NoTask => d.(state := NoState)
    case OscillatorUpdate(enable) => SendFlag(d, REG_SECONDS, FLAG_START_OSCILLATOR, enable, accepted)
    case OscillatorStatus =>
      Answered(d, d.union[0] & FLAG_START_OSCILLATOR != 0).(next := NoTask)
    case BatteryUpdate(enable) => SendFlag(d, REG_DAY_OF_WEEK, FLAG_BATTERY_ENABLE, enable, accepted)
    case BatteryStatus =>
      Answered(d, d.union[0] & FLAG_BATTERY_ENABLE != 0).(next := NoTask)
    case DateTimeUpdateAndTransmit =>
      var registers := UpdatedRegisters(d.union[1..DATE_AT], Digits(d.union[DATE_AT..DATE_AT + 7]));
      Submit(d.(union := [REG_SECONDS] + registers + d.union[DATE_AT..]), Transmit(0, 8), accepted).(next := NoTask)
    case DateTimeConvertBcd =>
      Converted(d).(state := NoState, next := NoTask)
  }

  function Poll(d: Driver, e: Event): Driver
    requires d.Valid()
  {
    if d.state != StatusCheck then d
    else if d.bus == Completed then Continue(d, true)
    else match e
      case Wait => d
      case Fail(moved) =>
        Moved(d, d.bus.transfer, Min(moved, d.bus.transfer.Size())).(bus := Failed, state := ErrorState)
      case Done(accepted) => Continue(Moved(d, d.bus.transfer, d.bus.transfer.Size()).(bus := Completed), accepted)
  }

  lemma DonePoll(d: Driver, e: Event)
    requires d.Valid() && d.bus.Busy? && e.Done?
    ensures Poll(d, e) == Continue(Moved(d, d.bus.transfer, d.bus.transfer.Size()).(bus := Completed), e.accepted)
  {
  }

  lemma ContinueKeepsValid(d: Driver, accepted: bool)
    requires d.Sized() && d.state == StatusCheck && d.bus == Completed
    ensures Continue(d, accepted).Valid()
  {
    var r := Continue(d, accepted);
    match d.next
    case OscillatorUpdate(_) =>
      assert r.union[1] == REG_SECONDS && REG_SECONDS as int == 0;
    case BatteryUpdate(_) =>
      assert r.union[1] == REG_DAY_OF_WEEK && REG_DAY_OF_WEEK as int == 3;
    case DateTimeUpdateAndTransmit =>
      assert r.union[0] == REG_SECONDS && REG_SECONDS as int == 0;
    case _ =>
  }

  lemma PollKeepsValid(d: Driver, e: Event)
    requires d.Valid()
    ensures Poll(d, e).Valid()
  {
    if d.state == StatusCheck && d.bus == Completed {
      ContinueKeepsValid(d, true);
    } else if d.state == StatusCheck && e.Done? {
      ContinueKeepsValid(Moved(d, d.bus.transfer, d.bus.transfer.Size()).(bus := Completed), e.accepted);
    }
  }

  // ---------------------------------------------------------------------------
  // The public operations; `accepted` is the answer of the bus to the transfer they submit.

  datatype Call =
    | WriteDate(date: seq<byte>) | ReadDate
    | ReadRegister(address: byte) | WriteRegister(address: byte, value: byte)
    | ReadNumRegisters(count: nat) | WriteNumRegisters(values: seq<byte>)
    | EnableOscillator(enable: bool) | AskOscillatorStatus
    | EnableBattery(enable: bool) | AskBatteryStatus
  {
    /** Dates have seven components, and no call leaves the register file. */
    predicate Ok()
    {
      && (WriteDate? ==> |date| == 7)
      && (ReadRegister? || WriteRegister? ==> address as int < NUM_REGISTERS)
      && (ReadNumRegisters? ==> count <= NUM_REGISTERS)
      && (WriteNumRegisters? ==> |values| <= NUM_REGISTERS)
    }

    /** The calls that only move registers as they are. */
    predicate Plain()
    {
      ReadRegister? || WriteRegister? || ReadNumRegisters? || WriteNumRegisters?
    }
  }

  /** The continuation a call leaves for its transfer; calls on plain registers leave the one that is there. */
  function NextOf(call: Call, next: NextTask): NextTask
  {
    match call
    case WriteDate(_) => DateTimeUpdateAndTransmit
    case ReadDate => DateTimeConvertBcd
    case EnableOscillator(enable) => OscillatorUpdate(enable)
    case AskOscillatorStatus => OscillatorStatus
    case EnableBattery(enable) => BatteryUpdate(enable)
    case AskBatteryStatus => BatteryStatus
    case _ => next
  }

  /** The shared union with the bytes the call has put there, pointers included. */
  function UnionOf(call: Call, d: Driver): (r: seq<byte>)
    requires d.Sized() && call.Ok()
    ensures |r| == UNION_SIZE
  {
    var union := d.union;
    match call
    case WriteDate(date) => Overwrite(union, DATE_AT, date)[0 := REG_SECONDS]
    case ReadDate => Overwrite(union, 0, d.dateAt)[DATE_ADDRESS_END := REG_SECONDS]
    case ReadRegister(address) => union[0 := address]
    case WriteRegister(address, value) => Overwrite(union, 0, [address, value])
    case ReadNumRegisters(_) => union[0 := REG_SECONDS]
    case WriteNumRegisters(values) => Overwrite(union, 0, [REG_SECONDS] + values)
    case EnableOscillator(_) => union[1 := REG_SECONDS]
    case AskOscillatorStatus => Overwrite(union, STATUS_ADDRESS_AT, d.statusAt)[STATUS_ADDRESS_END := REG_SECONDS]
    case EnableBattery(_) => union[1 := REG_DAY_OF_WEEK]
    case AskBatteryStatus => Overwrite(union, STATUS_ADDRESS_AT, d.statusAt)[STATUS_ADDRESS_END := REG_DAY_OF_WEEK]
  }

  function TransferOf(call: Call): Transfer
  {
    match call
    case WriteDate(_) => TransmitThenReceive(0, Union(1), 7)
    case ReadDate => TransmitThenReceive(4, CallerDateTime, 7)
    case ReadRegister(_) => TransmitThenReceive(0, CallerRegisters, 1)
    case WriteRegister(_, _) => Transmit(0, 2)
    case ReadNumRegisters(count) => TransmitThenReceive(0, CallerRegisters, count)
    case WriteNumRegisters(values) => Transmit(0, |values| + 1)
    case EnableOscillator(_) => TransmitThenReceive(1, Union(0), 1)
    case AskOscillatorStatus => TransmitThenReceive(8, Union(0), 1)
    case EnableBattery(_) => TransmitThenReceive(1, Union(0), 1)
    case AskBatteryStatus => TransmitThenReceive(8, Union(0), 1)
  }

  function Start(d: Driver, call: Call, accepted: bool): Driver
    requires d.Sized() && call.Ok()
  {
    Submit(d.(next := NextOf(call, d.next), union := UnionOf(call, d)), TransferOf(call), accepted)
  }

  lemma StartsAreValid(d: Driver, call: Call, accepted: bool)
    requires d.Ready() && call.Ok()
    ensures Start(d, call, accepted).Valid()
    ensures var r := Start(d, call, accepted);
      if accepted then r.state == StatusCheck && r.bus == Busy(TransferOf(call)) else r.state == ErrorState
  {
    assert REG_SECONDS as int == 0 && REG_DAY_OF_WEEK as int == 3;
  }

  // ---------------------------------------------------------------------------
  // Runs: any number of polls, each with any answer of the bus.

  function Run(d: Driver, events: seq<Event>): (r: Driver)
    requires d.Valid()
    ensures r.Valid()
    decreases |events|
  {
    if events == [] then d
    else
      PollKeepsValid(d, events[0]);
      Run(Poll(d, events[0]), events[1..])
  }

  function Completions(events: seq<Event>): nat
  {
    if events == [] then 0 else (if events[0].Done? then 1 else 0) + Completions(events[1..])
  }

  predicate ErrorFree(events: seq<Event>)
  {
    events == [] || ((events[0] == Wait || events[0] == Done(true)) && ErrorFree(events[1..]))
  }

  /** The polls and calls of a program that asks whether the driver is busy before it calls. */
  datatype Action = Polled(event: Event) | Called(call: Call, accepted: bool)

  function Act(d: Driver, action: Action): (r: Driver)
    requires d.Valid()
    ensures r.Valid()
  {
    match action
    case Polled(e) => PollKeepsValid(d, e); Poll(d, e)
    case Called(call, accepted) =>
      if d.Ready() && call.Ok() then StartsAreValid(d, call, accepted); Start(d, call, accepted) else d
  }

  /** After any program: the bus is used only while busy, and without an operation nothing is left to do next. */
  lemma {:induction false} ProgramsKeepValid(d: Driver, program: seq<Action>) returns (states: seq<Driver>)
    requires d.Valid()
    ensures |states| == |program| + 1 && states[0] == d
    ensures forall i :: 0 <= i < |states| ==> states[i].Valid()
    ensures forall i :: 0 <= i < |program| ==> states[i + 1] == Act(states[i], program[i])
    ensures forall i :: 0 <= i < |states| && states[i].state == NoState ==>
                          states[i].next == NoTask && !states[i].bus.Busy?
    decreases |program|
  {
    states := [d];
    if program != [] {
      var rest := ProgramsKeepValid(Act(d, program[0]), program[1..]);
      states := states + rest;
    }
  }

  lemma {:induction false} NothingMore(d: Driver, events: seq<Event>)
    requires d.Valid() && d.state != StatusCheck
    ensures Run(d, events) == d
  {
    if events != [] {
      NothingMore(d, events[1..]);
    }
  }

  /** The continuations that submit a transfer of their own. */
  predicate Submits(next: NextTask)
  {
    next.OscillatorUpdate? || next.BatteryUpdate? || next.DateTimeUpdateAndTransmit?
  }

  /** When the bus gives no handle for the second transfer, the operation fails with the device untouched. */
  lemma RefusedPoll(d: Driver)
    requires d.Valid() && d.bus.Busy? && d.bus.transfer.TransmitThenReceive? && Submits(d.next)
    ensures Poll(d, Done(false)).state == ErrorState && Poll(d, Done(false)).device == d.device
  {
  }

  /** The continuations that end the operation without another transfer or another poll. */
  predicate EndsOperation(next: NextTask)
  {
    next == NoTask || next == DateTimeConvertBcd
  }

  /** The registers a pending transfer may leave behind, however far it gets. */
  ghost predicate LeftBehind(d: Driver, device: seq<byte>)
    requires d.Valid() && d.bus.Busy?
  {
    exists n: nat :: n <= d.bus.transfer.Size() && device == Moved(d, d.bus.transfer, n).device
  }

  lemma LastPoll(d: Driver, e: Event)
    requires d.Valid() && d.bus.Busy? && EndsOperation(d.next) && e != Wait
    ensures Poll(d, e).Valid() && Poll(d, e).state != StatusCheck && LeftBehind(d, Poll(d, e).device)
  {
    PollKeepsValid(d, e);
    var t := d.bus.transfer;
    var n := if e.Done? then t.Size() else Min(e.moved, t.Size());
    assert Poll(d, e).device == Moved(d, t, n).device;
  }

  /** A pending transfer whose continuation ends the operation. */
  lemma {:induction false} LastTransfer(d: Driver, events: seq<Event>)
    requires d.Valid() && d.bus.Busy? && EndsOperation(d.next)
    ensures ErrorFree(events) ==> Run(d, events) == if Completions(events) == 0 then d else Poll(d, Done(true))
    ensures LeftBehind(d, Run(d, events).device)
  {
    if events == [] || events[0] == Wait {
      NothingMoved(d, d.bus.transfer);
      if events != [] {
        LastTransfer(d, events[1..]);
      }
    } else {
      LastPoll(d, events[0]);
      NothingMore(Poll(d, events[0]), events[1..]);
    }
  }

  /** A pending read whose continuation submits the last transfer. */
  lemma {:induction false} TwoTransfers(d: Driver, mid: Driver, events: seq<Event>)
    requires d.Valid() && d.bus.Busy? && d.bus.transfer.TransmitThenReceive?
    requires mid == Poll(d, Done(true)) && mid.Valid() && mid.bus.Busy? && mid.next == NoTask
    requires Poll(d, Done(false)).state == ErrorState && Poll(d, Done(false)).device == mid.device == d.device
    ensures ErrorFree(events) ==>
              Run(d, events) == if Completions(events) == 0 then d
                                else if Completions(events) == 1 then mid else Poll(mid, Done(true))
    ensures LeftBehind(mid, Run(d, events).device)
  {
    NothingMoved(mid, mid.bus.transfer);
    assert LeftBehind(mid, d.device);
    if events != [] {
      PollKeepsValid(d, events[0]);
      if events[0] == Wait {
        TwoTransfers(d, mid, events[1..]);
      } else if events[0] == Done(true) {
        LastTransfer(mid, events[1..]);
      } else {
        NothingMore(Poll(d, events[0]), events[1..]);
        if events[0].Fail? {
          FailedReadKeepsDevice(d, events[0]);
        }
      }
    }
  }

  lemma FailedReadKeepsDevice(d: Driver, e: Event)
    requires d.Valid() && d.bus.Busy? && d.bus.transfer.TransmitThenReceive? && e.Fail?
    ensures Poll(d, e).device == d.device
  {
  }

  /** The registers as they should be after writing digits, and after writing a date. */
  function WithDigits(device: seq<byte>, digits: seq<byte>): (r: seq<byte>)
    requires |device| == NUM_REGISTERS && |digits| == 7
    ensures |r| == NUM_REGISTERS
  {
    UpdatedRegisters(device[..7], digits) + device[7..]
  }

  function WithDate(device: seq<byte>, date: seq<byte>): (r: seq<byte>)
    requires |device| == NUM_REGISTERS && |date| == 7
    ensures |r| == NUM_REGISTERS
  {
    WithDigits(device, Digits(date))
  }

  lemma DateRead(start: Driver, e: Event)
    requires start.Valid() && start.bus == Busy(TransmitThenReceive(0, Union(1), 7)) && start.union[0] == REG_SECONDS
    requires e.Done?
    ensures var read := start.(union := Overwrite(start.union, 1, start.device[..7]), bus := Completed);
      Poll(start, e) == Continue(read, e.accepted)
  {
    assert REG_SECONDS as int == 0;
  }

  lemma DateUnion(d: Driver, date: seq<byte>)
    requires d.Sized() && |date| == 7
    ensures var read := Overwrite(UnionOf(WriteDate(date), d), 1, d.device[..7]);
      read[1..DATE_AT] == d.device[..7] && read[DATE_AT..DATE_AT + 7] == date
  {
    var read := Overwrite(UnionOf(WriteDate(date), d), 1, d.device[..7]);
    assert read[1..DATE_AT] == d.device[..7];
    assert read[DATE_AT..DATE_AT + 7] == date;
  }

  lemma WriteDateSteps(d: Driver, date: seq<byte>)
    requires d.Ready() && |date| == 7
    ensures var start := Start(d, WriteDate(date), true);
      && start.Valid() && start.bus.Busy? && start.bus.transfer.TransmitThenReceive? && start.device == d.device
      && Poll(start, Done(false)).state == ErrorState && Poll(start, Done(false)).device == d.device
      && var mid := Poll(start, Done(true));
         && mid.Valid() && mid.bus == Busy(Transmit(0, 8)) && mid.device == d.device
         && mid.next == NoTask && mid.union[DATE_AT..DATE_AT + 7] == date
         && mid.union[0] as int == 0 && mid.union[1..8] == WithDate(d.device, date)[..7]
  {
    var start := Start(d, WriteDate(date), true);
    StartsAreValid(d, WriteDate(date), true);
    DateRead(start, Done(true));
    RefusedPoll(start);
    DateUnion(d, date);
    PollKeepsValid(start, Done(true));
    assert REG_SECONDS as int == 0;
    var updated := UpdatedRegisters(d.device[..7], Digits(date));
    assert WithDate(d.device, date)[..7] == updated;
    var read := Overwrite(start.union, 1, d.device[..7]);
    AfterUpdate(read, updated);
  }

  lemma AfterUpdate(read: seq<byte>, updated: seq<byte>)
    requires |read| == UNION_SIZE && |updated| == 7
    ensures var union := [REG_SECONDS] + updated + read[DATE_AT..];
      union[1..8] == updated && union[DATE_AT..DATE_AT + 7] == read[DATE_AT..DATE_AT + 7]
  {
  }

  /** The first `n` registers of the new contents in front of the other registers of the old. */
  function FirstNew(before: seq<byte>, after: seq<byte>, n: nat): seq<byte>
    requires |before| == |after| && n <= |before|
  {
    after[..n] + before[n..]
  }

  /**
   * Writing the date. An error-free run ends idle with the date written. In every run, whatever is refused
   * or fails half-way, the registers written are the first ones of the date and the others are as before.
   */
  lemma WriteDateRun(d: Driver, date: seq<byte>, events: seq<Event>)
    requires d.Ready() && |date| == 7
    ensures Start(d, WriteDate(date), true).Valid()
    ensures var r := Run(Start(d, WriteDate(date), true), events);
      && (ErrorFree(events) && Completions(events) < 2 ==> r.device == d.device)
      && (ErrorFree(events) && Completions(events) >= 2 ==> r.Idle() && r.device == WithDate(d.device, date))
      && exists n: nat :: n <= 7 && r.device == FirstNew(d.device, WithDate(d.device, date), n)
  {
    WriteDateSteps(d, date);
    var start := Start(d, WriteDate(date), true);
    var mid := Poll(start, Done(true));
    TwoTransfers(start, mid, events);
    var r := Run(start, events);
    var n: nat :| n <= 7 && r.device == Moved(mid, mid.bus.transfer, n).device;
    MovedDate(d, date, mid, n);
    MovedDate(d, date, mid, 7);
  }

  lemma PrefixOfSlice(s: seq<byte>, from: nat, to: nat, n: nat)
    requires from + n <= to <= |s|
    ensures s[from..to][..n] == s[from..from + n]
  {
  }

  lemma MovedDate(d: Driver, date: seq<byte>, mid: Driver, n: nat)
    requires d.Sized() && |date| == 7 && n <= 7
    requires mid.Valid() && mid.bus == Busy(Transmit(0, 8)) && mid.device == d.device
    requires mid.union[0] as int == 0 && mid.union[1..8] == WithDate(d.device, date)[..7]
    ensures Moved(mid, mid.bus.transfer, n).device == FirstNew(d.device, WithDate(d.device, date), n)
    ensures FirstNew(d.device, WithDate(d.device, date), 7) == WithDate(d.device, date)
  {
    PrefixOfSlice(mid.union, 1, 8, n);
    PrefixOfSlice(WithDate(d.device, date), 0, 7, n);
  }

  lemma ReadDateStep(d: Driver)
    requires d.Ready()
    ensures var start := Start(d, ReadDate, true);
      && start.Valid() && start.bus == Busy(TransmitThenReceive(4, CallerDateTime, 7)) && start.device == d.device
      && start.next == DateTimeConvertBcd && start.DatePointer() == d.dateAt
      && Moved(start, start.bus.transfer, 7) == start.(callerDate := d.device[..7])
  {
    StartsAreValid(d, ReadDate, true);
    var start := Start(d, ReadDate, true);
    assert start.union[4] == REG_SECONDS && REG_SECONDS as int == 0;
    assert start.DatePointer() == d.dateAt;
    assert Overwrite(start.callerDate, 0, d.device[..7]) == d.device[..7];
  }

  /** Reading the date: in every error-free run the caller's structure gets the decoded registers. */
  lemma ReadDateRun(d: Driver, events: seq<Event>)
    requires d.Ready()
    ensures Start(d, ReadDate, true).Valid()
    ensures ErrorFree(events) && Completions(events) >= 1 ==>
              var r := Run(Start(d, ReadDate, true), events);
              r.Idle() && r.callerDate == ConvertedDate(d.device[..7])
    ensures Run(Start(d, ReadDate, true), events).device == d.device
  {
    ReadDateStep(d);
    var start := Start(d, ReadDate, true);
    DonePoll(start, Done(true));
    PollKeepsValid(start, Done(true));
    LastTransfer(start, events);
  }

  /** Every component is a value its masked field can hold. */
  ghost predicate FitsFields(date: seq<byte>)
    requires |date| == 7
  {
    forall k :: 0 <= k < 7 ==> date[k] <= FieldLimit(k)
  }

  lemma RegisterRoundTrip(device: seq<byte>, date: seq<byte>, k: nat)
    requires |device| == NUM_REGISTERS && |date| == 7 && k < 7
    ensures FromBcd(WithDate(device, date)[k] & DateMask(k)) == date[k] <==> date[k] <= FieldLimit(k)
  {
    FieldRoundTrip(device[k], k, date[k]);
  }

  lemma RegistersRoundTrip(device: seq<byte>, date: seq<byte>)
    requires |device| == NUM_REGISTERS && |date| == 7
    ensures ConvertedDate(WithDate(device, date)[..7]) == date <==> FitsFields(date)
  {
    var converted := ConvertedDate(WithDate(device, date)[..7]);
    forall k | 0 <= k < 7
      ensures converted[k] == date[k] <==> date[k] <= FieldLimit(k)
    {
      RegisterRoundTrip(device, date, k);
    }
  }

  /** Write then read gives back the written date exactly when every component fits its field. */
  lemma WriteThenRead(d: Driver, date: seq<byte>, writing: seq<Event>, reading: seq<Event>)
    requires d.Ready() && |date| == 7
    requires ErrorFree(writing) && Completions(writing) >= 2 && ErrorFree(reading) && Completions(reading) >= 1
    ensures Start(d, WriteDate(date), true).Valid()
    ensures var written := Run(Start(d, WriteDate(date), true), writing);
      written.Idle() && Start(written, ReadDate, true).Valid()
      && (Run(Start(written, ReadDate, true), reading).callerDate == date <==> FitsFields(date))
  {
    WriteDateRun(d, date, writing);
    var written := Run(Start(d, WriteDate(date), true), writing);
    ReadDateRun(written, reading);
    RegistersRoundTrip(d.device, date);
  }

  // ---------------------------------------------------------------------------
  // What writing a date does to bits that are not the date's.

  /** The two register files differ in bits of the date at most. */
  ghost predicate SameOutsideDate(a: seq<byte>, b: seq<byte>)
    requires |a| == |b| == NUM_REGISTERS
  {
    && (forall k :: 0 <= k < 7 ==> a[k] & !DateMask(k) == b[k] & !DateMask(k))
    && a[7..] == b[7..]
  }

  /** Writing leaves all other bits alone exactly when no digit bit outside its field meets a clear bit. */
  lemma WritingKeepsOtherBits(device: seq<byte>, digits: seq<byte>)
    requires |device| == NUM_REGISTERS && |digits| == 7
    ensures SameOutsideDate(WithDigits(device, digits), device)
            <==> forall k :: 0 <= k < 7 ==> Spilled(device[k], k, digits[k]) == 0
  {
    var r := WithDigits(device, digits);
    assert r[7..] == device[7..];
    forall k | 0 <= k < 7
      ensures r[k] & !DateMask(k) == device[k] & !DateMask(k) <==> Spilled(device[k], k, digits[k]) == 0
    {
      FieldKeepsOtherBits(device[k], k, digits[k]);
    }
  }

  /** A device whose date registers are all clear. */
  function BlankDevice(): (r: seq<byte>)
    ensures |r| == NUM_REGISTERS && forall k :: 0 <= k < NUM_REGISTERS ==> r[k] == 0
  {
    seq(NUM_REGISTERS, _ => 0)
  }

  ghost predicate DigitsStay(digits: seq<byte>)
    requires |digits| == 7
  {
    forall k :: 0 <= k < 7 ==> digits[k] & !DateMask(k) == 0
  }

  lemma DigitsOnEveryDevice(digits: seq<byte>)
    requires |digits| == 7
    ensures (forall device :: |device| == NUM_REGISTERS ==> SameOutsideDate(WithDigits(device, digits), device))
            <==> DigitsStay(digits)
  {
    forall device: seq<byte> | |device| == NUM_REGISTERS
      ensures SameOutsideDate(WithDigits(device, digits), device)
              <==> forall k :: 0 <= k < 7 ==> Spilled(device[k], k, digits[k]) == 0
      ensures DigitsStay(digits) ==>
                forall k :: 0 <= k < 7 ==> Spilled(device[k], k, digits[k]) == 0
    {
      WritingKeepsOtherBits(device, digits);
      forall k | 0 <= k < 7
        ensures digits[k] & !DateMask(k) == 0 ==> Spilled(device[k], k, digits[k]) == 0
      {
        StayingSpillsNothing(device[k], k, digits[k]);
      }
    }
    forall k | 0 <= k < 7
      ensures Spilled(BlankDevice()[k], k, digits[k]) == 0 ==> digits[k] & !DateMask(k) == 0
    {
      StayingSpillsNothing(0, k, digits[k]);
    }
  }

  ghost predicate StaysInFields(date: seq<byte>)
    requires |date| == 7
  {
    forall k :: 0 <= k < 7 ==> StaysInField(k, date[k])
  }

  lemma DateDigitsStay(date: seq<byte>)
    requires |date| == 7
    ensures DigitsStay(Digits(date)) <==> StaysInFields(date)
  {
    forall k | 0 <= k < 7
      ensures Digits(date)[k] & !DateMask(k) == 0 <==> StaysInField(k, date[k])
    {
      BcdStaysInField(k, date[k]);
    }
  }

  /** A date can be written to every device without touching other bits exactly when it stays in its fields. */
  lemma SafeOnEveryDevice(date: seq<byte>)
    requires |date| == 7
    ensures (forall device :: |device| == NUM_REGISTERS ==> SameOutsideDate(WithDate(device, date), device))
            <==> StaysInFields(date)
  {
    DigitsOnEveryDevice(Digits(date));
    DateDigitsStay(date);
  }

  /** A date of the calendar, with years counted from the start of a century. */
  predicate CalendarDate(date: seq<byte>)
    requires |date| == 7
  {
    && date[0] <= 59 && date[1] <= 59 && date[2] <= 23 && 1 <= date[3] <= 7
    && 1 <= date[4] <= 31 && 1 <= date[5] <= 12 && date[6] <= 99
  }

  /** Dates from October to December, and only those, are neither read back nor kept inside their fields. */
  lemma CalendarDates(date: seq<byte>)
    requires |date| == 7 && CalendarDate(date)
    ensures FitsFields(date) <==> date[5] <= 9
    ensures StaysInFields(date) <==> date[5] <= 9
  {
    assert FieldLimit(5) == 9;
    assert StaysInField(5, date[5]) <==> date[5] <= 9;
  }

  /** The runs: after a complete error-free write, bits outside the date are as they were under that condition. */
  lemma WriteDateRunKeepsOtherBits(d: Driver, date: seq<byte>, events: seq<Event>)
    requires d.Ready() && |date| == 7 && ErrorFree(events) && Completions(events) >= 2
    ensures Start(d, WriteDate(date), true).Valid()
    ensures SameOutsideDate(Run(Start(d, WriteDate(date), true), events).device, d.device)
            <==> forall k :: 0 <= k < 7 ==> Spilled(d.device[k], k, Digits(date)[k]) == 0
  {
    WriteDateRun(d, date, events);
    WritingKeepsOtherBits(d.device, Digits(date));
  }

  // ---------------------------------------------------------------------------
  // Single flags.

  /** The first transfer of a flag operation brings one register into the first byte of the union. */
  lemma FirstRead(start: Driver, from: nat, e: Event)
    requires start.Valid() && start.bus == Busy(TransmitThenReceive(from, Union(0), 1)) && e.Done?
    ensures start.union[from] as int < NUM_REGISTERS
    ensures var read := start.(union := start.union[0 := start.device[start.union[from] as int]], bus := Completed);
      Poll(start, e) == Continue(read, e.accepted)
  {
    RegisterRead(start, from);
    DonePoll(start, e);
  }

  lemma FlagSent(read: Driver, register: byte, flag: byte, enable: bool)
    requires read.Sized() && read.bus == Completed
    ensures SendFlag(read, register, flag, enable, false).state == ErrorState
    ensures SendFlag(read, register, flag, enable, false).device == read.device
    ensures var mid := SendFlag(read, register, flag, enable, true);
      && mid.bus == Busy(Transmit(1, 2)) && mid.state == StatusCheck && mid.next == NoTask && mid.device == read.device
      && |mid.union| == UNION_SIZE
      && mid.union[1] == register && mid.union[2] == SetFlag(read.union[0], flag, enable)
  {
  }

  function EnableCall(oscillator: bool, enable: bool): Call
  {
    if oscillator then EnableOscillator(enable) else EnableBattery(enable)
  }

  function WithFlag(device: seq<byte>, oscillator: bool, enable: bool): (r: seq<byte>)
    requires |device| == NUM_REGISTERS
    ensures |r| == NUM_REGISTERS
  {
    if oscillator then device[0 := SetFlag(device[0], FLAG_START_OSCILLATOR, enable)]
    else device[3 := SetFlag(device[3], FLAG_BATTERY_ENABLE, enable)]
  }

  lemma EnableSubmitted(d: Driver, oscillator: bool, enable: bool)
    requires d.Ready()
    ensures var start := Start(d, EnableCall(oscillator, enable), true);
      && start.Valid() && start.bus == Busy(TransmitThenReceive(1, Union(0), 1)) && start.device == d.device
      && start.next == (if oscillator then OscillatorUpdate(enable) else BatteryUpdate(enable))
      && start.union[1] as int == if oscillator then 0 else 3
  {
    StartsAreValid(d, EnableCall(oscillator, enable), true);
    assert REG_SECONDS as int == 0 && REG_DAY_OF_WEEK as int == 3;
  }

  lemma EnableFirstStep(d: Driver, oscillator: bool, enable: bool)
    requires d.Ready()
    ensures var start := Start(d, EnableCall(oscillator, enable), true);
      && start.Valid() && start.bus.Busy? && start.bus.transfer.TransmitThenReceive? && start.device == d.device
      && Poll(start, Done(false)).state == ErrorState && Poll(start, Done(false)).device == d.device
      && var mid := Poll(start, Done(true));
         && mid.Valid() && mid.next == NoTask && mid.bus == Busy(Transmit(1, 2)) && mid.device == d.device
         && mid.union[1] as int == (if oscillator then 0 else 3)
         && mid.union[2] == WithFlag(d.device, oscillator, enable)[if oscillator then 0 else 3]
  {
    var start := Start(d, EnableCall(oscillator, enable), true);
    EnableSubmitted(d, oscillator, enable);
    FirstRead(start, 1, Done(true));
    RefusedPoll(start);
    assert REG_SECONDS as int == 0 && REG_DAY_OF_WEEK as int == 3;
    var at := if oscillator then 0 else 3;
    var read := start.(union := start.union[0 := start.device[at]], bus := Completed);
    FlagSent(read, at as byte, if oscillator then FLAG_START_OSCILLATOR else FLAG_BATTERY_ENABLE, enable);
    ContinueKeepsValid(read, true);
  }

  /** Enabling or disabling the oscillator or the battery changes one bit of one register, or nothing. */
  lemma EnableRun(d: Driver, oscillator: bool, enable: bool, events: seq<Event>)
    requires d.Ready()
    ensures Start(d, EnableCall(oscillator, enable), true).Valid()
    ensures var r := Run(Start(d, EnableCall(oscillator, enable), true), events);
      && (ErrorFree(events) && Completions(events) < 2 ==> r.device == d.device)
      && (ErrorFree(events) && Completions(events) >= 2 ==>
            r.Idle() && r.device == WithFlag(d.device, oscillator, enable))
      && r.device in {d.device, WithFlag(d.device, oscillator, enable)}
  {
    EnableFirstStep(d, oscillator, enable);
    var start := Start(d, EnableCall(oscillator, enable), true);
    var mid := Poll(start, Done(true));
    TwoTransfers(start, mid, events);
    FlagWritten(mid, oscillator, enable);
  }

  lemma FlagWritten(mid: Driver, oscillator: bool, enable: bool)
    requires mid.Valid() && mid.next == NoTask && mid.bus == Busy(Transmit(1, 2))
    requires mid.union[1] as int == if oscillator then 0 else 3
    requires mid.union[2] == WithFlag(mid.device, oscillator, enable)[if oscillator then 0 else 3]
    ensures forall device :: LeftBehind(mid, device) ==>
              device in {mid.device, WithFlag(mid.device, oscillator, enable)}
    ensures Poll(mid, Done(true)).Idle()
    ensures Poll(mid, Done(true)).device == WithFlag(mid.device, oscillator, enable)
  {
    RegisterWritten(mid, 1);
    PollKeepsValid(mid, Done(true));
  }

  lemma SetFlagIsLocal(register: byte, flag: byte, enable: bool)
    requires flag == FLAG_START_OSCILLATOR || flag == FLAG_BATTERY_ENABLE
    ensures SetFlag(register, flag, enable) & !flag == register & !flag
    ensures SetFlag(register, flag, enable) & flag != 0 <==> enable
  {
  }

  /** The flag a status question is about, as the device has it. */
  predicate FlagOf(device: seq<byte>, oscillator: bool)
    requires |device| == NUM_REGISTERS
  {
    if oscillator then device[0] & FLAG_START_OSCILLATOR != 0 else device[3] & FLAG_BATTERY_ENABLE != 0
  }

  lemma FlagIsSet(device: seq<byte>, oscillator: bool, enable: bool)
    requires |device| == NUM_REGISTERS
    ensures FlagOf(WithFlag(device, oscillator, enable), oscillator) == enable
  {
    SetFlagIsLocal(device[0], FLAG_START_OSCILLATOR, enable);
    SetFlagIsLocal(device[3], FLAG_BATTERY_ENABLE, enable);
  }

  function AskCall(oscillator: bool): Call
  {
    if oscillator then AskOscillatorStatus else AskBatteryStatus
  }

  lemma PointerBehind(d: Driver, register: byte)
    requires d.Sized()
    ensures d.(union := d.union[0 := register]).StatusPointer() == d.StatusPointer()
  {
  }

  lemma AskSubmitted(d: Driver, oscillator: bool)
    requires d.Ready()
    ensures var start := Start(d, AskCall(oscillator), true);
      && start.Valid() && start.bus == Busy(TransmitThenReceive(8, Union(0), 1)) && start.device == d.device
      && start.callerStatus == d.callerStatus && start.StatusPointer() == d.statusAt == start.statusAt
      && start.next == (if oscillator then OscillatorStatus else BatteryStatus)
      && start.union[8] as int == if oscillator then 0 else 3
  {
    StartsAreValid(d, AskCall(oscillator), true);
    assert REG_SECONDS as int == 0 && REG_DAY_OF_WEEK as int == 3;
    assert Start(d, AskCall(oscillator), true).StatusPointer() == d.statusAt;
  }

  /** The answer to a status question, when the pointer in the union is the one that was stored. */
  lemma QuestionEffect(d: Driver, oscillator: bool, accepted: bool)
    requires d.Sized() && d.next == if oscillator then OscillatorStatus else BatteryStatus
    requires d.StatusPointer() == d.statusAt
    ensures var answer := d.union[0] & (if oscillator then FLAG_START_OSCILLATOR else FLAG_BATTERY_ENABLE) != 0;
      Continue(d, accepted) == d.(callerStatus := answer, next := NoTask)
  {
  }

  lemma AskFirstStep(d: Driver, oscillator: bool)
    requires d.Ready()
    ensures var start := Start(d, AskCall(oscillator), true);
      && start.Valid() && start.bus.Busy? && start.bus.transfer.TransmitThenReceive?
      && start.device == d.device && start.callerStatus == d.callerStatus
      && var answered := Poll(start, Done(true));
         && answered == Poll(start, Done(false))
         && answered.Valid() && answered.state == StatusCheck && answered.bus == Completed
         && answered.device == d.device && answered.callerStatus == FlagOf(d.device, oscillator)
  {
    var start := Start(d, AskCall(oscillator), true);
    AskSubmitted(d, oscillator);
    FirstRead(start, 8, Done(true));
    FirstRead(start, 8, Done(false));
    var register := start.device[if oscillator then 0 else 3];
    var read := start.(union := start.union[0 := register], bus := Completed);
    PointerBehind(start, register);
    QuestionEffect(read, oscillator, true);
    QuestionEffect(read, oscillator, false);
  }

  lemma AfterCompletion(d: Driver, events: seq<Event>)
    requires d.Valid() && d.state == StatusCheck && d.bus == Completed
    ensures Run(d, events) == if events == [] then d else d.(state := NoState)
  {
    if events != [] {
      NothingMore(Poll(d, events[0]), events[1..]);
    }
  }

  /**
   * The status questions. The answer is the bit of the device once the transfer is done, and the next poll
   * finds the driver idle. No run touches the device, and without an answer the caller's flag stays.
   */
  lemma StatusRun(d: Driver, oscillator: bool, events: seq<Event>)
    requires d.Ready()
    ensures Start(d, AskCall(oscillator), true).Valid()
    ensures var r := Run(Start(d, AskCall(oscillator), true), events);
      && r.device == d.device
      && r.callerStatus in {d.callerStatus, FlagOf(d.device, oscillator)}
      && (ErrorFree(events) && Completions(events) == 0 ==> r.callerStatus == d.callerStatus)
      && (ErrorFree(events) && Completions(events) >= 1 ==>
            r.callerStatus == FlagOf(d.device, oscillator) && forall e :: Poll(r, e).Idle())
  {
    AskFirstStep(d, oscillator);
    StatusPolls(Start(d, AskCall(oscillator), true), events);
  }

  lemma {:induction false} StatusPolls(start: Driver, events: seq<Event>)
    requires start.Valid() && start.bus.Busy? && start.bus.transfer.TransmitThenReceive?
    requires Poll(start, Done(true)) == Poll(start, Done(false))
    requires var answered := Poll(start, Done(true));
      answered.Valid() && answered.state == StatusCheck && answered.bus == Completed && answered.device == start.device
    ensures var r, answered := Run(start, events), Poll(start, Done(true));
      && r.device == start.device
      && r.callerStatus in {start.callerStatus, answered.callerStatus}
      && (ErrorFree(events) && Completions(events) == 0 ==> r.callerStatus == start.callerStatus)
      && (ErrorFree(events) && Completions(events) >= 1 ==>
            r.callerStatus == answered.callerStatus && forall e :: Poll(r, e).Idle())
  {
    if events != [] {
      PollKeepsValid(start, events[0]);
      if events[0] == Wait {
        StatusPolls(start, events[1..]);
      } else if events[0].Done? {
        AfterCompletion(Poll(start, events[0]), events[1..]);
      } else {
        NothingMore(Poll(start, events[0]), events[1..]);
      }
    }
  }

  /** Asked behind an error-free run that switched the flag, the device answers what was asked for. */
  lemma EnableThenAsk(d: Driver, oscillator: bool, enable: bool, switching: seq<Event>, asking: seq<Event>)
    requires d.Ready()
    requires ErrorFree(switching) && Completions(switching) >= 2 && ErrorFree(asking) && Completions(asking) >= 1
    ensures Start(d, EnableCall(oscillator, enable), true).Valid()
    ensures var switched := Run(Start(d, EnableCall(oscillator, enable), true), switching);
      switched.Idle() && Start(switched, AskCall(oscillator), true).Valid()
      && Run(Start(switched, AskCall(oscillator), true), asking).callerStatus == enable
  {
    EnableRun(d, oscillator, enable, switching);
    var switched := Run(Start(d, EnableCall(oscillator, enable), true), switching);
    StatusRun(switched, oscillator, asking);
    FlagIsSet(d.device, oscillator, enable);
  }

  // ---------------------------------------------------------------------------
  // The pointers in the union.

  /** A continuation that is to write through a pointer finds the one its call stored. */
  predicate PointersKept(d: Driver)
    requires d.Sized()
  {
    match d.next
    case DateTimeConvertBcd =>
      d.DatePointer() == d.dateAt && (d.bus.Busy? ==> d.bus.transfer == TransferOf(ReadDate))
    case OscillatorStatus | BatteryStatus =>
      d.StatusPointer() == d.statusAt && (d.bus.Busy? ==> d.bus.transfer == TransferOf(AskOscillatorStatus))
    case _ => true
  }

  lemma StartKeepsPointers(d: Driver, call: Call, accepted: bool)
    requires d.Ready() && call.Ok() && !call.Plain()
    ensures PointersKept(Start(d, call, accepted)) && Start(d, call, accepted).stray == d.stray
  {
    var r := Start(d, call, accepted);
    match call
    case ReadDate => assert r.DatePointer() == d.dateAt;
    case AskOscillatorStatus => assert r.StatusPointer() == d.statusAt;
    case AskBatteryStatus => assert r.StatusPointer() == d.statusAt;
    case _ =>
  }

  /** No byte that a transfer of such a call moves reaches the pointer. */
  lemma MovedKeepsPointers(d: Driver, n: nat)
    requires d.Valid() && d.bus.Busy? && PointersKept(d) && n <= d.bus.transfer.Size()
    ensures var r := Moved(d, d.bus.transfer, n);
      && r.next == d.next && r.dateAt == d.dateAt && r.statusAt == d.statusAt && r.stray == d.stray
      && (d.next == DateTimeConvertBcd ==> r.DatePointer() == d.dateAt)
      && (d.next == OscillatorStatus || d.next == BatteryStatus ==> r.StatusPointer() == d.statusAt)
  {
  }

  lemma ContinueKeepsPointers(d: Driver, accepted: bool)
    requires d.Sized() && d.bus == Completed
    requires d.next == DateTimeConvertBcd ==> d.DatePointer() == d.dateAt
    requires d.next == OscillatorStatus || d.next == BatteryStatus ==> d.StatusPointer() == d.statusAt
    ensures Continue(d, accepted).next == NoTask && Continue(d, accepted).stray == d.stray
  {
  }

  lemma PollKeepsPointers(d: Driver, e: Event)
    requires d.Valid() && PointersKept(d)
    ensures Poll(d, e).Valid() && PointersKept(Poll(d, e)) && Poll(d, e).stray == d.stray
  {
    PollKeepsValid(d, e);
    if d.bus.Busy? {
      var t := d.bus.transfer;
      match e
      case Wait =>
      case Fail(moved) => MovedKeepsPointers(d, Min(moved, t.Size()));
      case Done(accepted) =>
        DonePoll(d, e);
        MovedKeepsPointers(d, t.Size());
        ContinueKeepsPointers(Moved(d, t, t.Size()).(bus := Completed), accepted);
    }
  }

  function ActAll(d: Driver, program: seq<Action>): (r: Driver)
    requires d.Valid()
    ensures r.Valid()
    decreases |program|
  {
    if program == [] then d else ActAll(Act(d, program[0]), program[1..])
  }

  /** The call, if the action is one, leaves a continuation of its own. */
  predicate OwnAction(action: Action)
  {
    action.Called? ==> !action.call.Plain()
  }

  /**
   * After any program of polls and of calls with continuations, whatever fails in it, a waiting continuation still
   * finds the pointer that was stored for it, and none has written anywhere else.
   */
  lemma {:induction false} OwnCallsKeepPointers(d: Driver, program: seq<Action>)
    requires d.Valid() && PointersKept(d) && forall i :: 0 <= i < |program| ==> OwnAction(program[i])
    ensures PointersKept(ActAll(d, program)) && ActAll(d, program).stray == d.stray
    decreases |program|
  {
    if program != [] {
      assert OwnAction(program[0]);
      match program[0] {
        case Polled(e) => PollKeepsPointers(d, e);
        case Called(call, accepted) =>
          if d.Ready() && call.Ok() {
            StartKeepsPointers(d, call, accepted);
          }
      }
      OwnCallsKeepPointers(Act(d, program[0]), program[1..]);
    }
  }

  // ---------------------------------------------------------------------------
  // Plain registers.

  /** The registers of the device and of the caller after a plain call has moved its first `n` bytes. */
  function WrittenBy(call: Call, device: seq<byte>, n: nat): seq<byte>
    requires call.Plain() && call.Ok() && |device| == NUM_REGISTERS
  {
    match call
    case WriteRegister(address, value) => if n == 0 then device else device[address as int := value]
    case WriteNumRegisters(values) => Overwrite(device, 0, values[..Min(n, |values|)])
    case _ => device
  }

  function ReadBy(call: Call, registers: seq<byte>, device: seq<byte>, n: nat): seq<byte>
    requires call.Plain() && call.Ok() && |registers| == |device| == NUM_REGISTERS
  {
    match call
    case ReadRegister(address) => if n == 0 then registers else registers[0 := device[address as int]]
    case ReadNumRegisters(count) => Overwrite(registers, 0, device[..Min(n, count)])
    case _ => registers
  }

  /** The driver when a plain call has been submitted and `n` bytes of its transfer have been moved. */
  function PlainMoved(d: Driver, call: Call, n: nat): (r: Driver)
    requires d.Ready() && call.Ok() && call.Plain()
    ensures r.Sized()
  {
    d.(union := UnionOf(call, d), bus := Busy(TransferOf(call)), state := StatusCheck,
       device := WrittenBy(call, d.device, n), callerRegisters := ReadBy(call, d.callerRegisters, d.device, n))
  }

  lemma PlainTransfer(d: Driver, call: Call, n: nat)
    requires d.Ready() && call.Ok() && call.Plain() && n <= TransferOf(call).Size()
    ensures Start(d, call, true).Valid()
    ensures Moved(Start(d, call, true), TransferOf(call), n) == PlainMoved(d, call, n)
  {
    StartsAreValid(d, call, true);
    assert REG_SECONDS as int == 0;
    match call
    case ReadRegister(address) => MovedOneRead(d, address, n);
    case WriteRegister(address, value) => MovedOneWritten(d, address, value, n);
    case ReadNumRegisters(count) => MovedRead(d, count, n);
    case WriteNumRegisters(values) => MovedWritten(d, values, n);
  }

  lemma MovedOneRead(d: Driver, address: byte, n: nat)
    requires d.Ready() && address as int < NUM_REGISTERS && n <= 1
    requires Start(d, ReadRegister(address), true).Valid()
    ensures Moved(Start(d, ReadRegister(address), true), TransmitThenReceive(0, CallerRegisters, 1), n)
            == PlainMoved(d, ReadRegister(address), n)
  {
    var at := address as int;
    if n == 0 {
      OverwriteNone(d.callerRegisters, 0);
      assert d.device[at..at + 0] == [];
    } else {
      OverwriteOne(d.callerRegisters, 0, d.device[at]);
      assert d.device[at..at + 1] == [d.device[at]];
    }
  }

  lemma MovedOneWritten(d: Driver, address: byte, value: byte, n: nat)
    requires d.Ready() && address as int < NUM_REGISTERS && n <= 1
    requires Start(d, WriteRegister(address, value), true).Valid()
    ensures Moved(Start(d, WriteRegister(address, value), true), Transmit(0, 2), n)
            == PlainMoved(d, WriteRegister(address, value), n)
  {
    var start := Start(d, WriteRegister(address, value), true);
    OverwriteNone(d.device, address as int);
    OverwriteOne(d.device, address as int, value);
    assert n == 1 ==> start.union[1..1 + n] == [value];
  }

  lemma MovedRead(d: Driver, count: nat, n: nat)
    requires d.Ready() && count <= NUM_REGISTERS && n <= count
    requires Start(d, ReadNumRegisters(count), true).Valid()
    ensures Moved(Start(d, ReadNumRegisters(count), true), TransmitThenReceive(0, CallerRegisters, count), n)
            == PlainMoved(d, ReadNumRegisters(count), n)
  {
    var start := Start(d, ReadNumRegisters(count), true);
    assert start.union[0] == REG_SECONDS && REG_SECONDS as int == 0;
    assert start.device[0..0 + n] == d.device[..n];
  }

  lemma MovedWritten(d: Driver, values: seq<byte>, n: nat)
    requires d.Ready() && |values| <= NUM_REGISTERS && n <= |values|
    requires Start(d, WriteNumRegisters(values), true).Valid()
    ensures Moved(Start(d, WriteNumRegisters(values), true), Transmit(0, |values| + 1), n)
            == PlainMoved(d, WriteNumRegisters(values), n)
  {
    var start := Start(d, WriteNumRegisters(values), true);
    assert start.union[0] == REG_SECONDS && REG_SECONDS as int == 0;
    assert start.union[1..1 + n] == values[..n];
  }

  /** A run of one transfer is still waiting, or has taken one answer. */
  lemma {:induction false} OneAnswer(d: Driver, events: seq<Event>)
    requires d.Valid() && d.bus.Busy? && EndsOperation(d.next)
    ensures Run(d, events) == d || exists e :: e != Wait && Run(d, events) == Poll(d, e)
  {
    if events != [] {
      if events[0] == Wait {
        OneAnswer(d, events[1..]);
      } else {
        LastPoll(d, events[0]);
        NothingMore(Poll(d, events[0]), events[1..]);
      }
    }
  }

  lemma PlainAnswer(d: Driver, call: Call, e: Event)
    requires d.Ready() && call.Ok() && call.Plain() && d.next == NoTask && e != Wait
    ensures Start(d, call, true).Valid()
    ensures var r, size := Poll(Start(d, call, true), e), TransferOf(call).Size();
      var n := if e.Done? then size else Min(e.moved, size);
      && r.device == WrittenBy(call, d.device, n) && r.callerRegisters == ReadBy(call, d.callerRegisters, d.device, n)
      && r.callerDate == d.callerDate && r.callerStatus == d.callerStatus && r.stray == d.stray
      && (e.Done? ==> r.Idle())
  {
    var size := TransferOf(call).Size();
    PlainTransfer(d, call, if e.Done? then size else Min(e.moved, size));
    PollKeepsValid(Start(d, call, true), e);
  }

  /** What a plain call leaves in the device and in the caller's registers when `n` bytes have been moved. */
  ghost predicate PlainResult(d: Driver, call: Call, r: Driver, n: nat)
    requires d.Ready() && call.Ok() && call.Plain()
  {
    r.device == WrittenBy(call, d.device, n) && r.callerRegisters == ReadBy(call, d.callerRegisters, d.device, n)
  }

  lemma NothingMovedYet(d: Driver, call: Call)
    requires d.Ready() && call.Ok() && call.Plain()
    ensures PlainResult(d, call, d, 0)
  {
    match call
    case WriteNumRegisters(values) => OverwriteNone(d.device, 0); assert values[..0] == [];
    case ReadNumRegisters(_) => OverwriteNone(d.callerRegisters, 0); assert d.device[..0] == [];
    case _ =>
  }

  /**
   * The plain calls, when no continuation is left over from before. An error-free run moves all of the registers
   * asked for and ends idle; any run moves the first ones of them. Neither touches the caller's date or flag.
   */
  lemma PlainCallRun(d: Driver, call: Call, events: seq<Event>)
    requires d.Ready() && call.Ok() && call.Plain() && d.next == NoTask
    ensures Start(d, call, true).Valid()
    ensures var r, size := Run(Start(d, call, true), events), TransferOf(call).Size();
      && r.callerDate == d.callerDate && r.callerStatus == d.callerStatus && r.stray == d.stray
      && (exists n: nat :: n <= size && PlainResult(d, call, r, n))
      && (ErrorFree(events) && Completions(events) >= 1 ==> r.Idle() && PlainResult(d, call, r, size))
  {
    StartsAreValid(d, call, true);
    var start := Start(d, call, true);
    OneAnswer(start, events);
    LastTransfer(start, events);
    PlainAnswer(d, call, Done(true));
    var r, size := Run(start, events), TransferOf(call).Size();
    if r == start {
      NothingMovedYet(d, call);
      assert PlainResult(d, call, r, 0);
    } else {
      var e :| e != Wait && r == Poll(start, e);
      PlainAnswer(d, call, e);
      assert PlainResult(d, call, r, if e.Done? then size else Min(e.moved, size));
    }
  }

  /** Writing one register writes it and no other, when no continuation is left over from before. */
  lemma WriteRegisterRun(d: Driver, address: byte, value: byte, events: seq<Event>)
    requires d.Ready() && address as int < NUM_REGISTERS && d.next == NoTask
    ensures Start(d, WriteRegister(address, value), true).Valid()
    ensures var r := Run(Start(d, WriteRegister(address, value), true), events);
      && (ErrorFree(events) && Completions(events) >= 1 ==>
            r.Idle() && r.device == d.device[address as int := value])
      && r.device in {d.device, d.device[address as int := value]}
      && r.callerDate == d.callerDate && r.callerStatus == d.callerStatus
  {
    PlainCallRun(d, WriteRegister(address, value), events);
  }

  // ---------------------------------------------------------------------------
  // The continuation an error leaves behind.

  /** A plain call whose transfer succeeds at once ends idle, with its registers moved and nothing else done. */
  ghost predicate NoOtherEffect(d: Driver, call: Call)
    requires d.Ready() && call.Ok() && call.Plain()
  {
    StartsAreValid(d, call, true);
    var r := Poll(Start(d, call, true), Done(true));
    && r.state == NoState && PlainResult(d, call, r, TransferOf(call).Size())
    && r.callerDate == d.callerDate && r.callerStatus == d.callerStatus && r.stray == d.stray
  }

  /** A conversion of a date that changes nothing: through the right pointer, on digits that are their own value. */
  predicate ConvertsToItself(next: NextTask, pointer: seq<byte>, dateAt: seq<byte>, date: seq<byte>)
    requires |date| == 7
  {
    next == DateTimeConvertBcd && pointer == dateAt && ConvertedDate(date) == date
  }

  lemma ContinuationKeepsRegisters(d: Driver)
    requires d.Sized() && d.bus == Completed
    ensures Continue(d, true).device == d.device && Continue(d, true).callerRegisters == d.callerRegisters
  {
  }

  lemma ContinuationIdles(d: Driver)
    requires d.Sized() && d.bus == Completed && d.state == StatusCheck
    ensures Continue(d, true).state == NoState <==> EndsOperation(d.next)
  {
  }

  lemma ConversionEffect(d: Driver)
    requires d.Sized() && d.next == DateTimeConvertBcd
    ensures Continue(d, true) == Converted(d).(state := NoState, next := NoTask)
  {
  }

  /** What a continuation does for the caller is nothing exactly when there is none, or it converts to itself. */
  lemma CleanContinuation(d: Driver)
    requires d.Sized() && d.bus == Completed && d.state == StatusCheck
    ensures var r := Continue(d, true);
      r.state == NoState && r.callerDate == d.callerDate && r.callerStatus == d.callerStatus && r.stray == d.stray
      <==> d.next == NoTask || ConvertsToItself(d.next, d.DatePointer(), d.dateAt, d.callerDate)
  {
    ContinuationIdles(d);
    if d.next == DateTimeConvertBcd {
      ConversionEffect(d);
    }
  }

  /** Exactly when a plain call does no more than it should. */
  lemma PlainCallEffect(d: Driver, call: Call)
    requires d.Ready() && call.Ok() && call.Plain()
    ensures NoOtherEffect(d, call) <==>
            d.next == NoTask || ConvertsToItself(d.next, UnionOf(call, d)[..DATE_ADDRESS_END], d.dateAt, d.callerDate)
  {
    var size := TransferOf(call).Size();
    PlainTransfer(d, call, size);
    DonePoll(Start(d, call, true), Done(true));
    var moved := PlainMoved(d, call, size).(bus := Completed);
    ContinuationKeepsRegisters(moved);
    CleanContinuation(moved);
  }

  lemma TenIsNotItsValue(date: seq<byte>)
    requires |date| == 7 && date[0] == 0x10
    ensures ConvertedDate(date) != date
  {
    assert ConvertedDate(date)[0] == FromBcd(0x10 & DateMask(0));
  }

  /** Whatever the caller's date is: a plain call is clean exactly when no continuation is left over. */
  lemma PlainCallIsClean(d: Driver, call: Call)
    requires d.Ready() && call.Ok() && call.Plain()
    ensures (forall date | |date| == 7 :: NoOtherEffect(d.(callerDate := date), call)) <==> d.next == NoTask
  {
    forall date: seq<byte> | |date| == 7
      ensures NoOtherEffect(d.(callerDate := date), call) <==>
              d.next == NoTask || ConvertsToItself(d.next, UnionOf(call, d)[..DATE_ADDRESS_END], d.dateAt, date)
    {
      PlainCallEffect(d.(callerDate := date), call);
    }
    var tens: seq<byte> := seq(7, _ => 0x10);
    assert |tens| == 7 && tens[0] == 0x10;
    TenIsNotItsValue(tens);
    assert NoOtherEffect(d.(callerDate := tens), call) <==> d.next == NoTask;
  }

  lemma PointerFront(union: seq<byte>, pointer: seq<byte>, address: byte, value: byte)
    requires |union| == UNION_SIZE && |pointer| == 4 && union[..DATE_ADDRESS_END] == pointer
    ensures Overwrite(union, 0, [address, value])[..DATE_ADDRESS_END] == [address, value] + pointer[2..]
    ensures [address, value] + pointer[2..] == pointer <==> [address, value] == pointer[..2]
  {
    assert pointer == pointer[..2] + pointer[2..];
    assert ([address, value] + pointer[2..])[..2] == [address, value];
  }

  /**
   * A read of a date that fails leaves such a continuation: after the next write of a register, the date is converted
   * if the bytes just put into the union happen to be those of its address, and otherwise seven bytes are written
   * through an address that is none.
   */
  lemma WriteAfterFailedRead(d: Driver, address: byte, value: byte)
    requires d.Ready() && address as int < NUM_REGISTERS
    ensures Start(d, ReadDate, true).Valid()
    ensures var failed := Poll(Start(d, ReadDate, true), Fail(7));
      && failed.Ready() && failed.callerDate == d.device[..7] && failed.next == DateTimeConvertBcd
      && Start(failed, WriteRegister(address, value), true).Valid()
      && var r := Poll(Start(failed, WriteRegister(address, value), true), Done(true));
         if [address, value] == d.dateAt[..2]
         then r.callerDate == ConvertedDate(d.device[..7]) && r.stray == d.stray
         else r.callerDate == d.device[..7] && r.stray == d.stray + [[address, value] + d.dateAt[2..]]
  {
    ReadDateStep(d);
    var start := Start(d, ReadDate, true);
    PollKeepsValid(start, Fail(7));
    var failed := Poll(start, Fail(7));
    var call := WriteRegister(address, value);
    PlainTransfer(failed, call, 1);
    DonePoll(Start(failed, call, true), Done(true));
    ConversionEffect(PlainMoved(failed, call, 1).(bus := Completed));
    PointerFront(failed.union, d.dateAt, address, value);
  }

  lemma FailedQuestion(d: Driver, oscillator: bool)
    requires d.Ready()
    ensures Start(d, AskCall(oscillator), true).Valid()
    ensures var failed := Poll(Start(d, AskCall(oscillator), true), Fail(0));
      && failed.Ready() && failed.StatusPointer() == failed.statusAt
      && failed.next == if oscillator then OscillatorStatus else BatteryStatus
  {
    StartsAreValid(d, AskCall(oscillator), true);
    StartKeepsPointers(d, AskCall(oscillator), true);
    PollKeepsPointers(Start(d, AskCall(oscillator), true), Fail(0));
  }

  lemma PointerBack(union: seq<byte>, address: byte, value: byte)
    requires |union| == UNION_SIZE
    ensures var after := Overwrite(union, 0, [address, value]);
      after[0] == address && after[1] == value && after[DATE_AT] == union[DATE_AT]
      && after[STATUS_ADDRESS_AT..STATUS_ADDRESS_END] == union[STATUS_ADDRESS_AT..STATUS_ADDRESS_END]
  {
  }

  /** After a status question that failed, the next write of a register answers it with a bit of its own address. */
  lemma WriteAfterFailedQuestion(d: Driver, oscillator: bool, address: byte, value: byte)
    requires d.Ready() && address as int < NUM_REGISTERS
    ensures Start(d, AskCall(oscillator), true).Valid()
    ensures var failed := Poll(Start(d, AskCall(oscillator), true), Fail(0));
      && failed.Ready() && Start(failed, WriteRegister(address, value), true).Valid()
      && Poll(Start(failed, WriteRegister(address, value), true), Done(true)).callerStatus
         == (address & (if oscillator then FLAG_START_OSCILLATOR else FLAG_BATTERY_ENABLE) != 0)
  {
    FailedQuestion(d, oscillator);
    var failed := Poll(Start(d, AskCall(oscillator), true), Fail(0));
    var call := WriteRegister(address, value);
    PlainTransfer(failed, call, 1);
    DonePoll(Start(failed, call, true), Done(true));
    PointerBack(failed.union, address, value);
    QuestionEffect(PlainMoved(failed, call, 1).(bus := Completed), oscillator, true);
  }

  lemma ContinuationSubmits(d: Driver)
    requires d.Sized() && d.bus == Completed && d.state == StatusCheck
    ensures Continue(d, true).device == d.device
    ensures Continue(d, true).bus == Completed <==> !Submits(d.next)
  {
  }

  /** Seen from the device: the call makes its own transfer only, exactly when the continuation submits none. */
  lemma LeftoverContinuation(d: Driver, address: byte, value: byte)
    requires d.Ready() && address as int < NUM_REGISTERS
    ensures Start(d, WriteRegister(address, value), true).Valid()
    ensures var r := Poll(Start(d, WriteRegister(address, value), true), Done(true));
      r.device == d.device[address as int := value] && (r.bus == Completed <==> !Submits(d.next))
  {
    PlainTransfer(d, WriteRegister(address, value), 1);
    DonePoll(Start(d, WriteRegister(address, value), true), Done(true));
    ContinuationSubmits(PlainMoved(d, WriteRegister(address, value), 1).(bus := Completed));
  }

  lemma UpdateSent(written: Driver)
    requires written.Sized() && written.bus == Completed && written.state == StatusCheck
    requires written.next == DateTimeUpdateAndTransmit
    ensures var r := Continue(written, true);
      && r.Valid() && r.bus == Busy(Transmit(0, 8)) && r.device == written.device
      && r.union[0] as int == 0
      && r.union[1] == UpdateField(written.union[1], DateMask(0), ToBcd(written.union[DATE_AT]))
  {
    ContinueKeepsValid(written, true);
    assert REG_SECONDS as int == 0;
    assert written.union[1..DATE_AT][0] == written.union[1];
    assert written.union[DATE_AT..DATE_AT + 7][0] == written.union[DATE_AT];
  }

  lemma FirstByteSent(r: Driver)
    requires r.Valid() && r.bus == Busy(Transmit(0, 8)) && r.union[0] as int == 0
    ensures Moved(r, Transmit(0, 8), 7).device[0] == r.union[1]
  {
  }

  /** With the continuation of a date left over, a date is sent as well; its seconds keep a bit of the value written. */
  lemma LeftoverDate(d: Driver, address: byte, value: byte)
    requires d.Ready() && address as int < NUM_REGISTERS && d.next == DateTimeUpdateAndTransmit
    ensures Start(d, WriteRegister(address, value), true).Valid()
    ensures var r := Poll(Start(d, WriteRegister(address, value), true), Done(true));
      && r.Valid() && r.bus == Busy(Transmit(0, 8))
      && Moved(r, r.bus.transfer, 7).device[0] == UpdateField(value, DateMask(0), ToBcd(d.union[DATE_AT]))
  {
    var call := WriteRegister(address, value);
    PlainTransfer(d, call, 1);
    var start := Start(d, call, true);
    DonePoll(start, Done(true));
    var written := PlainMoved(d, call, 1).(bus := Completed);
    PointerBack(d.union, address, value);
    UpdateSent(written);
    FirstByteSent(Continue(written, true));
  }

  /** Such a state is reached by any write of a date whose first transfer fails. */
  lemma FailureLeavesContinuation(d: Driver, date: seq<byte>, moved: nat)
    requires d.Ready() && |date| == 7
    ensures Start(d, WriteDate(date), true).Valid()
    ensures var r := Poll(Start(d, WriteDate(date), true), Fail(moved));
      r.Ready() && r.next == DateTimeUpdateAndTransmit && r.union[DATE_AT] == date[0] && r.device == d.device
  {
    WriteDateSteps(d, date);
    var start := Start(d, WriteDate(date), true);
    PollKeepsValid(start, Fail(moved));
    assert start.union[DATE_AT] == date[0];
  }
}
