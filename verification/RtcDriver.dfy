/** The clock driver as the firmware runs it: fields and buffers updated in place. */
module RtcDriver {
  import opened Wrappers
  import opened Bits
  import opened BcdFields
  import opened Rtc
  import opened Memory

  class RtcMcp7940n {
    var state: State
    var nextTask: NextTask
    const union: array<byte>
    // Storage of the caller: where dates and plain registers are read to, and the answer to a status question.
    const callerDate: array<byte>
    const callerRegisters: array<byte>
    var callerStatus: bool
    // The addresses of the caller's date structure and of its flag, and those other ones that were written through.
    const dateAt: seq<byte>
    const statusAt: seq<byte>
    ghost var stray: seq<seq<byte>>
    // The environment: the state of the last transfer handle, and the registers of the device.
    var bus: Bus
    const device: array<byte>

    ghost predicate Shaped()
    {
      && union.Length == UNION_SIZE && callerDate.Length == 7 && |dateAt| == 4 && |statusAt| == 4
      && callerRegisters.Length == NUM_REGISTERS && device.Length == NUM_REGISTERS
      && union != callerDate && union != callerRegisters && union != device
      && callerDate != callerRegisters && callerDate != device && callerRegisters != device
    }

    ghost function Snapshot(): Driver
      reads this, union, callerDate, callerRegisters, device
    {
      Driver(state, nextTask, union[..], bus, callerDate[..], callerRegisters[..], callerStatus, device[..],
             dateAt, statusAt, stray)
    }

    ghost predicate Valid()
      reads this, union, callerDate, callerRegisters, device
    {
      Shaped() && Snapshot().Valid()
    }

    /** `isOpen` tells whether the bus driver could be opened; the caller's structure and flag are where they are. */
    constructor (isOpen: bool, dateAt: seq<byte>, statusAt: seq<byte>)
      requires |dateAt| == 4 && |statusAt| == 4
      ensures Valid() && !IsBusy() && (Snapshot().Idle() <==> isOpen)
      ensures this.dateAt == dateAt && this.statusAt == statusAt && stray == []
      ensures fresh(union) && fresh(callerDate) && fresh(callerRegisters) && fresh(device)
    {
      state := if isOpen then NoState else ErrorState;
      nextTask, bus, callerStatus := NoTask, NoHandle, false;
      this.dateAt, this.statusAt, stray := dateAt, statusAt, [];
      union := new byte[UNION_SIZE];
      callerDate := new byte[7];
      callerRegisters := new byte[NUM_REGISTERS];
      device := new byte[NUM_REGISTERS];
    }

    // -------------------------------------------------------------------------
    // The bus.

    /** `accepted` tells whether the bus driver hands out a handle for the transfer. */
    method I2cSubmit(transfer: Transfer, accepted: bool) returns (ok: bool)
      modifies `bus, `state
      ensures ok <==> !old(bus).Busy? && accepted
      ensures bus == if ok then Busy(transfer) else if old(bus).Busy? then old(bus) else NoHandle
      ensures state == if ok then StatusCheck else ErrorState
    {
      if bus.Busy? {
        state := ErrorState;
        return false;
      }
      bus := if accepted then Busy(transfer) else NoHandle;
      if bus == NoHandle {
        state := ErrorState;
        return false;
      }
      state := StatusCheck;
      return true;
    }

    /**
     * The status of the last transfer. A transfer found done has been carried out by the bus, and a failed one
     * has moved some first bytes.
     */
    method I2cTransferStatusGet(e: Event) returns (status: Event)
      requires Valid() && state == StatusCheck
      modifies `bus, union, callerDate, callerRegisters, device
      ensures status == if old(bus) == Completed then Done(true) else e
      ensures Shaped()
      ensures status == Wait ==> Snapshot() == old(Snapshot())
      ensures status.Fail? ==>
                var t := old(bus).transfer;
                Snapshot() == Moved(old(Snapshot()), t, Min(status.moved, t.Size())).(bus := Failed)
      ensures status.Done? ==>
                var d := old(Snapshot());
                Snapshot() == if old(bus) == Completed then d
                              else Moved(d, d.bus.transfer, d.bus.transfer.Size()).(bus := Completed)
    {
      if bus == Completed {
        return Done(true);
      }
      status := e;
      match e
      case Wait =>
      case Fail(moved) =>
        Move(bus.transfer, Min(moved, bus.transfer.Size()));
        bus := Failed;
      case Done(_) =>
        Move(bus.transfer, bus.transfer.Size());
        bus := Completed;
    }

    /** The bus moves the first `n` bytes of a transfer. */
    method Move(transfer: Transfer, n: nat)
      requires Shaped() && Snapshot().TransferOk(transfer) && n <= transfer.Size()
      modifies union, callerDate, callerRegisters, device
      ensures Shaped() && Snapshot() == Moved(old(Snapshot()), transfer, n)
    {
      match transfer
      case Transmit(from, count) => MoveOut(from, count, n);
      case TransmitThenReceive(from, dest, count) => MoveIn(from, dest, count, n);
    }

    method MoveOut(from: nat, count: nat, n: nat)
      requires Shaped() && from + count <= UNION_SIZE && n < count
      requires union[from] as int + n <= NUM_REGISTERS
      modifies device
      ensures device[..] == Overwrite(old(device[..]), union[from] as int, union[..][from + 1..from + 1 + n])
    {
      var bytes := union[from + 1..from + 1 + n];
      assert bytes == union[..][from + 1..from + 1 + n];
      Store(device, union[from] as int, bytes);
    }

    method MoveIn(from: nat, dest: Destination, count: nat, n: nat)
      requires Shaped() && Snapshot().TransferOk(TransmitThenReceive(from, dest, count)) && n <= count
      modifies union, callerDate, callerRegisters
      ensures Snapshot() == Moved(old(Snapshot()), TransmitThenReceive(from, dest, count), n)
    {
      var address := union[from] as int;
      Receive(dest, device[address..address + n]);
    }

    method Receive(dest: Destination, received: seq<byte>)
      requires Shaped() && FitsIn(dest, |received|)
      modifies union, callerDate, callerRegisters
      ensures Snapshot() == Received(old(Snapshot()), dest, received)
    {
      match dest
      case Union(at) => Store(union, at, received);
      case CallerDateTime => Store(callerDate, 0, received);
      case CallerRegisters => Store(callerRegisters, 0, received);
    }

    static method Store(a: array<byte>, at: nat, bytes: seq<byte>)
      requires at + |bytes| <= a.Length
      modifies a
      ensures a[..] == Overwrite(old(a[..]), at, bytes)
    {
      Memcpy(a, at, bytes);
    }

    // -------------------------------------------------------------------------
    // Continuations.

    method EnableOrDisable(register: byte, flag: byte, enable: bool, accepted: bool)
      requires Shaped() && bus == Completed
      modifies `bus, `state, `nextTask, union
      ensures Snapshot() == SendFlag(old(Snapshot()), register, flag, enable, accepted)
    {
      var registerValue := SetFlag(union[0], flag, enable);
      SetTransmitBuffer(register, registerValue);
      var ok := I2cSubmit(Transmit(1, 2), accepted);
      nextTask := NoTask;
    }

    method SetTransmitBuffer(register: byte, value: byte)
      requires Shaped()
      modifies union
      ensures union[..] == Overwrite(old(union[..]), 1, [register, value])
    {
      union[1] := register;
      union[2] := value;
    }

    /** The answer goes through the pointer in the union. */
    method PostStatusReceive(flag: byte)
      requires Shaped()
      modifies `callerStatus, `nextTask, `stray
      ensures Snapshot() == Answered(old(Snapshot()), union[0] & flag != 0).(next := NoTask)
    {
      if union[STATUS_ADDRESS_AT..STATUS_ADDRESS_END] == statusAt {
        callerStatus := union[0] & flag != 0;
      } else {
        stray := stray + [union[STATUS_ADDRESS_AT..STATUS_ADDRESS_END]];
      }
      nextTask := NoTask;
    }

    method UpdateDateRegisters()
      requires Shaped()
      modifies union
      ensures
        var digits := Digits(old(union[DATE_AT..DATE_AT + 7]));
        union[..] == [REG_SECONDS] + UpdatedRegisters(old(union[1..DATE_AT]), digits) + old(union[DATE_AT..])
    {
      ghost var before := union[..];
      ghost var updated := UpdatedRegisters(before[1..DATE_AT], Digits(before[DATE_AT..DATE_AT + 7]));
      union[0] := REG_SECONDS;
      var k := 0;
      while k < 7
        invariant 0 <= k <= 7
        invariant union[0] == REG_SECONDS
        invariant forall i :: 1 <= i <= k ==> union[i] == updated[i - 1]
        invariant forall i :: k < i < UNION_SIZE ==> union[i] == before[i]
      {
        union[k + 1] := UpdateField(union[k + 1], DateMask(k), ToBcd(union[DATE_AT + k]));
        k := k + 1;
      }
    }

    method ConvertToBcdAndTransmit(accepted: bool)
      requires Shaped() && bus == Completed && nextTask == DateTimeUpdateAndTransmit
      modifies `bus, `state, `nextTask, union
      ensures Snapshot() == Continue(old(Snapshot()), accepted)
    {
      ghost var before := union[..];
      assert before[1..DATE_AT] == union[1..DATE_AT] && before[DATE_AT..] == union[DATE_AT..]
          && before[DATE_AT..DATE_AT + 7] == union[DATE_AT..DATE_AT + 7];
      UpdateDateRegisters();
      var ok := I2cSubmit(Transmit(0, 8), accepted);
      nextTask := NoTask;
    }

    method ConvertInPlace()
      requires Shaped()
      modifies callerDate
      ensures callerDate[..] == ConvertedDate(old(callerDate[..]))
    {
      ghost var before := callerDate[..];
      var k := 0;
      while k < 7
        invariant 0 <= k <= 7
        invariant forall i :: 0 <= i < k ==> callerDate[i] == ConvertedDate(before)[i]
        invariant forall i :: k <= i < 7 ==> callerDate[i] == before[i]
      {
        callerDate[k] := FromBcd(callerDate[k] & DateMask(k));
        k := k + 1;
      }
      assert callerDate[..] == ConvertedDate(before);
    }

    /** The structure converted is the one that the pointer in the union leads to. */
    method ConvertFromBcd()
      requires Shaped() && nextTask == DateTimeConvertBcd
      modifies `state, `nextTask, `stray, callerDate
      ensures Snapshot() == Continue(old(Snapshot()), true)
    {
      if union[..DATE_ADDRESS_END] == dateAt {
        ConvertInPlace();
      } else {
        stray := stray + [union[..DATE_ADDRESS_END]];
      }
      state := NoState;
      nextTask := NoTask;
    }

    /** The continuation of a finished transfer; `accepted` answers the transfer it may submit. */
    method ContinueTask(accepted: bool)
      requires Shaped() && bus == Completed
      modifies `bus, `state, `nextTask, `callerStatus, `stray, union, callerDate
      ensures Shaped() && Snapshot() == Continue(old(Snapshot()), accepted)
    {
      match nextTask
      case NoTask => state := NoState;
      case OscillatorUpdate(enable) => EnableOrDisable(REG_SECONDS, FLAG_START_OSCILLATOR, enable, accepted);
      case OscillatorStatus => PostStatusReceive(FLAG_START_OSCILLATOR);
      case BatteryUpdate(enable) => EnableOrDisable(REG_DAY_OF_WEEK, FLAG_BATTERY_ENABLE, enable, accepted);
      case BatteryStatus => PostStatusReceive(FLAG_BATTERY_ENABLE);
      case DateTimeConvertBcd => ConvertFromBcd();
      case DateTimeUpdateAndTransmit => ConvertToBcdAndTransmit(accepted);
    }

    method TaskCheckStatus(e: Event)
      requires Valid() && state == StatusCheck
      modifies `bus, `state, `nextTask, `callerStatus, `stray, union, callerDate, callerRegisters, device
      ensures Shaped() && Snapshot() == Poll(old(Snapshot()), e)
    {
      var status := I2cTransferStatusGet(e);
      match status
      case Wait =>
      case Fail(_) => state := ErrorState;
      case Done(accepted) => ContinueTask(accepted);
    }

    /** One call of the task function; `e` is what the bus answers if it is asked. */
    method Tasks(e: Event)
      requires Valid()
      modifies `bus, `state, `nextTask, `callerStatus, `stray, union, callerDate, callerRegisters, device
      ensures Valid() && Snapshot() == Poll(old(Snapshot()), e)
    {
      PollKeepsValid(Snapshot(), e);
      match state
      case NoState =>
      case ErrorState =>
      case StatusCheck => TaskCheckStatus(e);
    }

    predicate IsBusy()
      reads this
    {
      !(state == NoState || state == ErrorState)
    }

    // -------------------------------------------------------------------------
    // Public operations.

    method WriteDateAndTime(date: seq<byte>, accepted: bool)
      requires Valid() && |date| == 7
      modifies `bus, `state, `nextTask, union
      ensures Snapshot() == Start(old(Snapshot()), Call.WriteDate(date), accepted)
      ensures !old(IsBusy()) ==> Valid() && (IsBusy() <==> accepted)
    {
      ghost var before := Snapshot();
      if !IsBusy() {
        StartsAreValid(before, Call.WriteDate(date), accepted);
      }
      nextTask := DateTimeUpdateAndTransmit;
      Memcpy(union, DATE_AT, date);
      ReadFromSeconds(Union(1), 7, accepted);
      assert union[..] == Overwrite(before.union, DATE_AT, date)[0 := REG_SECONDS];
    }

    /** The inner call that reads a number of registers, wherever they go. */
    method ReadFromSeconds(dest: Destination, count: nat, accepted: bool)
      requires Shaped()
      modifies `bus, `state, union
      ensures union[..] == old(union[..])[0 := REG_SECONDS]
      ensures old(bus).Busy? ==> bus == old(bus) && state == ErrorState
      ensures !old(bus).Busy? && accepted ==> bus == Busy(TransmitThenReceive(0, dest, count)) && state == StatusCheck
      ensures !old(bus).Busy? && !accepted ==> bus == NoHandle && state == ErrorState
    {
      union[0] := REG_SECONDS;
      var ok := I2cSubmit(TransmitThenReceive(0, dest, count), accepted);
    }

    method ReadDateAndTime(accepted: bool)
      requires Valid()
      modifies `bus, `state, `nextTask, union
      ensures Snapshot() == Start(old(Snapshot()), Call.ReadDate, accepted)
      ensures !old(IsBusy()) ==> Valid() && (IsBusy() <==> accepted)
    {
      if !IsBusy() {
        StartsAreValid(Snapshot(), Call.ReadDate, accepted);
      }
      ghost var before := union[..];
      Memcpy(union, 0, dateAt);
      union[DATE_ADDRESS_END] := REG_SECONDS;
      assert union[..] == Overwrite(before, 0, dateAt)[DATE_ADDRESS_END := REG_SECONDS];
      nextTask := DateTimeConvertBcd;
      var ok := I2cSubmit(TransmitThenReceive(4, CallerDateTime, 7), accepted);
    }

    /** The value arrives in the caller's storage. */
    method ReadRegister(address: byte, accepted: bool)
      requires Valid() && address as int < NUM_REGISTERS
      modifies `bus, `state, union
      ensures Snapshot() == Start(old(Snapshot()), Call.ReadRegister(address), accepted)
      ensures !old(IsBusy()) ==> Valid() && (IsBusy() <==> accepted)
    {
      if !IsBusy() {
        StartsAreValid(Snapshot(), Call.ReadRegister(address), accepted);
      }
      union[0] := address;
      var ok := I2cSubmit(TransmitThenReceive(0, CallerRegisters, 1), accepted);
    }

    method WriteRegister(address: byte, value: byte, accepted: bool)
      requires Valid() && address as int < NUM_REGISTERS
      modifies `bus, `state, union
      ensures Snapshot() == Start(old(Snapshot()), Call.WriteRegister(address, value), accepted)
      ensures !old(IsBusy()) ==> Valid() && (IsBusy() <==> accepted)
    {
      if !IsBusy() {
        StartsAreValid(Snapshot(), Call.WriteRegister(address, value), accepted);
      }
      ghost var before := union[..];
      union[0] := address;
      union[1] := value;
      assert union[..] == Overwrite(before, 0, [address, value]);
      var ok := I2cSubmit(Transmit(0, 2), accepted);
    }

    method ReadNumRegisters(count: nat, accepted: bool)
      requires Valid() && count <= NUM_REGISTERS
      modifies `bus, `state, union
      ensures Snapshot() == Start(old(Snapshot()), Call.ReadNumRegisters(count), accepted)
      ensures !old(IsBusy()) ==> Valid() && (IsBusy() <==> accepted)
    {
      if !IsBusy() {
        StartsAreValid(Snapshot(), Call.ReadNumRegisters(count), accepted);
      }
      ReadFromSeconds(CallerRegisters, count, accepted);
    }

    method PutRegisters(values: seq<byte>)
      requires Shaped() && |values| <= NUM_REGISTERS
      modifies union
      ensures union[..] == Overwrite(old(union[..]), 0, [REG_SECONDS] + values)
    {
      ghost var before := union[..];
      union[0] := REG_SECONDS;
      Memcpy(union, 1, values);
      assert union[..] == Overwrite(before, 0, [REG_SECONDS] + values);
    }

    method WriteNumRegisters(values: seq<byte>, accepted: bool)
      requires Valid() && |values| <= NUM_REGISTERS
      modifies `bus, `state, union
      ensures Snapshot() == Start(old(Snapshot()), Call.WriteNumRegisters(values), accepted)
      ensures !old(IsBusy()) ==> Valid() && (IsBusy() <==> accepted)
    {
      if !IsBusy() {
        StartsAreValid(Snapshot(), Call.WriteNumRegisters(values), accepted);
      }
      PutRegisters(values);
      var ok := I2cSubmit(Transmit(0, |values| + 1), accepted);
    }

    method EnableOscillator(enable: bool, accepted: bool)
      requires Valid()
      modifies `bus, `state, `nextTask, union
      ensures Snapshot() == Start(old(Snapshot()), Call.EnableOscillator(enable), accepted)
      ensures !old(IsBusy()) ==> Valid() && (IsBusy() <==> accepted)
    {
      if !IsBusy() {
        StartsAreValid(Snapshot(), Call.EnableOscillator(enable), accepted);
      }
      union[1] := REG_SECONDS;
      nextTask := OscillatorUpdate(enable);
      var ok := I2cSubmit(TransmitThenReceive(1, Union(0), 1), accepted);
    }

    method OscillatorStatus(accepted: bool)
      requires Valid()
      modifies `bus, `state, `nextTask, union
      ensures Snapshot() == Start(old(Snapshot()), Call.AskOscillatorStatus, accepted)
      ensures !old(IsBusy()) ==> Valid() && (IsBusy() <==> accepted)
    {
      if !IsBusy() {
        StartsAreValid(Snapshot(), Call.AskOscillatorStatus, accepted);
      }
      ghost var before := union[..];
      Memcpy(union, STATUS_ADDRESS_AT, statusAt);
      union[STATUS_ADDRESS_END] := REG_SECONDS;
      assert union[..] == Overwrite(before, STATUS_ADDRESS_AT, statusAt)[STATUS_ADDRESS_END := REG_SECONDS];
      nextTask := NextTask.OscillatorStatus;
      var ok := I2cSubmit(TransmitThenReceive(8, Union(0), 1), accepted);
    }

    method EnableBatteryBackup(enable: bool, accepted: bool)
      requires Valid()
      modifies `bus, `state, `nextTask, union
      ensures Snapshot() == Start(old(Snapshot()), Call.EnableBattery(enable), accepted)
      ensures !old(IsBusy()) ==> Valid() && (IsBusy() <==> accepted)
    {
      if !IsBusy() {
        StartsAreValid(Snapshot(), Call.EnableBattery(enable), accepted);
      }
      union[1] := REG_DAY_OF_WEEK;
      nextTask := BatteryUpdate(enable);
      var ok := I2cSubmit(TransmitThenReceive(1, Union(0), 1), accepted);
    }

    method BatteryBackupStatus(accepted: bool)
      requires Valid()
      modifies `bus, `state, `nextTask, union
      ensures Snapshot() == Start(old(Snapshot()), Call.AskBatteryStatus, accepted)
      ensures !old(IsBusy()) ==> Valid() && (IsBusy() <==> accepted)
    {
      if !IsBusy() {
        StartsAreValid(Snapshot(), Call.AskBatteryStatus, accepted);
      }
      ghost var before := union[..];
      Memcpy(union, STATUS_ADDRESS_AT, statusAt);
      union[STATUS_ADDRESS_END] := REG_DAY_OF_WEEK;
      assert union[..] == Overwrite(before, STATUS_ADDRESS_AT, statusAt)[STATUS_ADDRESS_END := REG_DAY_OF_WEEK];
      nextTask := NextTask.BatteryStatus;
      var ok := I2cSubmit(TransmitThenReceive(8, Union(0), 1), accepted);
    }

    /** Polls through any sequence of bus answers. */
    method PollAll(events: seq<Event>)
      requires Valid()
      modifies `bus, `state, `nextTask, `callerStatus, `stray, union, callerDate, callerRegisters, device
      ensures Valid() && Snapshot() == Run(old(Snapshot()), events)
    {
      var i := 0;
      while i < |events|
        invariant 0 <= i <= |events|
        invariant Valid() && Run(Snapshot(), events[i..]) == Run(old(Snapshot()), events)
      {
        assert events[i..][1..] == events[i + 1..];
        Tasks(events[i]);
        i := i + 1;
      }
    }

    /** Setting the clock and reading it back through any number of pending polls. */
    method SetAndReadBack(date: seq<byte>, writing: seq<Event>, reading: seq<Event>)
      requires Valid() && !IsBusy() && |date| == 7
      requires ErrorFree(writing) && Completions(writing) >= 2 && ErrorFree(reading) && Completions(reading) >= 1
      modifies `bus, `state, `nextTask, `callerStatus, `stray, union, callerDate, callerRegisters, device
      ensures Valid() && Snapshot().Idle()
      ensures callerDate[..] == date <==> FitsFields(date)
      ensures device[..] == WithDate(old(device[..]), date)
    {
      ghost var before := Snapshot();
      WriteThenRead(before, date, writing, reading);
      WriteDateRun(before, date, writing);
      WriteDateAndTime(date, true);
      PollAll(writing);
      ReadDateRun(Snapshot(), reading);
      ReadDateAndTime(true);
      PollAll(reading);
    }
  }
}
