/** The bit-banged shift register transmitter and the 74xx chain it drives. */
module ShiftRegister {
  import opened Bits

  const MAX_DATA := 6

  datatype State = Idle | TransmitBegin | TransmitStep | TransmitFinish | TransmitPause

  /** A rising clock edge as the registers see it; `disabled` is the level of ~G at that moment. */
  datatype Edge = Shift(level: bool, disabled: bool) | Latch(disabled: bool)

  datatype Pins = Pins(data: bool, srck: bool, rck: bool, en: bool)

  datatype Machine = Machine(
    state: State, data: seq<byte>, numBytes: nat,
    currentByte: nat, currentBit: nat, counter: nat,
    pins: Pins, edges: seq<Edge>)
  {
    /** The transmitter is inside its buffer and its bit counter is in range. */
    predicate Valid()
    {
      && |data| == MAX_DATA
      && numBytes <= MAX_DATA
      && (state == TransmitBegin ==> 1 <= numBytes)
      && (state == TransmitStep ==>
            currentByte < numBytes && currentBit <= 8 && counter <= 1 && (counter == 1 ==> currentBit < 8))
      && (state == TransmitPause ==> 1 <= currentByte < numBytes && currentBit == 0 && counter <= 1)
      && (state == TransmitFinish ==> counter <= 1)
    }
  }

  /** What one call of the task function does to the transmitter, its pins and the edge history. */
  function Poll(m: Machine): (r: Machine)
    requires m.Valid()
    ensures r.Valid() && r.data == m.data && r.numBytes == m.numBytes
  {
    match m.state
    case Idle => m
    case TransmitBegin =>
      m.(state := TransmitStep, currentByte := 0, currentBit := 0, counter := 0,
         pins := Pins(false, false, false, true))
    case TransmitStep =>
      if m.counter == 1 then
        m.(currentBit := m.currentBit + 1, counter := 0, pins := m.pins.(srck := false))
      else if m.currentBit == 8 then
        m.(currentBit := 0, currentByte := m.currentByte + 1,
           state := if m.currentByte + 1 == m.numBytes then TransmitFinish else TransmitPause)
      else
        var level := TestBit(m.data[m.currentByte], 7 - m.currentBit);
        m.(pins := m.pins.(data := level, srck := true), counter := m.counter + 1,
           edges := if m.pins.srck then m.edges else m.edges + [Shift(level, m.pins.en)])
    case TransmitFinish =>
      if m.counter == 1 then
        m.(state := Idle, pins := m.pins.(rck := false, en := false))
      else
        m.(pins := m.pins.(rck := true), counter := m.counter + 1,
           edges := if m.pins.rck then m.edges else m.edges + [Latch(m.pins.en)])
    case TransmitPause =>
      if m.counter == 1 then m.(counter := 0, state := TransmitStep)
      else m.(counter := m.counter + 1)
  }

  /** How many polls away from idle the transmitter is. */
  function PollsLeft(m: Machine): (k: nat)
    requires m.Valid()
    ensures k == 0 <==> m.state == Idle
  {
    match m.state
    case Idle => 0
    case TransmitBegin => 19 * m.numBytes + 1
    case TransmitStep => 19 * (m.numBytes - m.currentByte) - 2 * m.currentBit - m.counter
    case TransmitPause => 19 * (m.numBytes - m.currentByte) + 2 - m.counter
    case TransmitFinish => 2 - m.counter
  }

  /** Each poll of a busy transmitter brings it one poll nearer to idle. */
  lemma OnePollLess(m: Machine)
    requires m.Valid() && m.state != Idle
    ensures PollsLeft(Poll(m)) == PollsLeft(m) - 1
  {
  }

  class AppShiftRegisterData {
    var state: State
    const data: array<byte>
    var numBytes: nat
    var currentByte: nat
    var currentBit: nat
    var counter: nat
    // Levels on the register side of the inverter.
    var pinData: bool
    var pinSrck: bool
    var pinRck: bool
    var pinEn: bool
    ghost var edges: seq<Edge>

    ghost function Snapshot(): Machine
      reads this, data
    {
      Machine(state, data[..], numBytes, currentByte, currentBit, counter,
              Pins(pinData, pinSrck, pinRck, pinEn), edges)
    }

    ghost predicate Valid()
      reads this, data
    {
      Snapshot().Valid()
    }

    constructor ()
      ensures Valid() && fresh(data) && state == Idle
      ensures Snapshot().pins == Pins(false, false, false, false) && edges == []
    {
      state, numBytes, currentByte, currentBit, counter := Idle, 0, 0, 0, 0;
      data := new byte[MAX_DATA];
      pinEn, pinData, pinRck, pinSrck := false, false, false, false;
      edges := [];
    }

    method SrckPullUp()
      modifies `pinSrck, `edges
      ensures pinSrck
      ensures edges == if old(pinSrck) then old(edges) else old(edges) + [Shift(pinData, pinEn)]
    {
      if !pinSrck {
        edges := edges + [Shift(pinData, pinEn)];
      }
      pinSrck := true;
    }

    method RckPullUp()
      modifies `pinRck, `edges
      ensures pinRck
      ensures edges == if old(pinRck) then old(edges) else old(edges) + [Latch(pinEn)]
    {
      if !pinRck {
        edges := edges + [Latch(pinEn)];
      }
      pinRck := true;
    }

    method BeginTransmit()
      requires Valid() && state == TransmitBegin
      modifies this
      ensures Valid() && Snapshot() == Poll(old(Snapshot()))
    {
      currentByte, currentBit, counter := 0, 0, 0;
      pinData, pinRck, pinSrck := false, false, false;
      pinEn := true;
      state := TransmitStep;
    }

    method StepTransmit()
      requires Valid() && state == TransmitStep
      modifies this
      ensures Valid() && Snapshot() == Poll(old(Snapshot()))
    {
      if counter == 1 {
        pinSrck := false;
        currentBit := currentBit + 1;
        counter := 0;
        return;
      }
      if currentBit == 8 {
        currentBit := 0;
        currentByte := currentByte + 1;
        if currentByte == numBytes {
          state := TransmitFinish;
        } else {
          state := TransmitPause;
        }
        return;
      }
      var value := data[currentByte] & Mask(7 - currentBit);
      MaskTestsBit(data[currentByte], 7 - currentBit);
      pinData := value != 0;
      SrckPullUp();
      counter := counter + 1;
    }

    method FinishTransmit()
      requires Valid() && state == TransmitFinish
      modifies this
      ensures Valid() && Snapshot() == Poll(old(Snapshot()))
    {
      if counter == 1 {
        pinRck := false;
        pinEn := false;
        state := Idle;
        return;
      }
      RckPullUp();
      counter := counter + 1;
    }

    method PauseTransmit()
      requires Valid() && state == TransmitPause
      modifies this
      ensures Valid() && Snapshot() == Poll(old(Snapshot()))
    {
      if counter == 1 {
        counter := 0;
        state := TransmitStep;
        return;
      }
      counter := counter + 1;
    }

    method Tasks()
      requires Valid()
      modifies this
      ensures Valid() && Snapshot() == Poll(old(Snapshot()))
    {
      match state
      case Idle =>
      case TransmitBegin => BeginTransmit();
      case TransmitStep => StepTransmit();
      case TransmitFinish => FinishTransmit();
      case TransmitPause => PauseTransmit();
    }

    method SendData(source: seq<byte>, n: nat)
      requires data.Length == MAX_DATA <= |source| && 1 <= n <= MAX_DATA
      modifies this, data
      ensures Valid()
      ensures Snapshot() == old(Snapshot()).(state := TransmitBegin, data := source[..MAX_DATA], numBytes := n)
    {
      forall i | 0 <= i < MAX_DATA {
        data[i] := source[i];
      }
      assert data[..] == source[..MAX_DATA];
      numBytes := n;
      state := TransmitBegin;
    }

    /** The main loop of the firmware, seen from one transmission. */
    method PollUntilIdle() returns (calls: nat)
      requires Valid() && state == TransmitBegin
      modifies this
      ensures Valid() && state == Idle
      ensures calls == 19 * numBytes + 1
      ensures edges == old(edges) + Waveform(data[..], numBytes)
      ensures data[..] == old(data[..]) && numBytes == old(numBytes)
      ensures !pinEn && !pinRck && !pinSrck
    {
      ghost var start := Snapshot();
      ghost var q, r := 0, 0;
      Tasks();
      calls := 1;
      FirstPoll(start);
      while state != Idle
        invariant Sent(start) && q <= start.numBytes && r < 19 && (q == start.numBytes ==> r == 0)
        invariant Valid() && calls == 19 * q + r + 1
        invariant Snapshot() == At(start, q, r)
        decreases start.numBytes - q, 19 - r
      {
        NextPoll(start, q, r);
        Tasks();
        calls := calls + 1;
        q, r := if r < 18 then q else q + 1, if r < 18 then r + 1 else 0;
      }
    }
  }

  // ---------------------------------------------------------------------------
  // The schedule of a transmission, in closed form.

  /** The eight edges of one byte, most significant bit first. */
  function ByteShifts(b: byte): (s: seq<Edge>)
    ensures |s| == 8
  {
    seq(8, i requires 0 <= i < 8 => Shift(TestBit(b, 7 - i), true))
  }

  /** The edges of the first n bytes, in order. */
  function Shifts(data: seq<byte>, n: nat): (s: seq<Edge>)
    requires n <= |data|
    ensures |s| == 8 * n
  {
    if n == 0 then [] else Shifts(data, n - 1) + ByteShifts(data[n - 1])
  }

  /** The whole transmission: 8n shift edges and then one latch edge, outputs disabled all along. */
  function Waveform(data: seq<byte>, n: nat): (s: seq<Edge>)
    requires n <= |data|
    ensures |s| == 8 * n + 1
  {
    Shifts(data, n) + [Latch(true)]
  }

  ghost predicate Sent(start: Machine)
  {
    start.Valid() && start.state == TransmitBegin
  }

  /** The transmitter after 19q + r + 1 polls. */
  ghost function At(start: Machine, q: nat, r: nat): (m: Machine)
    requires Sent(start) && q <= start.numBytes && r < 19 && (q == start.numBytes ==> r == 0)
    ensures m.data == start.data && m.numBytes == start.numBytes
    ensures m.state == Idle <==> q == start.numBytes
  {
    var n := start.numBytes;
    if q == n then
      Machine(Idle, start.data, n, n, 0, 1, Pins(LastLevel(start, q, 0), false, false, false),
              start.edges + Waveform(start.data, n))
    else if r <= 16 then
      Machine(TransmitStep, start.data, n, q, r / 2, r % 2,
              Pins(LastLevel(start, q, (r + 1) / 2), r % 2 == 1, false, true),
              start.edges + Shifts(start.data, q) + ByteShifts(start.data[q])[..(r + 1) / 2])
    else if q + 1 < n then
      Machine(TransmitPause, start.data, n, q + 1, 0, r - 17,
              Pins(LastLevel(start, q, 8), false, false, true),
              start.edges + Shifts(start.data, q + 1))
    else
      Machine(TransmitFinish, start.data, n, q + 1, 0, r - 17,
              Pins(LastLevel(start, q, 8), false, r == 18, true),
              start.edges + if r == 18 then Waveform(start.data, n) else Shifts(start.data, n))
  }

  /** The level left on the data pin after c bits of byte q. */
  ghost predicate LastLevel(start: Machine, q: nat, c: nat)
    requires q <= |start.data| && c <= 8 && (q == |start.data| ==> c == 0)
  {
    if c > 0 then TestBit(start.data[q], 8 - c)
    else q > 0 && TestBit(start.data[q - 1], 0)
  }

  lemma FirstPoll(start: Machine)
    requires Sent(start)
    ensures Poll(start) == At(start, 0, 0)
  {
    assert start.edges + Shifts(start.data, 0) + ByteShifts(start.data[0])[..0] == start.edges;
  }

  /** Each poll moves the transmitter to the next slot of the schedule. */
  lemma NextPoll(start: Machine, q: nat, r: nat)
    requires Sent(start) && q < start.numBytes && r < 19
    ensures At(start, q, r).Valid()
    ensures Poll(At(start, q, r)) == At(start, if r < 18 then q else q + 1, if r < 18 then r + 1 else 0)
  {
    if r <= 16 {
      NextInByte(start, q, r);
    } else if q + 1 < start.numBytes {
      NextPause(start, q, r);
    } else {
      NextFinish(start, q, r);
    }
  }

  lemma NextInByte(start: Machine, q: nat, r: nat)
    requires Sent(start) && q < start.numBytes && r <= 16
    ensures At(start, q, r).Valid()
    ensures Poll(At(start, q, r)) == At(start, q, r + 1)
  {
    if r == 16 {
      NextByteEnd(start, q);
    } else if r % 2 == 0 {
      NextRisingEdge(start, q, r / 2);
    } else {
      NextFallingEdge(start, q, r / 2);
    }
  }

  lemma Appended<T>(a: seq<T>, b: seq<T>, s: seq<T>, i: nat)
    requires i < |s|
    ensures a + b + s[..i] + [s[i]] == a + b + s[..i + 1]
  {
  }

  lemma NextRisingEdge(start: Machine, q: nat, bit: nat)
    requires Sent(start) && q < start.numBytes && bit < 8
    ensures At(start, q, 2 * bit).Valid()
    ensures Poll(At(start, q, 2 * bit)) == At(start, q, 2 * bit + 1)
  {
    var r := 2 * bit;
    assert r / 2 == bit && r % 2 == 0 && (r + 1) / 2 == bit && (r + 2) / 2 == bit + 1;
    Appended(start.edges, Shifts(start.data, q), ByteShifts(start.data[q]), bit);
  }

  lemma NextFallingEdge(start: Machine, q: nat, bit: nat)
    requires Sent(start) && q < start.numBytes && bit < 8
    ensures At(start, q, 2 * bit + 1).Valid()
    ensures Poll(At(start, q, 2 * bit + 1)) == At(start, q, 2 * bit + 2)
  {
    var r := 2 * bit + 1;
    assert r / 2 == bit && r % 2 == 1 && (r + 1) / 2 == bit + 1 && (r + 2) / 2 == bit + 1;
  }

  lemma NextByteEnd(start: Machine, q: nat)
    requires Sent(start) && q < start.numBytes
    ensures At(start, q, 16).Valid()
    ensures Poll(At(start, q, 16)) == At(start, q, 17)
  {
    var s := ByteShifts(start.data[q]);
    assert s[..8] == s;
    assert start.edges + Shifts(start.data, q + 1) == start.edges + Shifts(start.data, q) + s;
  }

  lemma NextPause(start: Machine, q: nat, r: nat)
    requires Sent(start) && q + 1 < start.numBytes && 17 <= r < 19
    ensures At(start, q, r).Valid()
    ensures Poll(At(start, q, r)) == At(start, if r < 18 then q else q + 1, if r < 18 then r + 1 else 0)
  {
    var before := start.edges + Shifts(start.data, q + 1);
    assert before + ByteShifts(start.data[q + 1])[..0] == before;
  }

  lemma NextFinish(start: Machine, q: nat, r: nat)
    requires Sent(start) && q + 1 == start.numBytes && 17 <= r < 19
    ensures At(start, q, r).Valid()
    ensures Poll(At(start, q, r)) == At(start, if r < 18 then q else q + 1, if r < 18 then r + 1 else 0)
  {
    assert start.edges + Waveform(start.data, q + 1) == start.edges + Shifts(start.data, q + 1) + [Latch(true)];
  }

  function Polls(m: Machine, k: nat): (r: Machine)
    requires m.Valid()
    ensures r.Valid()
  {
    if k == 0 then m else Poll(Polls(m, k - 1))
  }

  /** Poll number 19q + r + 1 of a transmission finds the transmitter in slot (q, r). */
  lemma {:induction false} TransmissionSchedule(start: Machine, k: nat, q: nat, r: nat)
    requires Sent(start) && q <= start.numBytes && r < 19 && (q == start.numBytes ==> r == 0)
    requires k == 19 * q + r + 1
    ensures Polls(start, k) == At(start, q, r)
    decreases k, 1
  {
    if k == 1 {
      FirstSlot(start);
    } else if r > 0 {
      NextSlot(start, k, q, r - 1, q, r);
    } else {
      NextSlot(start, k, q - 1, 18, q, r);
    }
  }

  lemma {:induction false} NextSlot(start: Machine, k: nat, q: nat, r: nat, q2: nat, r2: nat)
    requires Sent(start) && q < start.numBytes && r < 19 && k == 19 * q + r + 2
    requires if r < 18 then q2 == q && r2 == r + 1 else q2 == q + 1 && r2 == 0
    ensures Polls(start, k) == At(start, q2, r2)
    decreases k, 0
  {
    TransmissionSchedule(start, k - 1, q, r);
    OneMorePoll(start, k, q, r, q2, r2);
  }

  lemma FirstSlot(start: Machine)
    requires Sent(start)
    ensures Polls(start, 1) == At(start, 0, 0)
  {
    assert Polls(start, 0) == start;
    FirstPoll(start);
  }

  lemma OneMorePoll(start: Machine, k: nat, q: nat, r: nat, q2: nat, r2: nat)
    requires Sent(start) && k > 0 && q < start.numBytes && r < 19
    requires Polls(start, k - 1) == At(start, q, r)
    requires if r < 18 then q2 == q && r2 == r + 1 else q2 == q + 1 && r2 == 0
    ensures Polls(start, k) == At(start, q2, r2)
  {
    NextPoll(start, q, r);
  }

  /** The transmitter is busy during all earlier polls and idle after that one. */
  lemma BusyUntilTheEnd(start: Machine, k: nat)
    requires Sent(start) && k <= 19 * start.numBytes
    ensures Polls(start, k).state != Idle
  {
    if k == 0 {
      assert Polls(start, 0) == start;
    } else {
      var q, r := (k - 1) / 19, (k - 1) % 19;
      TransmissionSchedule(start, k, q, r);
    }
  }

  lemma TransmissionResult(start: Machine)
    requires Sent(start)
    ensures Polls(start, 19 * start.numBytes + 1)
         == Machine(Idle, start.data, start.numBytes, start.numBytes, 0, 1,
                    Pins(TestBit(start.data[start.numBytes - 1], 0), false, false, false),
                    start.edges + Waveform(start.data, start.numBytes))
  {
    TransmissionSchedule(start, 19 * start.numBytes + 1, start.numBytes, 0);
  }
}
