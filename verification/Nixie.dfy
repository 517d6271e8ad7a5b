/** The nixie application: fetch a value from a server response and show it on the tubes. */
module Nixie {
  import opened Wrappers
  import opened Strings
  import opened ByteSearch
  import opened ResponseWindow
  import opened Memory
  import opened Decimal
  import opened Numerals
  import opened Bits
  import opened NixieWiring
  import SR = ShiftRegister
  import opened RegisterChain

  datatype State =
    | Idle | Error
    | BeginHttpRequest | WaitHttpsClient | WaitHttpsResponse | ShuffleServerValue
    | BeginDisplaySequence | DecodeDisplayValue | EncodeShiftRegister | WriteShiftRegister

  const PERIODIC_INTERVAL_FAST := 5
  const PERIODIC_INTERVAL_NORMAL := 30

  /** What the other parts of the firmware answer during one call of the task function. */
  datatype Environment = Environment(
    // The HTTPS client.
    busy: bool, accepted: bool,
    // The system counter, its ticks per second, and whether a network interface can be used.
    now: nat, frequency: nat, usable: bool)

  /** A bool the caller of Fetch owns. */
  class Flag {
    var value: bool
  }

  ghost function Concat(chunks: seq<seq<char>>): seq<char>
  {
    if chunks == [] then [] else Concat(chunks[..|chunks| - 1]) + chunks[|chunks| - 1]
  }

  lemma LastBytes(a: seq<char>, b: seq<char>, m: nat, n: nat)
    requires m <= |a| && n <= |b| && (m == 0 || n == |b|)
    ensures a[|a| - m..] + b[|b| - n..] == (a + b)[|a + b| - (m + n)..]
  {
  }

  class AppNixieData {
    var state: State
    const numNixies: nat
    const token: seq<char>
    var isValueParsed: bool
    const cyclicBuffer: array<char>
    var cyclicBufferLen: nat
    const maxCyclicBufferLen: nat
    const displayValue: array<char>
    const wiring: Wiring
    const cathodes: array<int>
    const registerShiftState: array<byte>
    const shiftRegister: SR.AppShiftRegisterData
    var displayValueOut: array?<char>
    var isFetchedOut: Flag?
    var periodicTasksEnabled: bool
    var periodicNextTime: nat
    var taskFromPeriodic: bool
    // All bytes of the current response, in order.
    ghost var received: seq<char>

    ghost predicate Valid() {
      && 1 <= numNixies
      && displayValue.Length == numNixies
      && maxCyclicBufferLen == 2 * (|token| + numNixies) <= cyclicBuffer.Length
      && cyclicBuffer != displayValue
    }

    /** The display side: wiring for every tube, and buffers of the right size. */
    ghost predicate Wired() {
      && numNixies == displayValue.Length == cathodes.Length == |wiring.mapping|
      && wiring.Valid()
      && registerShiftState.Length == SR.MAX_DATA
      && shiftRegister.data != registerShiftState
      && ApartFromRegisters(displayValue) && ApartFromRegisters(cyclicBuffer)
      && cathodes as object != registerShiftState && cathodes as object != shiftRegister.data
    }

    /** An array that is none of the application's own. */
    ghost predicate Foreign(a: array<char>) {
      a != displayValue && a != cyclicBuffer && ApartFromRegisters(a)
    }

    ghost predicate ApartFromRegisters(a: array<char>) {
      a as object != cathodes && a as object != registerShiftState && a as object != shiftRegister.data
    }

    /** Where a fetched value should go, if somebody asked for it. */
    ghost predicate FetchTarget()
      reads this
    {
      && (displayValueOut != null <==> isFetchedOut != null)
      && (displayValueOut != null ==>
            displayValueOut.Length == displayValue.Length && Foreign(displayValueOut))
    }

    /** Registers the tubes and blanks the registers of a previous run. */
    constructor (wiring: Wiring, token: seq<char>, shiftRegister: SR.AppShiftRegisterData)
      requires wiring.Valid() && 1 <= |wiring.mapping|
      requires shiftRegister.Valid()
      modifies shiftRegister, shiftRegister.data
      ensures Valid() && Wired() && state == Idle && displayValueOut == null && isFetchedOut == null
      ensures periodicTasksEnabled && periodicNextTime == 0 && !taskFromPeriodic
      ensures this.wiring == wiring && this.token == token && this.shiftRegister == shiftRegister
      ensures fresh(cyclicBuffer) && fresh(displayValue) && fresh(cathodes) && fresh(registerShiftState)
      ensures shiftRegister.Valid()
      ensures shiftRegister.Snapshot() == old(shiftRegister.Snapshot()).(state := SR.TransmitBegin,
                data := seq(SR.MAX_DATA, _ => 0), numBytes := wiring.registers)
    {
      state := Idle;
      displayValueOut, isFetchedOut := null, null;
      periodicTasksEnabled, periodicNextTime, taskFromPeriodic := true, 0, false;
      this.wiring, this.token, this.shiftRegister := wiring, token, shiftRegister;
      numNixies := |wiring.mapping|;
      isValueParsed, cyclicBufferLen, received := false, 0, [];
      maxCyclicBufferLen := 2 * (|token| + |wiring.mapping|);
      cyclicBuffer := new char[2 * (|token| + |wiring.mapping|)];
      displayValue := new char[|wiring.mapping|];
      cathodes := new int[|wiring.mapping|];
      registerShiftState := new byte[SR.MAX_DATA](_ => 0);
      new;
      assert registerShiftState[..] == seq(SR.MAX_DATA, _ => 0) == registerShiftState[..SR.MAX_DATA];
      shiftRegister.SendData(registerShiftState[..], wiring.registers);
    }

    /** The extractor's invariant: what is parsed or kept accounts for everything received. */
    ghost predicate Extracting()
      reads `received, `isValueParsed, `cyclicBufferLen, cyclicBuffer, displayValue
      requires Valid()
    {
      && cyclicBufferLen <= maxCyclicBufferLen
      && (isValueParsed ==> exists digits :: ShowsSettled(received, digits))
      && (!isValueParsed ==> Window(received, cyclicBuffer[..cyclicBufferLen], token, numNixies))
    }

    ghost predicate ShowsSettled(response: seq<char>, digits: seq<char>)
      reads displayValue
    {
      && |digits| <= numNixies
      && Settled(response, token, numNixies, digits)
      && displayValue[..] == Parsed(digits, numNixies)
    }

    /** The cyclic buffer holds exactly `s`. */
    ghost predicate Holds(s: seq<char>)
      reads `cyclicBufferLen, cyclicBuffer
    {
      && cyclicBufferLen == |s| <= cyclicBuffer.Length
      && forall i :: 0 <= i < |s| ==> cyclicBuffer[i] == s[i]
    }

    method ParseValueFromBuffer(buffer: seq<char>)
      requires Valid()
      modifies this`isValueParsed, displayValue
      ensures isValueParsed
      ensures displayValue[..] == Parsed(DigitPrefix(buffer, numNixies), numNixies)
    {
      var index := 0;
      var numBytes := Min(|buffer|, numNixies);
      while index < numBytes
        invariant 0 <= index <= numBytes
        invariant forall k :: 0 <= k < index ==> IsDigit(buffer[k])
        invariant forall k :: numNixies - index <= k < numNixies ==> displayValue[k] == buffer[numNixies - 1 - k]
      {
        var ch := buffer[index];
        if '0' <= ch <= '9' {
          displayValue[numNixies - index - 1] := ch;
        } else {
          break;
        }
        index := index + 1;
      }
      ghost var digits := buffer[..index];
      DigitPrefixUnique(buffer, numNixies, digits);
      while index < numNixies
        invariant |digits| <= index <= numNixies
        invariant forall k :: numNixies - |digits| <= k < numNixies ==> displayValue[k] == digits[numNixies - 1 - k]
        invariant forall k :: numNixies - index <= k < numNixies - |digits| ==> displayValue[k] == NUL
      {
        displayValue[numNixies - index - 1] := NUL;
        index := index + 1;
      }
      isValueParsed := true;
      assert displayValue[..] == Parsed(digits, numNixies);
    }

    /** Once the value is parsed, the rest of the response goes by. */
    ghost method IgnoreBuffer(buffer: seq<char>)
      requires Valid() && Extracting() && isValueParsed
      modifies this`received
      ensures Extracting() && received == old(received) + buffer
    {
      ghost var before := received;
      ghost var digits :| ShowsSettled(received, digits);
      received := received + buffer;
      SettledStays(before, buffer, token, numNixies, digits);
      assert ShowsSettled(received, digits);
    }

    /** Fill the free space of the cyclic buffer from the chunk. */
    method AppendSuffix(ghost kept: seq<char>, buffer: seq<char>) returns (appendSuffixLen: nat)
      requires Valid() && |kept| <= maxCyclicBufferLen && Holds(kept)
      modifies this`cyclicBufferLen, cyclicBuffer
      ensures appendSuffixLen == Min(|buffer|, maxCyclicBufferLen - |kept|)
      ensures cyclicBufferLen == |kept| + appendSuffixLen && Holds((kept + buffer)[..cyclicBufferLen])
    {
      appendSuffixLen := Min(|buffer|, maxCyclicBufferLen - cyclicBufferLen);
      Memcpy(cyclicBuffer, cyclicBufferLen, buffer[..appendSuffixLen]);
      cyclicBufferLen := cyclicBufferLen + appendSuffixLen;
    }

    method BufferReceivedCallback(buffer: seq<char>)
      requires Valid() && Extracting()
      modifies this`received, this`isValueParsed, this`cyclicBufferLen, cyclicBuffer, displayValue
      ensures Extracting() && (old(isValueParsed) ==> isValueParsed)
      ensures received == old(received) + buffer
      ensures !isValueParsed ==> displayValue[..] == old(displayValue[..])
    {
      ghost var before := received;
      if isValueParsed {
        IgnoreBuffer(buffer);
        return;
      }
      received := received + buffer;
      ghost var kept := cyclicBuffer[..cyclicBufferLen];
      ghost var all := kept + buffer;
      var appendSuffixLen := AppendSuffix(kept, buffer);
      assert cyclicBuffer[..cyclicBufferLen] == all[..cyclicBufferLen];
      var found := Memmem(cyclicBuffer[..cyclicBufferLen], token);
      if found.Some? {
        FirstInPrefix(all, cyclicBufferLen, token, found.value);
        TokenInCyclicBuffer(before, kept, buffer, appendSuffixLen, found.value);
        return;
      }
      SearchChunk(before, kept, buffer, appendSuffixLen);
    }

    /** The joined buffer does not hold the token: look for it in the chunk alone. */
    method SearchChunk(ghost before: seq<char>, ghost kept: seq<char>, buffer: seq<char>, appendSuffixLen: nat)
      requires Valid() && !isValueParsed
      requires Window(before, kept, token, numNixies) && received == before + buffer
      requires appendSuffixLen == Min(|buffer|, maxCyclicBufferLen - |kept|)
      requires cyclicBufferLen == |kept| + appendSuffixLen <= maxCyclicBufferLen
      requires Holds((kept + buffer)[..cyclicBufferLen]) && !Occurs((kept + buffer)[..cyclicBufferLen], token)
      modifies this`isValueParsed, this`cyclicBufferLen, cyclicBuffer, displayValue
      ensures Extracting()
      ensures !isValueParsed ==> displayValue[..] == old(displayValue[..])
    {
      var found := Memmem(buffer, token);
      FoundInChunk(kept, buffer, token, cyclicBufferLen, found.GetOr(0));
      if found.None? {
        DropSuffix(kept, buffer, appendSuffixLen);
        TokenNowhere(before, kept, buffer);
      } else {
        TokenInChunk(before, kept, buffer, found.value);
      }
    }

    /** Take the appended bytes back. */
    method DropSuffix(ghost kept: seq<char>, ghost buffer: seq<char>, appendSuffixLen: nat)
      requires Valid() && cyclicBufferLen == |kept| + appendSuffixLen <= |kept + buffer|
      requires Holds((kept + buffer)[..cyclicBufferLen])
      modifies this`cyclicBufferLen
      ensures cyclicBufferLen == |kept| && Holds(kept)
    {
      cyclicBufferLen := cyclicBufferLen - appendSuffixLen;
    }

    /** Bring the token to the front of the buffer and fill the freed bytes from the chunk. */
    method MoveTokenToFront(ghost all: seq<char>, buffer: seq<char>, appendSuffixLen: nat, prefixLen: nat)
      requires Valid()
      requires prefixLen <= cyclicBufferLen <= maxCyclicBufferLen && cyclicBufferLen <= |all|
      requires Holds(all[..cyclicBufferLen])
      requires appendSuffixLen <= |buffer| && |all| - cyclicBufferLen == |buffer| - appendSuffixLen
      requires forall i :: cyclicBufferLen <= i < |all| ==> all[i] == buffer[i - cyclicBufferLen + appendSuffixLen]
      modifies this`cyclicBufferLen, cyclicBuffer
      ensures cyclicBufferLen ==
        if prefixLen == 0 then old(cyclicBufferLen) else Min(|all| - prefixLen, old(cyclicBufferLen))
      ensures Holds(all[prefixLen..prefixLen + cyclicBufferLen])
    {
      if prefixLen != 0 {
        Memmove(cyclicBuffer, 0, prefixLen, cyclicBufferLen - prefixLen);
        cyclicBufferLen := cyclicBufferLen - prefixLen;
        if |buffer| != appendSuffixLen {
          var extraSuffixLen := Min(prefixLen, |buffer| - appendSuffixLen);
          Memcpy(cyclicBuffer, cyclicBufferLen, buffer[appendSuffixLen..appendSuffixLen + extraSuffixLen]);
          cyclicBufferLen := cyclicBufferLen + extraSuffixLen;
        }
      }
      assert forall i :: 0 <= i < cyclicBufferLen ==> cyclicBuffer[i] == all[prefixLen + i];
    }

    /** The token was found in the joined buffer: parse, or wait for the rest of the value. */
    method TokenInCyclicBuffer(ghost before: seq<char>, ghost kept: seq<char>, buffer: seq<char>,
                               appendSuffixLen: nat, prefixLen: nat)
      requires Valid() && !isValueParsed
      requires Window(before, kept, token, numNixies) && received == before + buffer
      requires appendSuffixLen == Min(|buffer|, maxCyclicBufferLen - |kept|)
      requires cyclicBufferLen == |kept| + appendSuffixLen <= maxCyclicBufferLen
      requires Holds((kept + buffer)[..cyclicBufferLen])
      requires prefixLen + |token| <= cyclicBufferLen && IsFirst(kept + buffer, token, prefixLen)
      modifies this`isValueParsed, this`cyclicBufferLen, cyclicBuffer, displayValue
      ensures Extracting()
      ensures !isValueParsed ==> displayValue[..] == old(displayValue[..])
    {
      ghost var all := kept + buffer;
      MoveTokenToFront(all, buffer, appendSuffixLen, prefixLen);
      if cyclicBufferLen < |token| + numNixies {
        assert all[prefixLen..prefixLen + cyclicBufferLen] == all[prefixLen..];
        assert cyclicBuffer[..cyclicBufferLen] == all[prefixLen..];
        ValueToCome(before, kept, buffer, token, numNixies, prefixLen, cyclicBuffer[..cyclicBufferLen]);
        return;
      }
      ghost var value := cyclicBuffer[|token|..cyclicBufferLen];
      ghost var moved := all[prefixLen..prefixLen + cyclicBufferLen];
      assert cyclicBuffer[..cyclicBufferLen] == moved;
      assert value == moved[|token|..] == all[prefixLen + |token|..][..|value|];
      ValueAtHand(before, kept, buffer, token, numNixies, prefixLen, value);
      ParseAndSettle(cyclicBuffer[|token|..cyclicBufferLen]);
    }

    method ParseAndSettle(buffer: seq<char>)
      requires Valid() && cyclicBufferLen <= maxCyclicBufferLen
      requires Settled(received, token, numNixies, DigitPrefix(buffer, numNixies))
      modifies this`isValueParsed, displayValue
      ensures Extracting() && isValueParsed
    {
      ParseValueFromBuffer(buffer);
      assert ShowsSettled(received, DigitPrefix(buffer, numNixies));
    }

    /** The last bytes of the buffer go to its front, and new ones behind them. */
    method ShiftIn(ghost kept: seq<char>, numOldBytes: nat, newBytes: seq<char>)
      requires Valid()
      requires Holds(kept) && numOldBytes <= |kept| && numOldBytes + |newBytes| <= maxCyclicBufferLen
      modifies this`cyclicBufferLen, cyclicBuffer
      ensures Holds(kept[|kept| - numOldBytes..] + newBytes)
    {
      if numOldBytes != 0 {
        Memmove(cyclicBuffer, 0, cyclicBufferLen - numOldBytes, numOldBytes);
      }
      Memcpy(cyclicBuffer, numOldBytes, newBytes);
      cyclicBufferLen := |newBytes| + numOldBytes;
    }

    /** Keep only the last bytes of what the buffer and the chunk hold together. */
    method KeepTail(ghost kept: seq<char>, buffer: seq<char>)
      requires Valid()
      requires |kept| <= maxCyclicBufferLen && Holds(kept)
      modifies this`cyclicBufferLen, cyclicBuffer
      ensures cyclicBufferLen == Min(|kept + buffer|, |token| + numNixies)
      ensures cyclicBuffer[..cyclicBufferLen] == (kept + buffer)[|kept + buffer| - cyclicBufferLen..]
    {
      var maxStoreBytes := |token| + numNixies;
      var numNewBytes := Min(|buffer|, maxStoreBytes);
      var numOldBytes := Min(cyclicBufferLen, maxStoreBytes - numNewBytes);
      LastBytes(kept, buffer, numOldBytes, numNewBytes);
      ShiftIn(kept, numOldBytes, buffer[|buffer| - numNewBytes..]);
    }

    /** The token is not there yet. */
    method TokenNowhere(ghost before: seq<char>, ghost kept: seq<char>, buffer: seq<char>)
      requires Valid() && !isValueParsed && cyclicBufferLen == |kept| <= maxCyclicBufferLen && Holds(kept)
      requires Window(before, kept, token, numNixies) && received == before + buffer
      requires !Occurs(kept + buffer, token)
      modifies this`cyclicBufferLen, cyclicBuffer
      ensures Extracting()
    {
      KeepTail(kept, buffer);
      FoundNowhere(before, kept, buffer, token, numNixies, cyclicBuffer[..cyclicBufferLen]);
    }

    /** The token lies inside the new chunk: parse it there, or keep the chunk from the token on. */
    method TokenInChunk(ghost before: seq<char>, ghost kept: seq<char>, buffer: seq<char>, prefixLen: nat)
      requires Valid() && !isValueParsed && cyclicBufferLen <= maxCyclicBufferLen
      requires Window(before, kept, token, numNixies) && received == before + buffer
      requires prefixLen + |token| <= |buffer| && IsFirst(kept + buffer, token, |kept| + prefixLen)
      modifies this`isValueParsed, this`cyclicBufferLen, cyclicBuffer, displayValue
      ensures Extracting()
      ensures !isValueParsed ==> displayValue[..] == old(displayValue[..])
    {
      ghost var all := kept + buffer;
      if |buffer| - prefixLen >= |token| + numNixies {
        assert all[|kept| + prefixLen + |token|..] == buffer[prefixLen + |token|..];
        ValueAtHand(before, kept, buffer, token, numNixies, |kept| + prefixLen, buffer[prefixLen + |token|..]);
        ParseAndSettle(buffer[prefixLen + |token|..]);
      } else {
        KeepFrom(buffer, prefixLen);
        assert buffer[prefixLen..] == all[|kept| + prefixLen..];
        ValueToCome(before, kept, buffer, token, numNixies, |kept| + prefixLen, buffer[prefixLen..]);
      }
    }

    /** Keep the chunk from the token on. */
    method KeepFrom(buffer: seq<char>, prefixLen: nat)
      requires Valid() && prefixLen <= |buffer| && |buffer| - prefixLen <= maxCyclicBufferLen
      modifies this`cyclicBufferLen, cyclicBuffer
      ensures cyclicBufferLen == |buffer| - prefixLen && cyclicBuffer[..cyclicBufferLen] == buffer[prefixLen..]
    {
      Memcpy(cyclicBuffer, 0, buffer[prefixLen..]);
      cyclicBufferLen := |buffer| - prefixLen;
    }

    /** The whole response has been received. */
    method RequestHandledCallback()
      requires Valid() && Extracting()
      modifies this`isValueParsed, this`state, displayValue
      ensures isValueParsed <==> Occurs(received, token)
      ensures isValueParsed ==> exists digits ::
                IsValueOf(received, token, numNixies, digits) && displayValue[..] == Parsed(digits, numNixies)
      ensures state == if isValueParsed then ShuffleServerValue else Idle
    {
      if !isValueParsed {
        ghost var kept := cyclicBuffer[..cyclicBufferLen];
        EndOfResponse(received, kept, token, numNixies);
        var found := Memmem(cyclicBuffer[..cyclicBufferLen], token);
        if found.Some? {
          ghost var value := kept[|token|..];
          assert cyclicBuffer[|token|..cyclicBufferLen] == value;
          ParseValueFromBuffer(cyclicBuffer[|token|..cyclicBufferLen]);
          assert IsValueOf(received, token, numNixies, DigitPrefix(value, numNixies));
        }
      } else {
        ghost var digits :| ShowsSettled(received, digits);
        SettledIsValue(received, token, numNixies, digits);
      }
      if isValueParsed {
        state := ShuffleServerValue;
      } else {
        state := Idle;
      }
    }

    method ErrorCallback()
      modifies `state
      ensures state == Error
    {
      state := Error;
    }

    /** Forgets the previous response. */
    method StartOver()
      requires Valid()
      modifies this`isValueParsed, this`cyclicBufferLen, this`received
      ensures received == [] && Extracting()
    {
      isValueParsed := false;
      cyclicBufferLen := 0;
      received := [];
      assert |token| == 0 ==> OccursAt(received, token, 0);
      assert cyclicBuffer[..cyclicBufferLen] == [];
    }

    /** Wait for the client, then submit. */
    method WaitHttpsClientAndSendRequest(busy: bool, accepted: bool)
      requires Valid()
      modifies this`state, this`isValueParsed, this`cyclicBufferLen, this`received
      ensures busy ==> unchanged(this)
      ensures !busy ==> received == [] && Extracting() && state == if accepted then WaitHttpsResponse else Error
    {
      if busy {
        return;
      }
      StartOver();
      if !accepted {
        state := Error;
        return;
      }
      state := WaitHttpsResponse;
    }

    method SchedulePeriodicTask(interval: nat, env: Environment)
      modifies this`periodicNextTime
      ensures periodicNextTime == env.now + env.frequency * interval
    {
      periodicNextTime := env.now + env.frequency * interval;
    }

    /** Starts a request when it is time for one and the network is there. */
    method PerformPeriodicTasks(env: Environment)
      requires state == Idle
      modifies this`state, this`periodicNextTime, this`taskFromPeriodic
      ensures state == if periodicTasksEnabled && old(periodicNextTime) <= env.now && env.usable
                       then BeginHttpRequest else Idle
      ensures state == Idle ==>
                periodicNextTime == old(periodicNextTime) && taskFromPeriodic == old(taskFromPeriodic)
      ensures state == BeginHttpRequest ==>
                taskFromPeriodic && periodicNextTime == env.now + env.frequency * PERIODIC_INTERVAL_NORMAL
    {
      if !periodicTasksEnabled || env.now < periodicNextTime || !env.usable {
        return;
      }
      state := BeginHttpRequest;
      taskFromPeriodic := true;
      SchedulePeriodicTask(PERIODIC_INTERVAL_NORMAL, env);
    }

    /** Leaving the error state; a failed periodic request is tried again soon. */
    method Recover(env: Environment)
      modifies this`state, this`periodicNextTime
      ensures state == Idle
      ensures periodicNextTime ==
                if taskFromPeriodic then env.now + env.frequency * PERIODIC_INTERVAL_FAST else old(periodicNextTime)
    {
      state := Idle;
      if taskFromPeriodic {
        SchedulePeriodicTask(PERIODIC_INTERVAL_FAST, env);
      }
    }

    /** The caller asks for the next value to be put into `value`. */
    method Fetch(isFetched: Flag, value: array<char>) returns (ok: bool)
      requires value.Length == displayValue.Length && Foreign(value)
      requires FetchTarget()
      modifies this`state, this`displayValueOut, this`isFetchedOut, isFetched
      ensures !isFetched.value && FetchTarget() && (ok <==> old(state) == Idle)
      ensures ok ==> state == BeginHttpRequest && displayValueOut == value && isFetchedOut == isFetched
      ensures !ok ==>
                state == old(state) && displayValueOut == old(displayValueOut) && isFetchedOut == old(isFetchedOut)
    {
      isFetched.value := false;
      if state != Idle {
        return false;
      }
      state := BeginHttpRequest;
      isFetchedOut := isFetched;
      displayValueOut := value;
      return true;
    }

    method ShuffleServerValueDigits()
      requires Valid() && FetchTarget()
      modifies this`state, this`displayValueOut, this`isFetchedOut, displayValue, displayValueOut, isFetchedOut
      ensures displayValue[..] == Shuffled(old(displayValue[..]))
      ensures displayValueOut == null && isFetchedOut == null
      ensures old(displayValueOut) == null ==> state == BeginDisplaySequence
      ensures old(displayValueOut) != null ==>
                state == Idle && old(isFetchedOut).value && old(displayValueOut)[..] == displayValue[..]
    {
      ghost var cells := displayValue[..];
      var numLeadingNull := 0;
      var a := 0;
      while a < numNixies
        invariant numLeadingNull == a <= numNixies
        invariant forall k :: 0 <= k < a ==> displayValue[k] == NUL
      {
        if displayValue[a] != NUL {
          break;
        }
        numLeadingNull := numLeadingNull + 1;
        a := a + 1;
      }
      assert numLeadingNull == LowBlanks(cells);
      if numLeadingNull != 0 {
        Memmove(displayValue, 0, numLeadingNull, numNixies - numLeadingNull);
        a := 0;
        while a < numLeadingNull
          invariant 0 <= a <= numLeadingNull
          invariant forall k :: 0 <= k < numNixies - numLeadingNull ==> displayValue[k] == cells[k + numLeadingNull]
          invariant forall k :: numNixies - a <= k < numNixies ==> displayValue[k] == '0'
          modifies displayValue
        {
          displayValue[numNixies - a - 1] := '0';
          a := a + 1;
        }
      }
      assert displayValue[..] == Shuffled(cells);
      if displayValueOut != null {
        state := Idle;
        Memcpy(displayValueOut, 0, displayValue[..]);
        isFetchedOut.value := true;
        assert displayValueOut[..] == displayValue[..];
        displayValueOut := null;
        isFetchedOut := null;
      } else {
        state := BeginDisplaySequence;
      }
    }

    ghost predicate CathodesMatch(cells: seq<char>, m: nat)
      requires Valid() && Wired() && m <= numNixies == |cells|
      reads this, cathodes
    {
      forall i :: 0 <= i < m ==>
        cathodes[i] == SymbolToCathode(wiring.types[numNixies - 1 - i], cells[numNixies - 1 - i])
    }

    method DecodeDisplay()
      requires Valid() && Wired()
      modifies this`state, cathodes
      ensures CathodesMatch(displayValue[..], numNixies) && state == EncodeShiftRegister
    {
      var i := 0;
      while i < numNixies
        invariant 0 <= i <= numNixies
        invariant CathodesMatch(displayValue[..], i)
      {
        var nixieIndex := numNixies - i - 1;
        cathodes[i] := SymbolToCathode(wiring.types[nixieIndex], displayValue[nixieIndex]);
        i := i + 1;
      }
      state := EncodeShiftRegister;
    }

    method EncodeRegisters()
      requires Valid() && Wired()
      requires CathodesInRange()
      modifies this`state, registerShiftState
      ensures Encodes(wiring, cathodes[..], registerShiftState[..]) && state == WriteShiftRegister
    {
      var j := 0;
      while j < registerShiftState.Length
        invariant 0 <= j <= registerShiftState.Length
        invariant forall k :: 0 <= k < j ==> registerShiftState[k] == 0
        modifies registerShiftState
      {
        registerShiftState[j] := 0;
        j := j + 1;
      }
      ghost var chosen := cathodes[..];
      var i := 0;
      NothingLit(wiring, chosen, registerShiftState[..]);
      while i < numNixies
        invariant 0 <= i <= numNixies
        invariant EncodesBelow(wiring, chosen, i, registerShiftState[..])
        modifies registerShiftState
      {
        var cathode := cathodes[i];
        ghost var before := registerShiftState[..];
        if cathode != -1 {
          var b := wiring.mapping[i][cathode].byte;
          var bit := wiring.mapping[i][cathode].bit;
          var numByte := wiring.registers - b - 1;
          registerShiftState[numByte] := registerShiftState[numByte] | Mask(bit);
        }
        LightOne(wiring, chosen, i, before, registerShiftState[..]);
        i := i + 1;
      }
      state := WriteShiftRegister;
    }

    method WriteRegisters()
      requires Valid() && Wired() && shiftRegister.Valid()
      modifies this`state, shiftRegister, shiftRegister.data
      ensures old(shiftRegister.state) != SR.Idle ==>
                state == old(state) && unchanged(shiftRegister, shiftRegister.data)
      ensures old(shiftRegister.state) == SR.Idle ==>
                state == Idle && shiftRegister.Valid()
                && shiftRegister.Snapshot() == old(shiftRegister.Snapshot()).(state := SR.TransmitBegin,
                     data := registerShiftState[..], numBytes := wiring.registers)
    {
      if shiftRegister.state != SR.Idle {
        return;
      }
      assert registerShiftState[..] == registerShiftState[..SR.MAX_DATA];
      shiftRegister.SendData(registerShiftState[..], wiring.registers);
      state := Idle;
    }

    /** One call of the task function. */
    method Tasks(env: Environment)
      requires Valid() && Wired() && FetchTarget() && shiftRegister.Valid()
      requires state == EncodeShiftRegister ==> CathodesInRange()
      modifies this, displayValue, displayValueOut, isFetchedOut, cathodes, registerShiftState
      modifies shiftRegister, shiftRegister.data
      // Idle: a request may be due.
      ensures old(state) == Idle ==>
                && state == (if periodicTasksEnabled && old(periodicNextTime) <= env.now && env.usable
                             then BeginHttpRequest else Idle)
                && (taskFromPeriodic <==> state == BeginHttpRequest)
                && periodicNextTime == if state == Idle then old(periodicNextTime)
                                       else env.now + env.frequency * PERIODIC_INTERVAL_NORMAL
      // After an error: idle again, and a failed periodic request is tried again soon.
      ensures old(state) == Error ==>
                && state == Idle && taskFromPeriodic == old(taskFromPeriodic)
                && periodicNextTime == if taskFromPeriodic then env.now + env.frequency * PERIODIC_INTERVAL_FAST
                                       else old(periodicNextTime)
      ensures old(state) !in {Idle, Error} ==>
                taskFromPeriodic == old(taskFromPeriodic) && periodicNextTime == old(periodicNextTime)
      // The request.
      ensures old(state) == BeginHttpRequest ==> state == WaitHttpsClient
      ensures old(state) == WaitHttpsClient ==>
                state == (if env.busy then WaitHttpsClient else if env.accepted then WaitHttpsResponse else Error)
                && (!env.busy ==> received == [] && Extracting())
      ensures old(state) == WaitHttpsResponse ==> state == WaitHttpsResponse
      ensures old(state) != WaitHttpsClient || env.busy ==>
                received == old(received) && isValueParsed == old(isValueParsed)
                && cyclicBufferLen == old(cyclicBufferLen)
      // The value: to the tubes, or to whoever asked for it.
      ensures old(state) == ShuffleServerValue ==>
                && displayValue[..] == Shuffled(old(displayValue[..]))
                && displayValueOut == null && isFetchedOut == null
                && (old(displayValueOut) == null ==> state == BeginDisplaySequence)
                && (old(displayValueOut) != null ==>
                      state == Idle && old(isFetchedOut).value && old(displayValueOut)[..] == displayValue[..])
      ensures old(state) != ShuffleServerValue ==>
                && unchanged(displayValue)
                && displayValueOut == old(displayValueOut) && isFetchedOut == old(isFetchedOut)
      // The tubes.
      ensures old(state) == BeginDisplaySequence ==> state == DecodeDisplayValue
      ensures old(state) == DecodeDisplayValue ==>
                state == EncodeShiftRegister && CathodesMatch(displayValue[..], numNixies)
      ensures old(state) != DecodeDisplayValue ==> unchanged(cathodes)
      ensures old(state) == EncodeShiftRegister ==>
                state == WriteShiftRegister && CathodesInRange()
                && Encodes(wiring, cathodes[..], registerShiftState[..])
      ensures old(state) != EncodeShiftRegister ==> unchanged(registerShiftState)
      ensures old(state) == WriteShiftRegister && old(shiftRegister.state) != SR.Idle ==> state == WriteShiftRegister
      ensures old(state) == WriteShiftRegister && old(shiftRegister.state) == SR.Idle ==>
                state == Idle && shiftRegister.Valid()
                && shiftRegister.Snapshot() == old(shiftRegister.Snapshot()).(state := SR.TransmitBegin,
                     data := registerShiftState[..], numBytes := wiring.registers)
      ensures old(state) != WriteShiftRegister || old(shiftRegister.state) != SR.Idle ==>
                unchanged(shiftRegister, shiftRegister.data)
      ensures FetchTarget() && periodicTasksEnabled == old(periodicTasksEnabled)
    {
      match state
      case Idle =>
        taskFromPeriodic := false;
        PerformPeriodicTasks(env);
      case Error => Recover(env);
      case BeginHttpRequest => state := WaitHttpsClient;
      case WaitHttpsClient => WaitHttpsClientAndSendRequest(env.busy, env.accepted);
      case WaitHttpsResponse =>
      case ShuffleServerValue => ShuffleServerValueDigits();
      case BeginDisplaySequence => state := DecodeDisplayValue;
      case DecodeDisplayValue => DecodeDisplay();
      case EncodeShiftRegister => EncodeRegisters();
      case WriteShiftRegister => WriteRegisters();
    }

    ghost predicate CathodesInRange()
      requires Valid() && Wired()
      reads this, cathodes
    {
      forall i :: 0 <= i < numNixies ==> -1 <= cathodes[i] < MAX_NIXIE_CATHODE
    }

    /** The chunks of a response, one callback after the other. */
    method ReceiveChunks(chunks: seq<seq<char>>)
      requires Valid() && Extracting() && received == []
      modifies this`received, this`isValueParsed, this`cyclicBufferLen, cyclicBuffer, displayValue
      ensures Extracting() && received == Concat(chunks)
      ensures !isValueParsed ==> displayValue[..] == old(displayValue[..])
    {
      var i := 0;
      while i < |chunks|
        invariant 0 <= i <= |chunks|
        invariant Extracting() && received == Concat(chunks[..i])
        invariant !isValueParsed ==> displayValue[..] == old(displayValue[..])
      {
        BufferReceivedCallback(chunks[i]);
        i := i + 1;
        assert chunks[..i][..i - 1] == chunks[..i - 1];
      }
      assert chunks[..i] == chunks;
    }

    /** A whole response, cut into chunks in any way. */
    method ReceiveResponse(chunks: seq<seq<char>>)
      requires Valid() && Extracting() && received == []
      modifies this`received, this`isValueParsed, this`cyclicBufferLen, this`state, cyclicBuffer, displayValue
      ensures isValueParsed <==> Occurs(Concat(chunks), token)
      ensures isValueParsed ==> exists digits ::
                IsValueOf(Concat(chunks), token, numNixies, digits) && displayValue[..] == Parsed(digits, numNixies)
      ensures state == if isValueParsed then ShuffleServerValue else Idle
    {
      ReceiveChunks(chunks);
      RequestHandledCallback();
    }

    /** A response that breaks off after some chunks: one task later the application is idle again. The tubes, the
        registers behind them and whoever waits for a value are left alone, whatever the chunks held. */
    method FailedResponse(chunks: seq<seq<char>>, env: Environment)
      requires Valid() && Extracting() && received == [] && Wired() && FetchTarget() && shiftRegister.Valid()
      modifies this, cyclicBuffer, displayValue, displayValueOut, isFetchedOut, cathodes, registerShiftState,
        shiftRegister, shiftRegister.data
      ensures state == Idle && FetchTarget()
      ensures shiftRegister.Snapshot() == old(shiftRegister.Snapshot())
      ensures cathodes[..] == old(cathodes[..]) && registerShiftState[..] == old(registerShiftState[..])
      ensures displayValueOut == old(displayValueOut) && isFetchedOut == old(isFetchedOut)
      ensures periodicTasksEnabled == old(periodicTasksEnabled)
      ensures !Occurs(Concat(chunks), token) ==> displayValue[..] == old(displayValue[..])
      ensures periodicNextTime == if taskFromPeriodic then env.now + env.frequency * PERIODIC_INTERVAL_FAST
                                  else old(periodicNextTime)
    {
      ReceiveChunks(chunks);
      NothingParsed();
      BreakOff(env);
    }

    /** The callback for a failed request, and the poll that ends it. */
    method BreakOff(env: Environment)
      requires Valid() && Wired() && FetchTarget() && shiftRegister.Valid()
      modifies this, displayValue, displayValueOut, isFetchedOut, cathodes, registerShiftState,
        shiftRegister, shiftRegister.data
      ensures state == Idle && FetchTarget()
      ensures shiftRegister.Snapshot() == old(shiftRegister.Snapshot())
      ensures unchanged(cathodes) && unchanged(registerShiftState) && unchanged(displayValue)
      ensures displayValueOut == old(displayValueOut) && isFetchedOut == old(isFetchedOut)
      ensures periodicTasksEnabled == old(periodicTasksEnabled)
      ensures received == old(received) && isValueParsed == old(isValueParsed)
      ensures periodicNextTime == if taskFromPeriodic then env.now + env.frequency * PERIODIC_INTERVAL_FAST
                                  else old(periodicNextTime)
    {
      ErrorCallback();
      Tasks(env);
    }

    /** Without the token in what was received, no value has been parsed. */
    lemma NothingParsed()
      requires Valid() && Extracting()
      ensures isValueParsed ==> Occurs(received, token)
    {
      if isValueParsed {
        var digits :| ShowsSettled(received, digits);
        SettledIsValue(received, token, numNixies, digits);
      }
    }

    /** The display sequence up to the transmitter, which may still be busy with a transmission from before. */
    method EncodeCells(ghost cells: seq<char>, env: Environment)
      requires Valid() && Wired() && FetchTarget() && shiftRegister.Valid()
      requires state == BeginDisplaySequence && displayValue[..] == cells && AllDigits(cells)
      modifies this, displayValue, displayValueOut, isFetchedOut, cathodes, registerShiftState, shiftRegister,
        shiftRegister.data
      ensures state == WriteShiftRegister && FetchTarget() && displayValue[..] == cells
      ensures displayValueOut == old(displayValueOut) && isFetchedOut == old(isFetchedOut)
      ensures CathodesMatch(cells, numNixies) && CathodesInRange()
      ensures Encodes(wiring, cathodes[..], registerShiftState[..])
      ensures shiftRegister.Snapshot() == old(shiftRegister.Snapshot())
    {
      Tasks(env);
      Tasks(env);
      DigitCathodesInRange(cells);
      Tasks(env);
    }

    /** One round of the main loop while the transmitter is busy: only the transmitter moves. */
    method WaitRound(env: Environment)
      requires Valid() && Wired() && FetchTarget() && shiftRegister.Valid()
      requires state == WriteShiftRegister && shiftRegister.state != SR.Idle
      modifies this, displayValue, displayValueOut, isFetchedOut, cathodes, registerShiftState, shiftRegister,
        shiftRegister.data
      ensures state == WriteShiftRegister && FetchTarget() && shiftRegister.Valid()
      ensures SR.PollsLeft(shiftRegister.Snapshot()) == SR.PollsLeft(old(shiftRegister.Snapshot())) - 1
      ensures displayValue[..] == old(displayValue[..])
      ensures cathodes[..] == old(cathodes[..]) && registerShiftState[..] == old(registerShiftState[..])
      ensures displayValueOut == old(displayValueOut) && isFetchedOut == old(isFetchedOut)
    {
      Tasks(env);
      SR.OnePollLess(shiftRegister.Snapshot());
      shiftRegister.Tasks();
    }

    /** The main loop calls both task functions in turn until the transmitter has taken the registers over. */
    method WaitAndWrite(env: Environment)
      requires Valid() && Wired() && FetchTarget() && shiftRegister.Valid() && state == WriteShiftRegister
      modifies this, displayValue, displayValueOut, isFetchedOut, cathodes, registerShiftState, shiftRegister,
        shiftRegister.data
      ensures state == Idle && FetchTarget() && displayValue[..] == old(displayValue[..])
      ensures cathodes[..] == old(cathodes[..]) && registerShiftState[..] == old(registerShiftState[..])
      ensures shiftRegister.Valid() && shiftRegister.state == SR.TransmitBegin
      ensures shiftRegister.data[..] == registerShiftState[..] && shiftRegister.numBytes == wiring.registers
    {
      while shiftRegister.state != SR.Idle
        invariant state == WriteShiftRegister && FetchTarget() && shiftRegister.Valid()
        invariant displayValue[..] == old(displayValue[..])
        invariant cathodes[..] == old(cathodes[..]) && registerShiftState[..] == old(registerShiftState[..])
        invariant displayValueOut == old(displayValueOut) && isFetchedOut == old(isFetchedOut)
        decreases SR.PollsLeft(shiftRegister.Snapshot())
      {
        WaitRound(env);
      }
      Tasks(env);
    }

    /** From a received value to the tubes: every state of the display sequence, then the transmission. */
    method DisplaySequence(ghost digits: seq<char>, env: Environment)
      requires Valid() && Wired() && FetchTarget() && displayValueOut == null
      requires wiring.Injective() && shiftRegister.Valid()
      requires state == ShuffleServerValue
      requires AllDigits(digits) && |digits| <= numNixies && displayValue[..] == Parsed(digits, numNixies)
      modifies this, displayValue, isFetchedOut, cathodes, registerShiftState, shiftRegister, shiftRegister.data
      ensures state == Idle && shiftRegister.state == SR.Idle
      ensures displayValue[..] == Aligned(digits, numNixies)
      ensures DisplayShows(wiring, shiftRegister.edges, ShownSymbols(Aligned(digits, numNixies)))
    {
      ShuffledParsed(digits, numNixies);
      ghost var cells := Aligned(digits, numNixies);
      Tasks(env);
      EncodeCells(cells, env);
      ghost var chosen, data := cathodes[..], registerShiftState[..];
      WaitAndWrite(env);
      ghost var edges := shiftRegister.edges;
      ghost var calls := shiftRegister.PollUntilIdle();
      TransmissionShowsCells(wiring, cells, chosen, data, edges);
    }

    /** From the response to the tubes: whatever the response and however it is cut into chunks, the tubes show the
        digits behind the first token behind leading zeros, and nothing changes on them if there is no token. */
    method FetchAndDisplay(chunks: seq<seq<char>>, env: Environment)
      requires Valid() && Extracting() && received == [] && Wired() && FetchTarget() && displayValueOut == null
      requires wiring.Injective() && shiftRegister.Valid()
      modifies this, cyclicBuffer, displayValue, isFetchedOut, cathodes, registerShiftState, shiftRegister,
        shiftRegister.data
      ensures state == Idle
      ensures !Occurs(Concat(chunks), token) ==> shiftRegister.edges == old(shiftRegister.edges)
      ensures Occurs(Concat(chunks), token) ==> shiftRegister.state == SR.Idle && exists digits ::
                IsValueOf(Concat(chunks), token, numNixies, digits) &&
                DisplayShows(wiring, shiftRegister.edges, ShownSymbols(Aligned(digits, numNixies)))
    {
      ReceiveResponse(chunks);
      if isValueParsed {
        ghost var digits :|
          IsValueOf(Concat(chunks), token, numNixies, digits) && displayValue[..] == Parsed(digits, numNixies);
        DisplaySequence(digits, env);
      }
    }

    /** The tracker's own four tubes: of the bits registered for the digits of a tube exactly the fetched one is on. */
    method FetchOnTracker(chunks: seq<seq<char>>, env: Environment)
      requires Valid() && Extracting() && received == [] && Wired() && FetchTarget() && displayValueOut == null
      requires wiring == TRACKER_WIRING && shiftRegister.Valid()
      modifies this, cyclicBuffer, displayValue, isFetchedOut, cathodes, registerShiftState, shiftRegister,
        shiftRegister.data
      ensures state == Idle
      ensures !Occurs(Concat(chunks), token) ==> shiftRegister.edges == old(shiftRegister.edges)
      ensures Occurs(Concat(chunks), token) ==> exists digits ::
                && IsValueOf(Concat(chunks), token, 4, digits) && |digits| <= 4
                && TrackerShows(shiftRegister.edges, seq(4 - |digits|, _ => '0') + digits)
    {
      TrackerWiringIsInjective();
      FetchAndDisplay(chunks, env);
      if Occurs(Concat(chunks), token) {
        ghost var digits :| IsValueOf(Concat(chunks), token, numNixies, digits)
          && DisplayShows(wiring, shiftRegister.edges, ShownSymbols(Aligned(digits, numNixies)));
        TubesReadDigits(digits, 4);
        TrackerReads(shiftRegister.edges, ShownSymbols(Aligned(digits, 4)));
      }
    }

    /** The same for a value somebody has asked for, now or before a request that failed: it goes to them and not to
        the tubes. Without a token they wait on. */
    method FetchForCaller(chunks: seq<seq<char>>, env: Environment)
      requires Valid() && Extracting() && received == [] && Wired() && FetchTarget() && displayValueOut != null
      requires shiftRegister.Valid()
      modifies this, cyclicBuffer, displayValue, displayValueOut, isFetchedOut, cathodes, registerShiftState,
        shiftRegister, shiftRegister.data
      ensures state == Idle && shiftRegister.Snapshot() == old(shiftRegister.Snapshot())
      ensures !Occurs(Concat(chunks), token) ==>
                displayValueOut == old(displayValueOut) && isFetchedOut == old(isFetchedOut)
                && displayValueOut[..] == old(displayValueOut[..]) && isFetchedOut.value == old(isFetchedOut.value)
      ensures Occurs(Concat(chunks), token) ==>
                && displayValueOut == null && isFetchedOut == null && old(isFetchedOut).value
                && exists digits ::
                     IsValueOf(Concat(chunks), token, numNixies, digits)
                     && old(displayValueOut)[..] == Aligned(digits, numNixies)
    {
      ReceiveResponse(chunks);
      if isValueParsed {
        ghost var digits :|
          IsValueOf(Concat(chunks), token, numNixies, digits) && displayValue[..] == Parsed(digits, numNixies);
        ShuffledParsed(digits, numNixies);
        Tasks(env);
      }
    }

    /** From idle to a submitted request, when one is due and the client takes it at once. */
    method BeginPeriodicRequest(env: Environment)
      requires Valid() && Wired() && FetchTarget() && shiftRegister.Valid() && state == Idle
      requires periodicTasksEnabled && periodicNextTime <= env.now && env.usable && !env.busy && env.accepted
      modifies this, displayValue, displayValueOut, isFetchedOut, cathodes, registerShiftState, shiftRegister,
        shiftRegister.data
      ensures state == WaitHttpsResponse && received == [] && Extracting() && FetchTarget()
      ensures displayValueOut == old(displayValueOut) && isFetchedOut == old(isFetchedOut)
      ensures shiftRegister.Snapshot() == old(shiftRegister.Snapshot())
    {
      Tasks(env);
      Tasks(env);
      Tasks(env);
    }

    /** After a fetch that failed, the next periodic request is answered to the one who asked for that fetch:
        the tubes stay as they are although the token is there. */
    method PeriodicAfterFailedFetch(failed: seq<seq<char>>, chunks: seq<seq<char>>, env: Environment,
                                    later: Environment)
      requires Valid() && Extracting() && received == [] && Wired() && FetchTarget() && displayValueOut != null
      requires shiftRegister.Valid() && periodicTasksEnabled
      requires periodicNextTime <= later.now && env.now + env.frequency * PERIODIC_INTERVAL_FAST <= later.now
      requires later.usable && !later.busy && later.accepted
      modifies this, cyclicBuffer, displayValue, displayValueOut, isFetchedOut, cathodes, registerShiftState,
        shiftRegister, shiftRegister.data
      ensures state == Idle && shiftRegister.Snapshot() == old(shiftRegister.Snapshot())
      ensures Occurs(Concat(chunks), token) ==> exists digits ::
                IsValueOf(Concat(chunks), token, numNixies, digits)
                && old(displayValueOut)[..] == Aligned(digits, numNixies)
    {
      FailedResponse(failed, env);
      BeginPeriodicRequest(later);
      FetchForCaller(chunks, later);
    }

    lemma DigitCathodesInRange(cells: seq<char>)
      requires Valid() && Wired() && |cells| == numNixies && AllDigits(cells)
      requires CathodesMatch(cells, numNixies)
      ensures CathodesInRange()
    {
      forall i | 0 <= i < numNixies
        ensures -1 <= cathodes[i] < MAX_NIXIE_CATHODE
      {
        var c, t := cells[numNixies - 1 - i], wiring.types[numNixies - 1 - i];
        CathodesOfDigits(t, c, 2);
      }
    }
  }

  /** The tubes read, in the order they are registered, the fetched digits behind leading zeros. */
  lemma TubesReadDigits(digits: seq<char>, n: nat)
    requires |digits| <= n
    ensures ShownSymbols(Aligned(digits, n)) == seq(n - |digits|, _ => '0') + digits
  {
  }

  /** The number on the tubes is the number that was fetched. */
  lemma TubesReadTheNumeral(digits: seq<char>, n: nat)
    requires AllDigits(digits) && |digits| <= n
    ensures AllDigits(ShownSymbols(Aligned(digits, n)))
    ensures Value(ShownSymbols(Aligned(digits, n)), 10) == Value(digits, 10)
  {
    var cells := Aligned(digits, n);
    AlignedKeepsValue(digits, n);
    var text := ShownSymbols(cells);
    ReadingCells(cells, text);
  }
}
