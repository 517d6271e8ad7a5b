/** The daisy-chained 74xx registers: what a sequence of clock edges leaves on their outputs. */
module RegisterChain {
  import opened Bits
  import opened ShiftRegister

  /** Shift stages after the edges; stage 0 is next to the serial input. */
  function Stages(stages: seq<bool>, edges: seq<Edge>): (s: seq<bool>)
    ensures |s| == |stages|
  {
    if edges == [] then stages else
      var before := Stages(stages, edges[..|edges| - 1]);
      match edges[|edges| - 1]
      case Shift(level, _) => if before == [] then [] else [level] + before[..|before| - 1]
      case Latch(_) => before
  }

  /** Output latches after the edges: a latch edge copies the stages. */
  function Outputs(stages: seq<bool>, outputs: seq<bool>, edges: seq<Edge>): seq<bool>
  {
    if edges == [] then outputs
    else if edges[|edges| - 1].Latch? then Stages(stages, edges[..|edges| - 1])
    else Outputs(stages, outputs, edges[..|edges| - 1])
  }

  /** Consecutive shift edges push their levels in, the last one nearest to the input. */
  lemma {:induction false} StagesAfterShifts(stages: seq<bool>, e: seq<Edge>)
    requires forall i :: 0 <= i < |e| ==> e[i].Shift?
    requires |e| <= |stages|
    ensures forall i :: 0 <= i < |stages| ==>
              Stages(stages, e)[i] == if i < |e| then e[|e| - 1 - i].level else stages[i - |e|]
  {
    if e != [] {
      StagesAfterShifts(stages, e[..|e| - 1]);
    }
  }

  /** Edge 8q + c of a transmission carries bit 7 - c of byte q. */
  lemma {:induction false} ShiftLevel(data: seq<byte>, n: nat, q: nat, c: nat)
    requires q < n <= |data| && c < 8
    ensures Shifts(data, n)[8 * q + c] == Shift(TestBit(data[q], 7 - c), true)
  {
    if q < n - 1 {
      ShiftLevel(data, n - 1, q, c);
    } else {
      assert Shifts(data, n)[8 * q + c] == ByteShifts(data[q])[c];
    }
  }

  lemma {:induction false} AllShifts(data: seq<byte>, n: nat)
    requires n <= |data|
    ensures forall i :: 0 <= i < 8 * n ==> Shifts(data, n)[i].Shift?
  {
    if n > 0 {
      AllShifts(data, n - 1);
    }
  }

  /** Output k of register b of the chain, register 0 being next to the serial input. */
  predicate OutputPin(outputs: seq<bool>, b: nat, k: nat)
    requires 8 * b + k < |outputs|
  {
    outputs[8 * b + k]
  }

  /** After a whole transmission, register b shows the byte sent b-th from the end, bit for bit. */
  lemma LatchedOutputs(stages: seq<bool>, outputs: seq<bool>, edges: seq<Edge>, data: seq<byte>, n: nat)
    requires n <= |data| && |stages| == 8 * n
    ensures |Outputs(stages, outputs, edges + Waveform(data, n))| == 8 * n
    ensures forall b: nat, k: nat :: b < n && k < 8 ==>
              (OutputPin(Outputs(stages, outputs, edges + Waveform(data, n)), b, k)
               <==> TestBit(data[n - 1 - b], k))
  {
    var w := edges + Waveform(data, n);
    assert w[..|w| - 1] == edges + Shifts(data, n);
    AllShifts(data, n);
    StagesAppend(stages, edges, Shifts(data, n));
    var s := Stages(stages, edges);
    StagesAfterShifts(s, Shifts(data, n));
    forall b: nat, k: nat | b < n && k < 8
      ensures OutputPin(Outputs(stages, outputs, w), b, k) <==> TestBit(data[n - 1 - b], k)
    {
      ShiftLevel(data, n, n - 1 - b, 7 - k);
    }
  }

  lemma {:induction false} StagesAppend(stages: seq<bool>, a: seq<Edge>, b: seq<Edge>)
    ensures Stages(stages, a + b) == Stages(Stages(stages, a), b)
  {
    if b == [] {
      assert a + b == a;
    } else {
      StagesAppend(stages, a, b[..|b| - 1]);
      assert (a + b)[..|a + b| - 1] == a + b[..|b| - 1];
    }
  }
}
