/** Tubes, cathodes and their wiring to the shift register outputs. */
module NixieWiring {
  import opened Wrappers
  import opened Strings
  import opened Bits
  import opened ByteSearch
  import opened ShiftRegister
  import opened RegisterChain

  const MAX_NIXIE_CATHODE := 12

  datatype NixieType = IN12A | IN12B

  /** Register (counted from the serial input) and bit that drive one cathode. */
  datatype CathodeBit = CathodeBit(byte: nat, bit: nat)

  /** Wiring of all tubes: one row of cathodes per tube. */
  datatype Wiring = Wiring(types: seq<NixieType>, mapping: seq<seq<CathodeBit>>, registers: nat)
  {
    ghost predicate Valid()
    {
      && |types| == |mapping|
      && 1 <= registers <= MAX_DATA
      && (forall i :: 0 <= i < |mapping| ==> |mapping[i]| == MAX_NIXIE_CATHODE)
      && (forall i, c :: 0 <= i < |mapping| && 0 <= c < MAX_NIXIE_CATHODE ==> InRange(mapping[i][c]))
    }

    predicate InRange(w: CathodeBit)
    {
      w.byte < registers && w.bit < 8
    }

    /** No output drives two digit cathodes. */
    ghost predicate Injective()
      requires Valid()
    {
      forall i, c, j, d ::
        0 <= i < |mapping| && 2 <= c < MAX_NIXIE_CATHODE && 0 <= j < |mapping| && 2 <= d < MAX_NIXIE_CATHODE
        && mapping[i][c] == mapping[j][d]
        ==> i == j && c == d
    }
  }

  /** Cathode pin of a symbol, or -1. */
  function IN12ACathode(symbol: char): int
  {
    if symbol == '0' then 2
    else if '0' < symbol <= '9' then 12 - (symbol as int - '0' as int)
    else -1
  }

  function IN12BCathode(symbol: char): int
  {
    if symbol == '0' then 2
    else if '0' < symbol <= '9' then 12 - (symbol as int - '0' as int)
    else if symbol == ',' then 12
    else -1
  }

  function SymbolToCathode(tube: NixieType, symbol: char): int
  {
    match tube
    case IN12A => IN12ACathode(symbol)
    case IN12B => IN12BCathode(symbol)
  }

  /** The digit for which a cathode index is registered, the same for every tube. */
  function RegisteredDigit(cathode: nat): (symbol: char)
    requires 2 <= cathode < MAX_NIXIE_CATHODE
    ensures IsDigit(symbol)
  {
    match cathode
    case 2 => '0'
    case 3 => '9'
    case 4 => '8'
    case 5 => '7'
    case 6 => '6'
    case 7 => '5'
    case 8 => '4'
    case 9 => '3'
    case 10 => '2'
    case _ => '1'
  }

  /** Decoding finds the cathode registered for a digit, inside a row of the wiring table, whatever the tube type. */
  lemma CathodesOfDigits(tube: NixieType, symbol: char, cathode: nat)
    requires IsDigit(symbol) && 2 <= cathode < MAX_NIXIE_CATHODE
    ensures 2 <= SymbolToCathode(tube, symbol) < MAX_NIXIE_CATHODE
    ensures SymbolToCathode(tube, symbol) == cathode <==> RegisteredDigit(cathode) == symbol
  {
  }

  /** The comma of an IN-12B has no cell in the twelve-entry table: such a cell cannot be displayed. */
  predicate Displayable(tube: NixieType, symbol: char)
  {
    SymbolToCathode(tube, symbol) < MAX_NIXIE_CATHODE
  }

  lemma OnlyTheCommaIsNotDisplayable(tube: NixieType, symbol: char)
    ensures Displayable(tube, symbol) <==> !(tube == IN12B && symbol == ',')
  {
  }

  /** Some tube below m has its chosen cathode on bit k of register b. */
  ghost predicate LitBelow(w: Wiring, cathodes: seq<int>, m: nat, b: nat, k: nat)
    requires w.Valid() && m <= |cathodes| <= |w.mapping|
    requires forall i :: 0 <= i < |cathodes| ==> -1 <= cathodes[i] < MAX_NIXIE_CATHODE
  {
    exists i :: 0 <= i < m && cathodes[i] != -1 && w.mapping[i][cathodes[i]] == CathodeBit(b, k)
  }

  /** Bit k of the byte that will end up in register b, the bytes being sent last register first. */
  predicate RegisterBit(w: Wiring, data: seq<byte>, b: nat, k: nat)
    requires b < w.registers <= |data| && k < 8
  {
    TestBit(data[w.registers - 1 - b], k)
  }

  /** The bytes to send light exactly the cathodes chosen by the first m tubes. */
  ghost predicate EncodesBelow(w: Wiring, cathodes: seq<int>, m: nat, data: seq<byte>)
    requires w.Valid() && m <= |cathodes| == |w.mapping|
    requires forall i :: 0 <= i < |cathodes| ==> -1 <= cathodes[i] < MAX_NIXIE_CATHODE
  {
    && w.registers <= |data|
    && forall b: nat, k: nat :: b < w.registers && k < 8 ==>
         (RegisterBit(w, data, b, k) <==> LitBelow(w, cathodes, m, b, k))
  }

  ghost predicate Encodes(w: Wiring, cathodes: seq<int>, data: seq<byte>)
    requires w.Valid() && |cathodes| == |w.mapping|
    requires forall i :: 0 <= i < |cathodes| ==> -1 <= cathodes[i] < MAX_NIXIE_CATHODE
  {
    EncodesBelow(w, cathodes, |cathodes|, data)
  }

  lemma NothingLit(w: Wiring, cathodes: seq<int>, data: seq<byte>)
    requires w.Valid() && |cathodes| == |w.mapping| && w.registers <= |data|
    requires forall i :: 0 <= i < |cathodes| ==> -1 <= cathodes[i] < MAX_NIXIE_CATHODE
    requires forall i :: 0 <= i < |data| ==> data[i] == 0
    ensures EncodesBelow(w, cathodes, 0, data)
  {
    forall k: nat | k < 8
      ensures !TestBit(0, k)
    {
      ZeroHasNoBits(k);
    }
  }

  /** The bytes after tube m has or-ed in its bit. */
  predicate OneMoreLit(w: Wiring, cathodes: seq<int>, m: nat, before: seq<byte>, after: seq<byte>)
    requires w.Valid() && m < |cathodes| == |w.mapping| && w.registers <= |before|
    requires -1 <= cathodes[m] < MAX_NIXIE_CATHODE
  {
    after == if cathodes[m] == -1 then before else
      var pin := w.mapping[m][cathodes[m]];
      assert w.InRange(pin);
      var at := w.registers - 1 - pin.byte;
      before[at := before[at] | Mask(pin.bit)]
  }

  lemma LightOneBit(w: Wiring, cathodes: seq<int>, m: nat, before: seq<byte>, after: seq<byte>, b: nat, k: nat)
    requires w.Valid() && m < |cathodes| == |w.mapping| && w.registers <= |before|
    requires -1 <= cathodes[m] < MAX_NIXIE_CATHODE && OneMoreLit(w, cathodes, m, before, after)
    requires b < w.registers && k < 8
    ensures RegisterBit(w, after, b, k) <==>
              RegisterBit(w, before, b, k) || (cathodes[m] != -1 && w.mapping[m][cathodes[m]] == CathodeBit(b, k))
  {
    if cathodes[m] != -1 {
      var pin := w.mapping[m][cathodes[m]];
      assert w.InRange(pin);
      if pin.byte == b {
        OrSetsOneBit(before[w.registers - 1 - b], pin.bit, k);
      }
    }
  }

  /** Or-ing in the bit of tube m accounts for tube m and disturbs no other output. */
  lemma LightOne(w: Wiring, cathodes: seq<int>, m: nat, before: seq<byte>, after: seq<byte>)
    requires w.Valid() && m < |cathodes| == |w.mapping|
    requires forall i :: 0 <= i < |cathodes| ==> -1 <= cathodes[i] < MAX_NIXIE_CATHODE
    requires EncodesBelow(w, cathodes, m, before) && OneMoreLit(w, cathodes, m, before, after)
    ensures EncodesBelow(w, cathodes, m + 1, after)
  {
    forall b: nat, k: nat | b < w.registers && k < 8
      ensures RegisterBit(w, after, b, k) <==> LitBelow(w, cathodes, m + 1, b, k)
    {
      LightOneBit(w, cathodes, m, before, after, b, k);
      var lit := cathodes[m] != -1 && w.mapping[m][cathodes[m]] == CathodeBit(b, k);
      assert LitBelow(w, cathodes, m + 1, b, k) <==> (LitBelow(w, cathodes, m, b, k) || lit);
      assert RegisterBit(w, before, b, k) <==> LitBelow(w, cathodes, m, b, k);
    }
  }

  /** Tube i lights the cathode of `symbol` and no other one on the latched outputs. */
  ghost predicate TubeShows(w: Wiring, outputs: seq<bool>, i: nat, symbol: char)
    requires w.Valid() && i < |w.mapping| && |outputs| == 8 * w.registers
  {
    forall c: nat :: 2 <= c < MAX_NIXIE_CATHODE ==> (CathodeOn(w, outputs, i, c) <==> RegisteredDigit(c) == symbol)
  }

  ghost predicate CathodeOn(w: Wiring, outputs: seq<bool>, i: nat, c: nat)
    requires w.Valid() && i < |w.mapping| && c < MAX_NIXIE_CATHODE && |outputs| == 8 * w.registers
  {
    assert w.InRange(w.mapping[i][c]);
    OutputPin(outputs, w.mapping[i][c].byte, w.mapping[i][c].bit)
  }

  /** The display cells as the tubes should show them, in the order the tubes are registered. */
  function ShownSymbols(cells: seq<char>): (s: seq<char>)
    ensures |s| == |cells|
  {
    seq(|cells|, i requires 0 <= i < |cells| => cells[|cells| - 1 - i])
  }

  /** The wire-level end of the pipeline: after the transmission every tube shows its digit and nothing else. */
  lemma TubesShowCells(w: Wiring, cells: seq<char>, cathodes: seq<int>, data: seq<byte>,
                       edges: seq<Edge>, stages: seq<bool>, outputs: seq<bool>, i: nat)
    requires w.Valid() && w.Injective()
    requires i < |cells| == |w.types| == |cathodes|
    requires forall j :: 0 <= j < |cells| ==> IsDigit(cells[j])
    requires forall j :: 0 <= j < |cells| ==>
      cathodes[j] == SymbolToCathode(w.types[|cells| - 1 - j], cells[|cells| - 1 - j])
    requires forall j :: 0 <= j < |cathodes| ==> -1 <= cathodes[j] < MAX_NIXIE_CATHODE
    requires Encodes(w, cathodes, data)
    requires |stages| == 8 * w.registers
    ensures |Outputs(stages, outputs, edges + Waveform(data, w.registers))| == 8 * w.registers
    ensures TubeShows(w, Outputs(stages, outputs, edges + Waveform(data, w.registers)), i, ShownSymbols(cells)[i])
  {
    LatchedOutputs(stages, outputs, edges, data, w.registers);
    var shown := ShownSymbols(cells)[i];
    var latched := Outputs(stages, outputs, edges + Waveform(data, w.registers));
    forall c: nat | 2 <= c < MAX_NIXIE_CATHODE
      ensures CathodeOn(w, latched, i, c) <==> RegisteredDigit(c) == shown
    {
      CathodesOfDigits(w.types[|cells| - 1 - i], shown, c);
      var pin := w.mapping[i][c];
      assert w.InRange(pin);
      assert RegisterBit(w, data, pin.byte, pin.bit) <==> LitBelow(w, cathodes, |cathodes|, pin.byte, pin.bit);
      assert CathodeOn(w, latched, i, c) <==> LitBelow(w, cathodes, |cathodes|, pin.byte, pin.bit);
    }
  }

  /** Whatever the chain held before, its latched outputs show `text` on the tubes in the order they are registered. */
  ghost predicate DisplayShows(w: Wiring, edges: seq<Edge>, text: seq<char>)
    requires w.Valid() && |text| == |w.mapping|
  {
    forall stages: seq<bool>, outputs: seq<bool> | |stages| == 8 * w.registers ::
      var latched := Outputs(stages, outputs, edges);
      |latched| == 8 * w.registers
      && forall i :: 0 <= i < |text| ==> IsDigit(text[i]) && TubeShows(w, latched, i, text[i])
  }

  lemma TransmissionShowsCells(w: Wiring, cells: seq<char>, cathodes: seq<int>, data: seq<byte>, edges: seq<Edge>)
    requires w.Valid() && w.Injective() && |cells| == |w.types| == |cathodes|
    requires forall j :: 0 <= j < |cells| ==> IsDigit(cells[j])
    requires forall j :: 0 <= j < |cells| ==>
      cathodes[j] == SymbolToCathode(w.types[|cells| - 1 - j], cells[|cells| - 1 - j])
    requires forall j :: 0 <= j < |cathodes| ==> -1 <= cathodes[j] < MAX_NIXIE_CATHODE
    requires Encodes(w, cathodes, data)
    ensures DisplayShows(w, edges + Waveform(data, w.registers), ShownSymbols(cells))
  {
    forall stages: seq<bool>, outputs: seq<bool> | |stages| == 8 * w.registers
      ensures var latched := Outputs(stages, outputs, edges + Waveform(data, w.registers));
        |latched| == 8 * w.registers
        && forall i :: 0 <= i < |cells| ==> TubeShows(w, latched, i, ShownSymbols(cells)[i])
    {
      LatchedOutputs(stages, outputs, edges, data, w.registers);
      forall i | 0 <= i < |cells|
        ensures TubeShows(w, Outputs(stages, outputs, edges + Waveform(data, w.registers)), i, ShownSymbols(cells)[i])
      {
        TubesShowCells(w, cells, cathodes, data, edges, stages, outputs, i);
      }
    }
  }

  // ---------------------------------------------------------------------------
  // The wiring of the tracker's display.

  const NC := CathodeBit(0, 0)

  const TRACKER_WIRING := Wiring(
    [IN12A, IN12A, IN12A, IN12A],
    [[NC, NC, CathodeBit(3, 3), CathodeBit(3, 1), CathodeBit(3, 4), CathodeBit(3, 0), CathodeBit(3, 5),
      CathodeBit(2, 7), CathodeBit(3, 6), CathodeBit(2, 6), CathodeBit(3, 7), CathodeBit(2, 5)],
     [NC, NC, CathodeBit(2, 0), CathodeBit(1, 6), CathodeBit(2, 1), CathodeBit(1, 5), CathodeBit(2, 2),
      CathodeBit(1, 4), CathodeBit(2, 3), CathodeBit(1, 0), CathodeBit(2, 4), CathodeBit(1, 1)],
     [NC, NC, CathodeBit(1, 2), CathodeBit(0, 0), CathodeBit(1, 3), CathodeBit(0, 1), CathodeBit(0, 7),
      CathodeBit(0, 2), CathodeBit(0, 6), CathodeBit(0, 3), CathodeBit(0, 5), CathodeBit(5, 3)],
     [NC, NC, CathodeBit(4, 5), CathodeBit(4, 6), CathodeBit(4, 4), CathodeBit(5, 7), CathodeBit(5, 0),
      CathodeBit(5, 6), CathodeBit(5, 1), CathodeBit(5, 5), CathodeBit(5, 2), CathodeBit(5, 4)]],
    6)

  /** The inverse table: which tube and cathode (as 12 * tube + cathode) each register bit belongs to. */
  function Owner(pin: CathodeBit): nat
  {
    match pin
    case CathodeBit(0, 0) => 27
    case CathodeBit(0, 1) => 29
    case CathodeBit(0, 2) => 31
    case CathodeBit(0, 3) => 33
    case CathodeBit(0, 5) => 34
    case CathodeBit(0, 6) => 32
    case CathodeBit(0, 7) => 30
    case CathodeBit(1, 0) => 21
    case CathodeBit(1, 1) => 23
    case CathodeBit(1, 2) => 26
    case CathodeBit(1, 3) => 28
    case CathodeBit(1, 4) => 19
    case CathodeBit(1, 5) => 17
    case CathodeBit(1, 6) => 15
    case CathodeBit(2, 0) => 14
    case CathodeBit(2, 1) => 16
    case CathodeBit(2, 2) => 18
    case CathodeBit(2, 3) => 20
    case CathodeBit(2, 4) => 22
    case CathodeBit(2, 5) => 11
    case CathodeBit(2, 6) => 9
    case CathodeBit(2, 7) => 7
    case CathodeBit(3, 0) => 5
    case CathodeBit(3, 1) => 3
    case CathodeBit(3, 3) => 2
    case CathodeBit(3, 4) => 4
    case CathodeBit(3, 5) => 6
    case CathodeBit(3, 6) => 8
    case CathodeBit(3, 7) => 10
    case CathodeBit(4, 4) => 40
    case CathodeBit(4, 5) => 38
    case CathodeBit(4, 6) => 39
    case CathodeBit(5, 0) => 42
    case CathodeBit(5, 1) => 44
    case CathodeBit(5, 2) => 46
    case CathodeBit(5, 3) => 35
    case CathodeBit(5, 4) => 47
    case CathodeBit(5, 5) => 45
    case CathodeBit(5, 6) => 43
    case CathodeBit(5, 7) => 41
    case _ => 0
  }

  lemma TrackerOwners(i: nat, c: nat)
    requires i < 4 && c < MAX_NIXIE_CATHODE
    ensures |TRACKER_WIRING.mapping[i]| == MAX_NIXIE_CATHODE
    ensures TRACKER_WIRING.InRange(TRACKER_WIRING.mapping[i][c])
    ensures 2 <= c ==> Owner(TRACKER_WIRING.mapping[i][c]) == 12 * i + c
  {
    assert i == 0 || i == 1 || i == 2 || i == 3;
    assert c == 0 || c == 1 || c == 2 || c == 3 || c == 4 || c == 5
        || c == 6 || c == 7 || c == 8 || c == 9 || c == 10 || c == 11;
  }

  /** The tracker's wiring table meets what the display pipeline needs: in range and injective. */
  lemma TrackerWiringIsInjective()
    ensures TRACKER_WIRING.Valid() && TRACKER_WIRING.Injective()
  {
    var w := TRACKER_WIRING;
    forall i: nat, c: nat | i < 4 && c < MAX_NIXIE_CATHODE
      ensures |w.mapping[i]| == MAX_NIXIE_CATHODE && w.InRange(w.mapping[i][c])
      ensures 2 <= c ==> Owner(w.mapping[i][c]) == 12 * i + c
    {
      TrackerOwners(i, c);
    }
    assert forall i :: 0 <= i < 4 ==> |w.mapping[i]| == MAX_NIXIE_CATHODE;
  }

  /** The register bit that each tube has for each digit, as it is registered. */
  function RegisteredBit(tube: nat, symbol: char): CathodeBit
    requires tube < 4 && IsDigit(symbol)
  {
    match (tube, symbol)
    case (0, '0') => CathodeBit(3, 3)
    case (0, '9') => CathodeBit(3, 1)
    case (0, '8') => CathodeBit(3, 4)
    case (0, '7') => CathodeBit(3, 0)
    case (0, '6') => CathodeBit(3, 5)
    case (0, '5') => CathodeBit(2, 7)
    case (0, '4') => CathodeBit(3, 6)
    case (0, '3') => CathodeBit(2, 6)
    case (0, '2') => CathodeBit(3, 7)
    case (0, '1') => CathodeBit(2, 5)
    case (1, '0') => CathodeBit(2, 0)
    case (1, '9') => CathodeBit(1, 6)
    case (1, '8') => CathodeBit(2, 1)
    case (1, '7') => CathodeBit(1, 5)
    case (1, '6') => CathodeBit(2, 2)
    case (1, '5') => CathodeBit(1, 4)
    case (1, '4') => CathodeBit(2, 3)
    case (1, '3') => CathodeBit(1, 0)
    case (1, '2') => CathodeBit(2, 4)
    case (1, '1') => CathodeBit(1, 1)
    case (2, '0') => CathodeBit(1, 2)
    case (2, '9') => CathodeBit(0, 0)
    case (2, '8') => CathodeBit(1, 3)
    case (2, '7') => CathodeBit(0, 1)
    case (2, '6') => CathodeBit(0, 7)
    case (2, '5') => CathodeBit(0, 2)
    case (2, '4') => CathodeBit(0, 6)
    case (2, '3') => CathodeBit(0, 3)
    case (2, '2') => CathodeBit(0, 5)
    case (2, '1') => CathodeBit(5, 3)
    case (3, '0') => CathodeBit(4, 5)
    case (3, '9') => CathodeBit(4, 6)
    case (3, '8') => CathodeBit(4, 4)
    case (3, '7') => CathodeBit(5, 7)
    case (3, '6') => CathodeBit(5, 0)
    case (3, '5') => CathodeBit(5, 6)
    case (3, '4') => CathodeBit(5, 1)
    case (3, '3') => CathodeBit(5, 5)
    case (3, '2') => CathodeBit(5, 2)
    case (3, '1') => CathodeBit(5, 4)
    case _ => NC
  }

  lemma RegisteredBits(i: nat, c: nat)
    requires i < 4 && 2 <= c < MAX_NIXIE_CATHODE
    ensures |TRACKER_WIRING.mapping[i]| == MAX_NIXIE_CATHODE
    ensures TRACKER_WIRING.mapping[i][c] == RegisteredBit(i, RegisteredDigit(c))
  {
    assert i == 0 || i == 1 || i == 2 || i == 3;
    assert c == 2 || c == 3 || c == 4 || c == 5 || c == 6 || c == 7 || c == 8 || c == 9 || c == 10 || c == 11;
  }

  /** For every tube and digit, the bit that decoding leads to is the one registered for it. */
  lemma DigitsHaveTheirBits(i: nat, symbol: char)
    requires i < 4 && IsDigit(symbol)
    ensures |TRACKER_WIRING.mapping[i]| == MAX_NIXIE_CATHODE
    ensures 2 <= SymbolToCathode(TRACKER_WIRING.types[i], symbol) < MAX_NIXIE_CATHODE
    ensures TRACKER_WIRING.mapping[i][SymbolToCathode(TRACKER_WIRING.types[i], symbol)] == RegisteredBit(i, symbol)
  {
    var tube := TRACKER_WIRING.types[i];
    CathodesOfDigits(tube, symbol, 2);
    var c := SymbolToCathode(tube, symbol);
    CathodesOfDigits(tube, symbol, c);
    RegisteredBits(i, c);
  }

  /** Tube i of the tracker has the bit registered for `symbol` high, and those of all other digits low. */
  ghost predicate TrackerTubeShows(outputs: seq<bool>, i: nat, symbol: char)
    requires i < 4 && |outputs| == 48
  {
    forall s: char :: IsDigit(s) ==> (RegisteredBitOn(outputs, i, s) <==> s == symbol)
  }

  predicate RegisteredBitOn(outputs: seq<bool>, i: nat, s: char)
    requires i < 4 && |outputs| == 48 && IsDigit(s)
  {
    OutputPin(outputs, RegisteredBit(i, s).byte, RegisteredBit(i, s).bit)
  }

  lemma TrackerTubeReads(outputs: seq<bool>, i: nat, symbol: char)
    requires i < 4 && |outputs| == 48 && TRACKER_WIRING.Valid() && TubeShows(TRACKER_WIRING, outputs, i, symbol)
    ensures TrackerTubeShows(outputs, i, symbol)
  {
    forall s: char | IsDigit(s)
      ensures RegisteredBitOn(outputs, i, s) <==> s == symbol
    {
      DigitsHaveTheirBits(i, s);
      var c := SymbolToCathode(TRACKER_WIRING.types[i], s);
      CathodesOfDigits(TRACKER_WIRING.types[i], s, c);
      assert CathodeOn(TRACKER_WIRING, outputs, i, c) <==> RegisteredDigit(c) == symbol;
    }
  }

  /** What is shown on the tracker's own tubes, told by the registered bits. */
  ghost predicate TrackerShows(edges: seq<Edge>, text: seq<char>) {
    |text| == 4
    && forall stages: seq<bool>, outputs: seq<bool> | |stages| == 48 ::
         var latched := Outputs(stages, outputs, edges);
         |latched| == 48 && forall i :: 0 <= i < 4 ==> IsDigit(text[i]) && TrackerTubeShows(latched, i, text[i])
  }

  lemma TrackerReads(edges: seq<Edge>, text: seq<char>)
    requires |text| == 4 && TRACKER_WIRING.Valid() && DisplayShows(TRACKER_WIRING, edges, text)
    ensures TrackerShows(edges, text)
  {
    forall stages: seq<bool>, outputs: seq<bool> | |stages| == 48
      ensures
        var latched := Outputs(stages, outputs, edges);
        |latched| == 48 && forall i :: 0 <= i < 4 ==> IsDigit(text[i]) && TrackerTubeShows(latched, i, text[i])
    {
      var latched := Outputs(stages, outputs, edges);
      forall i | 0 <= i < 4
        ensures |latched| == 48 && IsDigit(text[i]) && TrackerTubeShows(latched, i, text[i])
      {
        TrackerTubeReads(latched, i, text[i]);
      }
    }
  }
}
