/** The acquisition processor: what one call publishes, counts and refuses, and what the
    published values mean. */
module Processor {
  import opened Wrappers
  import opened SquareRoot
  import opened Acquisition

  // ---------------------------------------------------------------- what a block measures

  /** How a block is judged, in the order the checks are made. */
  function Verdict(c: Calibration, samples: seq<uint16>, sampleRate: uint32, wanted: bool): BlockResult {
    if !Accepted(c) then ERROR_CALIBRATION
    else if |samples| == 0 || |samples| % CHANNELS != 0 then ERROR_LENGTH
    else if Frames(samples) > FRAMES_PER_BLOCK then ERROR_LENGTH
    else if wanted && sampleRate == 0 then ERROR_LENGTH
    else if Average(samples, VREFINT) == 0 then ERROR_REFERENCE
    else OK
  }

  function SupplyVoltage(c: Calibration, samples: seq<uint16>): nat
    requires Frames(samples) > 0 && Average(samples, VREFINT) > 0
  {
    Vdda(c, Average(samples, VREFINT))
  }

  function Flagged(status: bv16, flag: bv16): bv16 {
    status | flag
  }

  function StatusOf(c: Calibration, samples: seq<uint16>, aux: Auxiliary): bv16 {
    var base := Flagged(Flagged(c.baseStatus, aux.hardwareStatus), STATUS_VALID);
    var withRpm := if aux.rpmValid then base else Flagged(base, STATUS_RPM_STALE);
    if TouchesRail(samples, |samples|) then Flagged(withRpm, STATUS_ADC_SATURATED) else withRpm
  }

  function Measured(c: Calibration, samples: seq<uint16>, aux: Auxiliary): Measurements
    requires Accepted(c) && Frames(samples) > 0 && Average(samples, VREFINT) > 0
  {
    var vdda := SupplyVoltage(c, samples);
    Measurements(
      Clamp16(Temperature(c, Cast32(Normalized(Average(samples, TEMPERATURE), vdda)))),
      ClampU16(Ratio(RmsCode(c, vdda, samples), c.vibrationNum as nat, c.vibrationDen as nat)),
      ClampU16(Current(c, Cast32(Normalized(Average(samples, CURRENT), vdda)))),
      if aux.rpmValid then aux.rpm as nat else 0,
      ClampU16(SupplyMv(c, Average(samples, SUPPLY), vdda)),
      StatusOf(c, samples, aux))
  }

  /** No signed subtraction of the block overflows, which is all that C demands of an
      acceptable block. */
  predicate Defined(c: Calibration, samples: seq<uint16>)
    requires Frames(samples) > 0 && Average(samples, VREFINT) > 0
  {
    var vdda := SupplyVoltage(c, samples);
    && Subtracts(Normalized(Average(samples, TEMPERATURE), vdda), c.temperature30Code)
    && Subtracts(Normalized(Average(samples, CURRENT), vdda), c.currentZero)
    && DeltasFit(c, vdda, samples)
  }

  lemma DefinedParts(c: Calibration, samples: seq<uint16>)
    requires Frames(samples) > 0 && Average(samples, VREFINT) > 0 && Defined(c, samples)
    ensures var vdda := Vdda(c, Average(samples, VREFINT));
      && SupplyVoltage(c, samples) == vdda
      && Subtracts(Normalized(Average(samples, TEMPERATURE), vdda), c.temperature30Code)
      && Subtracts(Normalized(Average(samples, CURRENT), vdda), c.currentZero)
      && DeltasFit(c, vdda, samples)
  {
  }

  // ---------------------------------------------------------------- conversions in C's widths

  method TemperatureCentiC(c: Calibration, normalized: uint32) returns (centi: int64)
    requires Accepted(c) && Subtracts(normalized as nat, c.temperature30Code)
    ensures centi as int == Temperature(c, Cast32(normalized as nat))
  {
    var span := c.temperature110Code as int32 - c.temperature30Code as int32;
    var offset := ToSigned(normalized) - c.temperature30Code as int32;
    var scaled := offset as int64 * 8000;
    hide Quotient;
    QuotientBound(scaled as int, span as int);
    centi := 3000 + Quotient(scaled as int, span as int) as int64;
  }

  method Proportion(n: uint32, num: uint32, den: uint32) returns (r: uint64)
    requires den != 0
    ensures r as nat == Ratio(n as nat, num as nat, den as nat)
  {
    hide Product;
    r := WideProduct(n, num) / den as uint64;
  }

  method CurrentMa(c: Calibration, normalized: uint32) returns (ma: uint64)
    requires Accepted(c) && Subtracts(normalized as nat, c.currentZero)
    ensures ma as nat == Current(c, Cast32(normalized as nat))
  {
    hide Ratio;
    var delta := ToSigned(normalized) - c.currentZero as int32;
    if delta < 0 {
      delta := 0;
    }
    ma := Proportion(delta as uint32, c.currentNum, c.currentDen);
  }

  method SupplyMillivolts(c: Calibration, code: uint32, vdda: uint32) returns (mv: uint64)
    requires Accepted(c) && code as nat <= 0xFFFF && vdda as nat <= MAX_VDDA
    ensures mv as nat == SupplyMv(c, code as nat, vdda as nat)
  {
    var pin := Proportion(code, vdda, 4095);
    NormalizedBound(code as nat, vdda as nat);
    assert pin as nat <= 0xFFFF_FFFF by {
      hide Product;
      DivBound(Product(code as nat, vdda as nat), 4095, 0xFFFF_FFFF);
    }
    hide Ratio;
    mv := Proportion(pin as uint32, c.supplyNum as uint32, c.supplyDen as uint32);
  }

  method SupplyEstimate(c: Calibration, reference: uint32) returns (vdda: uint32)
    requires 0 < reference
    ensures vdda as nat == Vdda(c, reference as nat) <= MAX_VDDA
  {
    VddaBound(c, reference as nat);
    vdda := ((3300 * c.vrefintCode as uint64 + reference as uint64 / 2) / reference as uint64) as uint32;
  }

  method Rms(squares: uint64, frames: nat) returns (rms: uint32)
    requires 0 < frames <= FRAMES_PER_BLOCK
    ensures rms as nat == FloorSqrt(squares as nat / frames)
  {
    var root := ISqrt(squares / frames as uint64);
    rms := root as uint32;
  }

  method StatusFlags(c: Calibration, samples: seq<uint16>, aux: Auxiliary, saturated: bool) returns (status: bv16)
    requires saturated <==> TouchesRail(samples, |samples|)
    ensures status == StatusOf(c, samples, aux)
  {
    hide TouchesRail, Flagged;
    status := Flagged(c.baseStatus, aux.hardwareStatus);
    status := Flagged(status, STATUS_VALID);
    if !aux.rpmValid {
      status := Flagged(status, STATUS_RPM_STALE);
    }
    if saturated {
      status := Flagged(status, STATUS_ADC_SATURATED);
    }
  }

  function Saturating(n: uint32): uint32 {
    if n == 0xFFFF_FFFF then n else n + 1
  }

  /** One calibrated sample per frame, then zeros. */
  ghost predicate MilligravityOk(c: Calibration, mg: seq<int16>, samples: seq<uint16>)
    requires Accepted(c) && Frames(samples) > 0 && Average(samples, VREFINT) > 0
  {
    && |mg| == FRAMES_PER_BLOCK
    && forall f :: 0 <= f < FRAMES_PER_BLOCK ==>
      mg[f] as int == if f < Frames(samples) then SampleMg(c, SupplyVoltage(c, samples), samples, f) else 0
  }

  ghost predicate SignalOk(c: Calibration, signal: Signal, samples: seq<uint16>, sampleRate: uint32)
    requires Accepted(c) && Frames(samples) > 0 && Average(samples, VREFINT) > 0
  {
    && signal.sampleRate == sampleRate as nat
    && signal.sampleCount == Frames(samples)
    && MilligravityOk(c, signal.vibrationMg, samples)
  }

  lemma SignalIs(c: Calibration, signal: Signal, samples: seq<uint16>, sampleRate: uint32)
    requires Accepted(c) && Frames(samples) > 0 && Average(samples, VREFINT) > 0
    requires
      && signal.sampleRate == sampleRate as nat
      && signal.sampleCount == Frames(samples)
      && MilligravityOk(c, signal.vibrationMg, samples)
    ensures SignalOk(c, signal, samples, sampleRate)
  {
    hide MilligravityOk;
  }

  lemma VerdictIs(c: Calibration, samples: seq<uint16>, sampleRate: uint32, wanted: bool)
    ensures |samples| != 0 && |samples| % CHANNELS == 0 ==>
      Frames(samples) > 0 && |samples| == Frames(samples) * CHANNELS
    ensures Verdict(c, samples, sampleRate, wanted)
      == if !Accepted(c) then ERROR_CALIBRATION
         else if
           || |samples| == 0
           || |samples| % CHANNELS != 0
           || Frames(samples) > FRAMES_PER_BLOCK
           || (wanted && sampleRate == 0)
         then ERROR_LENGTH
         else if Average(samples, VREFINT) == 0 then ERROR_REFERENCE
         else OK
  {
    hide Accepted, Average;
  }

  // ---------------------------------------------------------------- the processor

  class Acquirer {
    var calibration: Calibration
    var latest: Measurements
    var nextBlockSequence: uint32
    var blocksProcessed: uint32
    var invalidBlocks: uint32
    var saturatedBlocks: uint32

    constructor (calibration: Calibration)
      requires Accepted(calibration)
      ensures this.calibration == calibration && nextBlockSequence == 0 && latest == Measurements(0, 0, 0, 0, 0, 0)
      ensures blocksProcessed == invalidBlocks == saturatedBlocks == 0
    {
      this.calibration := calibration;
      latest := Measurements(0, 0, 0, 0, 0, 0);
      nextBlockSequence, blocksProcessed, invalidBlocks, saturatedBlocks := 0, 0, 0, 0;
    }

    /** Process one block, of whatever codes C defines the arithmetic for.  Only a block that is
        measured is published and takes a sequence number; any other only counts as invalid. */
    method ProcessBlock(samples: seq<uint16>, aux: Auxiliary, sampleRate: uint32, wanted: bool)
      returns (r: BlockResult, signal: Option<Signal>)
      requires Verdict(calibration, samples, sampleRate, wanted) == OK ==> Defined(calibration, samples)
      modifies this
      ensures r == Verdict(old(calibration), samples, sampleRate, wanted) && calibration == old(calibration)
      ensures r != OK ==>
        && latest == old(latest) && nextBlockSequence == old(nextBlockSequence)
        && blocksProcessed == old(blocksProcessed) && saturatedBlocks == old(saturatedBlocks)
        && invalidBlocks == Saturating(old(invalidBlocks))
      ensures r == OK ==>
        && latest == Measured(calibration, samples, aux)
        && nextBlockSequence as nat == (old(nextBlockSequence) as nat + 1) % 0x1_0000_0000
        && blocksProcessed == Saturating(old(blocksProcessed)) && invalidBlocks == old(invalidBlocks)
        && saturatedBlocks == if TouchesRail(samples, |samples|) then Saturating(old(saturatedBlocks))
          else old(saturatedBlocks)
      ensures signal.Some? <==> wanted && r in {OK, ERROR_REFERENCE}
      ensures r == OK && wanted ==>
        && SignalOk(calibration, signal.value, samples, sampleRate) && signal.value.status == latest.status
        && signal.value.sequence == old(nextBlockSequence) as nat
    {
      assert CHANNELS == 5 && VREFINT == 4;
      hide *;
      VerdictIs(calibration, samples, sampleRate, wanted);
      signal := None;
      if !Accepted(calibration) {
        invalidBlocks := Saturating(invalidBlocks);
        return ERROR_CALIBRATION, None;
      }
      if |samples| == 0 || |samples| % CHANNELS != 0 || Frames(samples) > FRAMES_PER_BLOCK
        || (wanted && sampleRate == 0)
      {
        invalidBlocks := Saturating(invalidBlocks);
        return ERROR_LENGTH, None;
      }
      var measurements, mg, saturated := MeasureBlock(samples, aux, wanted);
      if measurements.None? {
        invalidBlocks := Saturating(invalidBlocks);
        return ERROR_REFERENCE, if wanted then Some(Signal(seq(FRAMES_PER_BLOCK, _ => 0), 0, 0, 0, 0)) else None;
      }
      if saturated {
        saturatedBlocks := Saturating(saturatedBlocks);
      }
      latest := measurements.value;
      if wanted {
        signal := Some(Signal(mg, nextBlockSequence as nat, sampleRate as nat, Frames(samples),
                              measurements.value.status));
        SignalIs(calibration, signal.value, samples, sampleRate);
      }
      nextBlockSequence := if nextBlockSequence == 0xFFFF_FFFF then 0 else nextBlockSequence + 1;
      blocksProcessed := Saturating(blocksProcessed);
      r := OK;
    }

    /** The measurements of a well-formed block and its samples in milli-g; None when the
        reference converts to zero. */
    method MeasureBlock(samples: seq<uint16>, aux: Auxiliary, wanted: bool)
      returns (m: Option<Measurements>, mg: seq<int16>, saturated: bool)
      requires Accepted(calibration)
      requires 0 < Frames(samples) <= FRAMES_PER_BLOCK && |samples| == Frames(samples) * CHANNELS
      requires Average(samples, VREFINT) > 0 ==> Defined(calibration, samples)
      ensures m.None? <==> Average(samples, VREFINT) == 0
      ensures m.Some? ==>
        && m.value == Measured(calibration, samples, aux)
        && (saturated <==> TouchesRail(samples, |samples|))
        && (wanted ==> MilligravityOk(calibration, mg, samples))
    {
      hide Average, Vdda, Normalized, TouchesRail, Sum, SampleMg, SquareSum, Measured;
      mg := [];
      var sums;
      sums, saturated := ChannelSums(samples);
      var average := Averages(samples, sums);
      if average[VREFINT] == 0 {
        return None, mg, saturated;
      }
      var vdda := SupplyEstimate(calibration, average[VREFINT]);
      DefinedParts(calibration, samples);
      var squares;
      squares, mg := VibrationPass(calibration, vdda, samples, wanted);
      var converted := Convert(average, vdda, squares, samples, aux, saturated);
      m := Some(converted);
    }

    method Convert(average: seq<uint32>, vdda: uint32, squares: uint64, samples: seq<uint16>, aux: Auxiliary,
                   saturated: bool)
      returns (m: Measurements)
      requires
        && Accepted(calibration)
        && 0 < Frames(samples) <= FRAMES_PER_BLOCK
        && |samples| == Frames(samples) * CHANNELS
      requires |average| == CHANNELS && forall c :: 0 <= c < CHANNELS ==>
        average[c] as nat == Average(samples, c) <= 0xFFFF
      requires Average(samples, VREFINT) > 0 && vdda as nat == SupplyVoltage(calibration, samples) <= MAX_VDDA
      requires squares as nat == SquareSum(calibration, vdda as nat, samples, Frames(samples)) % TWO64
      requires Defined(calibration, samples)
      requires saturated <==> TouchesRail(samples, |samples|)
      ensures m == Measured(calibration, samples, aux)
    {
      hide Average, Vdda, Normalized, Ratio, Temperature, Current, SupplyMv, TouchesRail, Sum, SquareSum, FloorSqrt,
        StatusOf, Clamp16, ClampU16, Cast32, Subtracts, Defined;
      DefinedParts(calibration, samples);
      NormalizedBound(average[TEMPERATURE] as nat, vdda as nat);
      NormalizedBound(average[CURRENT] as nat, vdda as nat);
      var temperatureCode := NormalizeCode(average[TEMPERATURE], vdda);
      var centi := TemperatureCentiC(calibration, temperatureCode);
      var rms := Rms(squares, Frames(samples));
      var mg := Proportion(rms, calibration.vibrationNum, calibration.vibrationDen);
      var currentCode := NormalizeCode(average[CURRENT], vdda);
      var ma := CurrentMa(calibration, currentCode);
      var mv := SupplyMillivolts(calibration, average[SUPPLY], vdda);
      var status := StatusFlags(calibration, samples, aux, saturated);
      m := Measurements(Clamp16(centi as int), ClampU16(mg as nat), ClampU16(ma as nat),
                        if aux.rpmValid then aux.rpm as nat else 0, ClampU16(mv as nat), status);
    }
  }

  /** Unusable calibration is refused before a processor exists. */
  method Initialize(calibration: Calibration) returns (r: BlockResult, acquirer: Acquirer?)
    ensures r == if Accepted(calibration) then OK else ERROR_CALIBRATION
    ensures r == OK <==> acquirer != null
    ensures acquirer != null ==>
      && fresh(acquirer) && acquirer.calibration == calibration && acquirer.nextBlockSequence == 0
      && acquirer.latest == Measurements(0, 0, 0, 0, 0, 0)
  {
    if !Accepted(calibration) {
      return ERROR_CALIBRATION, null;
    }
    acquirer := new Acquirer(calibration);
    r := OK;
  }
}
