/** One ADC block to engineering units.  Every variable of the block processor has a type
    of its C width, so the verifier shows that nothing wraps unseen; C's truncating division,
    its conversion to a signed type and the one sum that may wrap are written out. */
module Acquisition {
  import opened SquareRoot

  newtype uint16 = x: int | 0 <= x < 0x1_0000
  newtype uint32 = x: int | 0 <= x < 0x1_0000_0000
  newtype int16 = x: int | -0x8000 <= x < 0x8000
  newtype int32 = x: int | -0x8000_0000 <= x < 0x8000_0000
  newtype int64 = x: int | -0x8000_0000_0000_0000 <= x < 0x8000_0000_0000_0000

  const CHANNELS: nat := 5
  const VIBRATION: nat := 0
  const CURRENT: nat := 1
  const SUPPLY: nat := 2
  const TEMPERATURE: nat := 3
  const VREFINT: nat := 4
  const FRAMES_PER_BLOCK: nat := 64
  const ADC_MAX_CODE: nat := 4095
  const FACTORY_VDDA_MV: nat := 3300

  const STATUS_VALID: bv16 := 0x0001
  const STATUS_ADC_SATURATED: bv16 := 0x0002
  const STATUS_RPM_STALE: bv16 := 0x0004

  /** The largest supply estimate, and the largest normalized code, for codes of 16 bits and
      for the 12 bits the converter delivers. */
  const MAX_VDDA: nat := 216265500
  const MAX_NORMALIZED: nat := 4294836225
  const MAX_NORMALIZED_12: nat := 268365825

  datatype Calibration = Calibration(
    vrefintCode: uint16,
    temperature30Code: uint16,
    temperature110Code: uint16,
    vibrationZero: uint16,
    vibrationNum: uint32,
    vibrationDen: uint32,
    currentZero: uint16,
    currentNum: uint32,
    currentDen: uint32,
    supplyNum: uint16,
    supplyDen: uint16,
    baseStatus: bv16)

  predicate Accepted(c: Calibration) {
    && c.vrefintCode != 0 && c.temperature30Code != c.temperature110Code
    && c.vibrationDen != 0 && c.currentDen != 0 && c.supplyDen != 0
  }

  datatype Auxiliary = Auxiliary(rpm: uint16, rpmValid: bool, hardwareStatus: bv16)

  datatype Measurements = Measurements(
    temperatureCentiC: int, vibrationMgRms: nat, currentMa: nat, rpm: nat, supplyMv: nat, status: bv16)

  datatype Signal = Signal(vibrationMg: seq<int16>, sequence: nat, sampleRate: nat, sampleCount: nat, status: bv16)

  datatype BlockResult = OK | ERROR_LENGTH | ERROR_CALIBRATION | ERROR_REFERENCE

  // ---------------------------------------------------------------- the definitions

  predicate TwelveBit(samples: seq<uint16>) {
    forall i :: 0 <= i < |samples| ==> samples[i] <= 4095
  }

  function Frames(samples: seq<uint16>): nat {
    |samples| / CHANNELS
  }

  function Code(samples: seq<uint16>, channel: nat, frame: nat): nat
    requires channel < CHANNELS && frame < Frames(samples)
  {
    samples[frame * CHANNELS + channel] as nat
  }

  function Sum(samples: seq<uint16>, channel: nat, frames: nat): nat
    requires channel < CHANNELS && frames <= Frames(samples)
  {
    if frames == 0 then 0 else Sum(samples, channel, frames - 1) + Code(samples, channel, frames - 1)
  }

  function Product(a: nat, b: nat): nat {
    a * b
  }

  /** Division rounded to nearest, halves upwards. */
  function Nearest(n: nat, d: nat): nat
    requires d > 0
  {
    (n + d / 2) / d
  }

  function Average(samples: seq<uint16>, channel: nat): nat
    requires channel < CHANNELS && Frames(samples) > 0
  {
    Nearest(Sum(samples, channel, Frames(samples)), Frames(samples))
  }

  function Vdda(c: Calibration, reference: nat): nat
    requires reference > 0
  {
    Nearest(FACTORY_VDDA_MV * c.vrefintCode as nat, reference)
  }

  function Normalized(code: nat, vdda: nat): nat {
    Nearest(Product(code, vdda), FACTORY_VDDA_MV)
  }

  /** The conversion of an unsigned 32-bit value to a signed one: as is below 2^31, and
      modulo 2^32 above, as the target's compiler defines it. */
  function Cast32(n: nat): int {
    if n < 0x8000_0000 then n else n - 0x1_0000_0000
  }

  /** Subtracting a zero point from a normalized code stays in the signed 32-bit range. */
  predicate Subtracts(normalized: nat, zero: uint16) {
    Cast32(normalized) - zero as int >= -0x8000_0000
  }

  function Delta(c: Calibration, vdda: nat, code: nat): int {
    Cast32(Normalized(code, vdda)) - c.vibrationZero as int
  }

  function SquareSum(c: Calibration, vdda: nat, samples: seq<uint16>, frames: nat): nat
    requires frames <= Frames(samples)
  {
    if frames == 0 then 0
    else SquareSum(c, vdda, samples, frames - 1) + Square(Delta(c, vdda, Code(samples, VIBRATION, frames - 1)))
  }

  function Square(d: int): nat {
    d * d
  }

  /** From the accumulated squares, which are unsigned 64-bit and so taken modulo 2^64. */
  function RmsCode(c: Calibration, vdda: nat, samples: seq<uint16>): nat
    requires Frames(samples) > 0
  {
    FloorSqrt(SquareSum(c, vdda, samples, Frames(samples)) % TWO64 / Frames(samples))
  }

  const TWO64: nat := 0x1_0000_0000_0000_0000

  /** C's division: toward zero. */
  function Quotient(a: int, b: int): int
    requires b != 0
  {
    if (a >= 0) == (b > 0) then Abs(a) / Abs(b) else -(Abs(a) / Abs(b))
  }

  function Abs(a: int): nat {
    if a < 0 then -a else a
  }

  function Clamp16(v: int): int {
    if v > 0x7FFF then 0x7FFF else if v < -0x8000 then -0x8000 else v
  }

  function ClampU16(v: nat): nat {
    if v > 0xFFFF then 0xFFFF else v
  }

  /** A signed vibration sample in milli-g, rounded away from zero at halves. */
  function Scaled(delta: int, num: nat, den: nat): int
    requires den > 0
  {
    if delta >= 0 then Nearest(Product(delta, num), den) else -(Nearest(Product(-delta, num), den) as int)
  }

  function Temperature(c: Calibration, code: int): int
    requires Accepted(c)
  {
    3000 + Quotient((code - c.temperature30Code as int) * 8000,
                    c.temperature110Code as int - c.temperature30Code as int)
  }

  function Current(c: Calibration, code: int): nat
    requires Accepted(c)
  {
    var delta := code - c.currentZero as int;
    Ratio(if delta < 0 then 0 else delta, c.currentNum as nat, c.currentDen as nat)
  }

  function SupplyMv(c: Calibration, code: nat, vdda: nat): nat
    requires Accepted(c)
  {
    Ratio(Ratio(code, vdda, ADC_MAX_CODE), c.supplyNum as nat, c.supplyDen as nat)
  }

  function Ratio(n: nat, num: nat, den: nat): nat
    requires den > 0
  {
    Div(Product(n, num), den)
  }

  function Div(n: nat, d: nat): nat
    requires d > 0
  {
    n / d
  }

  // ---------------------------------------------------------------- bounds

  lemma DivBound(n: nat, d: nat, m: nat)
    requires d > 0 && n < (m + 1) * d
    ensures n / d <= m
  {
    if n / d > m {
      MulMono(m + 1, d, n / d, d);
    }
  }

  lemma {:induction false} SumBound(samples: seq<uint16>, channel: nat, frames: nat, hi: nat)
    requires channel < CHANNELS && frames <= Frames(samples)
    requires forall i :: 0 <= i < |samples| ==> samples[i] as nat <= hi
    ensures Sum(samples, channel, frames) <= hi * frames
  {
    if frames > 0 {
      SumBound(samples, channel, frames - 1, hi);
      assert hi * frames == hi * (frames - 1) + hi;
    }
  }

  lemma AverageBound(samples: seq<uint16>, channel: nat, hi: nat)
    requires channel < CHANNELS && Frames(samples) > 0 && forall i :: 0 <= i < |samples| ==> samples[i] as nat <= hi
    ensures Average(samples, channel) <= hi
  {
    var n := Frames(samples);
    SumBound(samples, channel, n, hi);
    assert (hi + 1) * n == hi * n + n;
    DivBound(Sum(samples, channel, n) + n / 2, n, hi);
  }

  lemma VddaBound(c: Calibration, reference: nat)
    requires 0 < reference
    ensures FACTORY_VDDA_MV * c.vrefintCode as nat <= MAX_VDDA && Vdda(c, reference) <= MAX_VDDA
  {
    var n := FACTORY_VDDA_MV * c.vrefintCode as nat;
    if reference == 1 {
      assert Vdda(c, 1) == n;
    } else {
      MulMono(MAX_VDDA + 1, 2, MAX_VDDA + 1, reference);
      DivBound(n + reference / 2, reference, MAX_VDDA);
    }
  }

  lemma NormalizedBound(code: nat, vdda: nat)
    requires code <= 0xFFFF && vdda <= MAX_VDDA
    ensures Product(code, vdda) <= 0xFFFF * MAX_VDDA && Normalized(code, vdda) <= MAX_NORMALIZED
    ensures code <= 4095 ==> Product(code, vdda) <= 4095 * MAX_VDDA && Normalized(code, vdda) <= MAX_NORMALIZED_12
  {
    MulMono(code, vdda, 0xFFFF, MAX_VDDA);
    if code <= 4095 {
      MulMono(code, vdda, 4095, MAX_VDDA);
    }
  }

  lemma SquareBound(d: int)
    requires -0x1_0000 < d <= MAX_NORMALIZED_12
    ensures Square(d) <= MAX_NORMALIZED_12 * MAX_NORMALIZED_12
  {
    MulMono(Abs(d), Abs(d), MAX_NORMALIZED_12, MAX_NORMALIZED_12);
    assert d * d == Abs(d) * Abs(d);
  }

  lemma QuotientBound(a: int, b: int)
    requires b != 0
    ensures Abs(Quotient(a, b)) <= Abs(a)
  {
    MulMono(Abs(a), 1, Abs(a), Abs(b));
    if Abs(a) > 0 {
      DivBound(Abs(a), Abs(b), Abs(a));
    }
  }

  // ---------------------------------------------------------------- in C's widths

  /** Promote, then multiply: the product of two 32-bit values fits 64 bits. */
  function WideProduct(a: uint32, b: uint32): (p: uint64)
    ensures p as nat == Product(a as nat, b as nat) && p <= 0xFFFF_FFFE_0000_0001
  {
    WideBound(a as nat, b as nat);
    a as uint64 * b as uint64
  }

  lemma WideBound(a: nat, b: nat)
    requires a <= 0xFFFF_FFFF && b <= 0xFFFF_FFFF
    ensures a * b == Product(a, b) && Product(a, b) <= 0xFFFF_FFFE_0000_0001
  {
    MulMono(a, b, 0xFFFF_FFFF, 0xFFFF_FFFF);
  }

  method NormalizeCode(code: uint32, vdda: uint32) returns (n: uint32)
    ensures n as nat == if Normalized(code as nat, vdda as nat) > 0xFFFF_FFFF then 0xFFFF_FFFF
      else Normalized(code as nat, vdda as nat)
  {
    hide Product;
    var scaled := WideProduct(code, vdda);
    scaled := scaled + 3300 / 2;
    scaled := scaled / 3300;
    if scaled > 0xFFFF_FFFF {
      return 0xFFFF_FFFF;
    }
    n := scaled as uint32;
  }

  /** Promote, then multiply: a signed 32-bit value by an unsigned one fits 64 bits signed. */
  function SignedProduct(a: int32, b: uint32): (p: int64)
    ensures p as int == if a >= 0 then Product(a as nat, b as nat)
      else -(Product((-(a as int)) as nat, b as nat) as int)
    ensures -0x7FFF_FFFF_8000_0000 <= p <= 0x7FFF_FFFF_8000_0000
  {
    SignedBound(a as int, b as nat);
    a as int64 * b as int64
  }

  lemma SignedBound(a: int, b: nat)
    requires Abs(a) <= 0x8000_0000 && b <= 0xFFFF_FFFF
    ensures a * b == if a >= 0 then Product(a, b) else -(Product(-a, b) as int)
    ensures -0x7FFF_FFFF_8000_0000 <= a * b <= 0x7FFF_FFFF_8000_0000
  {
    MulMono(Abs(a), b, 0x8000_0000, 0xFFFF_FFFF);
  }

  /** For every delta, numerator and non-zero denominator, not only reachable ones. */
  method VibrationSample(delta: int32, num: uint32, den: uint32) returns (mg: int16)
    requires den != 0
    ensures mg as int == Clamp16(Scaled(delta as int, num as nat, den as nat))
  {
    hide Product;
    var scaled := SignedProduct(delta, num);
    var denominator := den as int64;
    if scaled >= 0 {
      scaled := scaled + denominator / 2;
    } else {
      scaled := scaled - denominator / 2;
    }
    QuotientBound(scaled as int, denominator as int);
    SampleQuotient(delta as int, num as nat, den as nat);
    hide Quotient, Nearest;
    scaled := Quotient(scaled as int, denominator as int) as int64;
    mg := Clamp16(scaled as int) as int16;
  }

  lemma SampleQuotient(delta: int, num: nat, den: nat)
    requires den > 0
    ensures var n := if delta >= 0 then Product(delta, num) as int else -(Product(-delta, num) as int);
      Scaled(delta, num, den) == Quotient(if n >= 0 then n + den / 2 else n - den / 2, den)
  {
    hide Product;
    var p := Product(Abs(delta), num);
    if delta < 0 && p == 0 {
      DivBound(den / 2, den, 0);
    }
  }

  // ---------------------------------------------------------------- passes over a block

  predicate TouchesRail(samples: seq<uint16>, count: nat)
    requires count <= |samples|
  {
    exists i :: 0 <= i < count && (samples[i] == 0 || samples[i] as nat >= ADC_MAX_CODE)
  }

  lemma FrameIndex(samples: seq<uint16>, frame: nat, channel: nat)
    requires frame < Frames(samples) && channel < CHANNELS
    ensures frame * CHANNELS + channel < Frames(samples) * CHANNELS <= |samples|
  {
  }

  /** Channel totals and rail contact, frame by frame. */
  method ChannelSums(samples: seq<uint16>) returns (sums: seq<uint64>, saturated: bool)
    requires Frames(samples) <= FRAMES_PER_BLOCK
    ensures |sums| == CHANNELS
    ensures forall c :: 0 <= c < CHANNELS ==> sums[c] as nat == Sum(samples, c, Frames(samples))
    ensures saturated <==> TouchesRail(samples, Frames(samples) * CHANNELS)
  {
    sums, saturated := [0, 0, 0, 0, 0], false;
    var n := Frames(samples);
    var frame := 0;
    while frame < n
      invariant 0 <= frame <= n && |sums| == CHANNELS
      invariant forall c :: 0 <= c < CHANNELS ==> sums[c] as nat == Sum(samples, c, frame)
      invariant saturated <==> TouchesRail(samples, frame * CHANNELS)
    {
      hide Sum;
      var channel := 0;
      while channel < CHANNELS
        invariant 0 <= channel <= CHANNELS && |sums| == CHANNELS
        invariant forall c :: 0 <= c < CHANNELS ==>
          sums[c] as nat == Sum(samples, c, if c < channel then frame + 1 else frame)
        invariant saturated <==> TouchesRail(samples, frame * CHANNELS + channel)
      {
        FrameIndex(samples, frame, channel);
        SumBound(samples, channel, frame, 0xFFFF);
        SumUnfolds(samples, channel, frame);
        var sample := samples[frame * CHANNELS + channel];
        sums := sums[channel := sums[channel] + sample as uint64];
        if sample == 0 || sample as nat >= ADC_MAX_CODE {
          saturated := true;
        }
        channel := channel + 1;
      }
      frame := frame + 1;
    }
  }

  lemma SumUnfolds(samples: seq<uint16>, channel: nat, frame: nat)
    requires channel < CHANNELS && frame < Frames(samples)
    ensures Sum(samples, channel, frame + 1) == Sum(samples, channel, frame) + Code(samples, channel, frame)
  {
  }

  /** Rounded averages. */
  method Averages(samples: seq<uint16>, sums: seq<uint64>) returns (average: seq<uint32>)
    requires 0 < Frames(samples) <= FRAMES_PER_BLOCK && |sums| == CHANNELS
    requires forall c :: 0 <= c < CHANNELS ==> sums[c] as nat == Sum(samples, c, Frames(samples))
    ensures |average| == CHANNELS
    ensures forall c :: 0 <= c < CHANNELS ==> average[c] as nat == Average(samples, c) <= 0xFFFF
  {
    average := [0, 0, 0, 0, 0];
    var count := Frames(samples) as uint64;
    var channel := 0;
    while channel < CHANNELS
      invariant 0 <= channel <= CHANNELS && |average| == CHANNELS
      invariant forall c :: 0 <= c < channel ==> average[c] as nat == Average(samples, c) <= 0xFFFF
    {
      SumBound(samples, channel, Frames(samples), 0xFFFF);
      AverageBound(samples, channel, 0xFFFF);
      var rounded := sums[channel] + count / 2;
      rounded := rounded / count;
      average := average[channel := rounded as uint32];
      channel := channel + 1;
    }
  }

  function SampleMg(c: Calibration, vdda: nat, samples: seq<uint16>, frame: nat): int
    requires Accepted(c) && frame < Frames(samples)
  {
    Clamp16(Scaled(Delta(c, vdda, Code(samples, VIBRATION, frame)), c.vibrationNum as nat, c.vibrationDen as nat))
  }

  /** Every delta of the block is a signed 32-bit value. */
  predicate DeltasFit(c: Calibration, vdda: nat, samples: seq<uint16>) {
    forall f: nat :: f < Frames(samples) ==> Subtracts(Normalized(Code(samples, VIBRATION, f), vdda), c.vibrationZero)
  }

  function ToSigned(n: uint32): (r: int32)
    ensures r as int == Cast32(n as nat)
  {
    if n < 0x8000_0000 then n as int32 else (n as int - 0x1_0000_0000) as int32
  }

  /** Unsigned addition, which wraps. */
  function AddWrapping(a: uint64, b: uint64): (r: uint64)
    ensures r as nat == (a as nat + b as nat) % TWO64
  {
    ((a as int + b as int) % TWO64) as uint64
  }

  /** Sum of squared deltas, and the signal when one is wanted. */
  method VibrationPass(c: Calibration, vdda: uint32, samples: seq<uint16>, wanted: bool)
    returns (squares: uint64, mg: seq<int16>)
    requires Accepted(c) && vdda as nat <= MAX_VDDA && Frames(samples) <= FRAMES_PER_BLOCK
    requires DeltasFit(c, vdda as nat, samples)
    ensures squares as nat == SquareSum(c, vdda as nat, samples, Frames(samples)) % TWO64
    ensures |mg| == FRAMES_PER_BLOCK
    ensures forall f :: 0 <= f < FRAMES_PER_BLOCK ==>
      mg[f] as int == if wanted && f < Frames(samples) then SampleMg(c, vdda as nat, samples, f) else 0
  {
    squares, mg := 0, seq(FRAMES_PER_BLOCK, _ => 0);
    var n := Frames(samples);
    hide Normalized, Scaled, Square, Cast32, SquareSum, Accumulated;
    var frame := 0;
    NothingAccumulated(c, vdda as nat, samples);
    while frame < n
      invariant 0 <= frame <= n && |mg| == FRAMES_PER_BLOCK
      invariant Accumulated(squares as nat, SquareSum(c, vdda as nat, samples, frame))
      invariant forall f :: 0 <= f < FRAMES_PER_BLOCK ==>
        mg[f] as int == if wanted && f < frame then SampleMg(c, vdda as nat, samples, f) else 0
    {
      FrameIndex(samples, frame, VIBRATION);
      var raw := samples[frame * CHANNELS];
      assert raw as nat == Code(samples, VIBRATION, frame);
      NormalizedBound(raw as nat, vdda as nat);
      var normalized := NormalizeCode(raw as uint32, vdda);
      CastBound(normalized as nat);
      var delta := ToSigned(normalized) - c.vibrationZero as int32;
      assert delta as int == Delta(c, vdda as nat, Code(samples, VIBRATION, frame));
      if wanted {
        var sample := VibrationSample(delta, c.vibrationNum, c.vibrationDen);
        mg := mg[frame := sample];
      }
      AccumulateOne(c, vdda as nat, samples, frame, squares as nat);
      squares := AddWrapping(squares, SquareOf(delta));
      frame := frame + 1;
    }
    AccumulatedIs(squares as nat, SquareSum(c, vdda as nat, samples, n));
  }

  /** What a wrapping accumulator holds of a sum. */
  predicate Accumulated(squares: nat, sum: nat) {
    squares == sum % TWO64
  }

  lemma AccumulatedIs(squares: nat, sum: nat)
    requires Accumulated(squares, sum)
    ensures squares == sum % TWO64
  {
  }

  lemma NothingAccumulated(c: Calibration, vdda: nat, samples: seq<uint16>)
    ensures Accumulated(0, SquareSum(c, vdda, samples, 0))
  {
  }

  lemma AccumulateOne(c: Calibration, vdda: nat, samples: seq<uint16>, frame: nat, squares: nat)
    requires frame < Frames(samples) && Accumulated(squares, SquareSum(c, vdda, samples, frame))
    ensures Accumulated((squares + Square(Delta(c, vdda, Code(samples, VIBRATION, frame)))) % TWO64,
                        SquareSum(c, vdda, samples, frame + 1))
  {
    hide Square, Delta, Code;
  }

  lemma CastBound(n: nat)
    requires n < 0x1_0000_0000
    ensures -0x8000_0000 <= Cast32(n) < 0x8000_0000
  {
  }

  /** Promote before multiplying. */
  function SquareOf(delta: int32): (s: uint64)
    ensures s as nat == Square(delta as int)
  {
    SquareFits(delta as int);
    var wide := delta as int64;
    (wide * wide) as uint64
  }

  lemma SquareFits(d: int)
    requires -0x8000_0000 <= d < 0x8000_0000
    ensures 0 <= d * d <= 0x4000_0000_0000_0000
  {
    MulMono(Abs(d), Abs(d), 0x8000_0000, 0x8000_0000);
    assert d * d == Abs(d) * Abs(d);
  }
}
