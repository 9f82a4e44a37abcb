/** What the published engineering values mean, for every block of 12-bit codes and every
    accepted calibration. */
module AcquisitionTheorems {
  import opened SquareRoot
  import opened Acquisition
  import opened Processor

  // ---------------------------------------------------------------- averages and RMS

  lemma {:induction false} SumBetween(samples: seq<uint16>, channel: nat, frames: nat, lo: nat, hi: nat)
    requires channel < CHANNELS && frames <= Frames(samples)
    requires forall f: nat :: f < frames ==> lo <= Code(samples, channel, f) <= hi
    ensures lo * frames <= Sum(samples, channel, frames) <= hi * frames
  {
    if frames > 0 {
      SumBetween(samples, channel, frames - 1, lo, hi);
      assert lo * frames == lo * (frames - 1) + lo && hi * frames == hi * (frames - 1) + hi;
    }
  }

  lemma NearestBetween(n: nat, d: nat, lo: nat, hi: nat)
    requires d > 0 && lo * d <= n <= hi * d
    ensures lo <= Nearest(n, d) <= hi
  {
    DivBound(n + d / 2, d, hi);
    QuotientAtLeast(n + d / 2, d, lo);
  }

  lemma QuotientAtLeast(n: nat, d: nat, lo: nat)
    requires d > 0 && lo * d <= n
    ensures lo <= n / d
  {
    if n / d < lo {
      MulMono(n / d + 1, d, lo, d);
    }
  }

  /** A channel's average lies between its smallest and its largest code. */
  lemma AverageBetween(samples: seq<uint16>, channel: nat, lo: nat, hi: nat)
    requires channel < CHANNELS && Frames(samples) > 0
    requires forall f: nat :: f < Frames(samples) ==> lo <= Code(samples, channel, f) <= hi
    ensures lo <= Average(samples, channel) <= hi
  {
    SumBetween(samples, channel, Frames(samples), lo, hi);
    NearestBetween(Sum(samples, channel, Frames(samples)), Frames(samples), lo, hi);
  }

  lemma {:induction false} SquareSumBetween(c: Calibration, vdda: nat, samples: seq<uint16>, frames: nat, lo: nat,
                                            hi: nat)
    requires frames <= Frames(samples)
    requires forall f: nat :: f < frames ==> lo <= Abs(Delta(c, vdda, Code(samples, VIBRATION, f))) <= hi
    ensures (lo * lo) * frames <= SquareSum(c, vdda, samples, frames) <= (hi * hi) * frames
  {
    hide Delta, Square, Code, Abs;
    if frames > 0 {
      SquareSumBetween(c, vdda, samples, frames - 1, lo, hi);
      SquareBetween(Delta(c, vdda, Code(samples, VIBRATION, frames - 1)), lo, hi);
      Times(lo * lo, frames);
      Times(hi * hi, frames);
    }
  }

  lemma SquareBetween(d: int, lo: nat, hi: nat)
    requires lo <= Abs(d) <= hi
    ensures lo * lo <= Square(d) <= hi * hi
  {
    assert Square(d) == Abs(d) * Abs(d);
    MulMono(lo, lo, Abs(d), Abs(d));
    MulMono(Abs(d), Abs(d), hi, hi);
  }

  lemma Times(a: nat, n: nat)
    requires n > 0
    ensures a * n == a * (n - 1) + a
  {
  }

  /** For every block and every bounds lo and hi of its |delta|s, wrapping or not: the RMS
      code never exceeds hi, and reaches lo exactly when what the accumulator holds reaches
      the sum of that many squares of lo. */
  lemma RmsBetween(c: Calibration, vdda: nat, samples: seq<uint16>, lo: nat, hi: nat)
    requires Frames(samples) > 0
    requires forall f: nat :: f < Frames(samples) ==> lo <= Abs(Delta(c, vdda, Code(samples, VIBRATION, f))) <= hi
    ensures RmsCode(c, vdda, samples) <= hi
    ensures lo <= RmsCode(c, vdda, samples)
      <==> (lo * lo) * Frames(samples) <= SquareSum(c, vdda, samples, Frames(samples)) % TWO64
    ensures SquareSum(c, vdda, samples, Frames(samples)) < TWO64 ==> lo <= RmsCode(c, vdda, samples)
  {
    hide FloorSqrt, SquareSum, Delta;
    var n := Frames(samples);
    var sum := SquareSum(c, vdda, samples, n);
    SquareSumBetween(c, vdda, samples, n, lo, hi);
    SmallModulo(sum);
    RootOfMeanAtMost(sum % TWO64, n, hi);
    RootOfMeanAtLeast(sum % TWO64, n, lo);
  }

  lemma SmallModulo(n: nat)
    ensures n % TWO64 <= n
    ensures n < TWO64 ==> n % TWO64 == n
  {
  }

  /** For any block of 12-bit codes and any accepted calibration it never wraps, no signed
      subtraction overflows, and so the RMS code lies between the extreme |delta|s. */
  lemma RmsBetweenForTwelveBits(c: Calibration, vdda: nat, samples: seq<uint16>, lo: nat, hi: nat)
    requires TwelveBit(samples) && 0 < Frames(samples) <= FRAMES_PER_BLOCK && vdda <= MAX_VDDA
    requires forall f: nat :: f < Frames(samples) ==> lo <= Abs(Delta(c, vdda, Code(samples, VIBRATION, f))) <= hi
    ensures lo <= RmsCode(c, vdda, samples) <= hi
  {
    hide SquareSum, RmsCode, Delta;
    SquareSumFits(c, vdda, samples, Frames(samples));
    RmsBetween(c, vdda, samples, lo, hi);
  }

  lemma {:induction false} SquareSumFits(c: Calibration, vdda: nat, samples: seq<uint16>, frames: nat)
    requires TwelveBit(samples) && frames <= Frames(samples) && vdda <= MAX_VDDA
    ensures SquareSum(c, vdda, samples, frames) <= frames * (MAX_NORMALIZED_12 * MAX_NORMALIZED_12)
    ensures frames <= FRAMES_PER_BLOCK ==> SquareSum(c, vdda, samples, frames) < TWO64
  {
    if frames > 0 {
      SquareSumFits(c, vdda, samples, frames - 1);
      var code := Code(samples, VIBRATION, frames - 1);
      NormalizedBound(code, vdda);
      SquareBound(Delta(c, vdda, code));
      hide Square, Normalized;
    }
  }

  /** Blocks of 12-bit codes are defined: what C's arithmetic demands never excludes them. */
  lemma TwelveBitsAreDefined(c: Calibration, samples: seq<uint16>)
    requires TwelveBit(samples) && Frames(samples) > 0 && Average(samples, VREFINT) > 0
    ensures Defined(c, samples)
  {
    var vdda := SupplyVoltage(c, samples);
    VddaBound(c, Average(samples, VREFINT));
    AverageBound(samples, TEMPERATURE, 4095);
    AverageBound(samples, CURRENT, 4095);
    hide Average, Vdda, Normalized;
    NormalizedBound(Average(samples, TEMPERATURE), vdda);
    NormalizedBound(Average(samples, CURRENT), vdda);
    forall f: nat | f < Frames(samples)
      ensures Subtracts(Normalized(Code(samples, VIBRATION, f), vdda), c.vibrationZero)
    {
      NormalizedBound(Code(samples, VIBRATION, f), vdda);
    }
  }

  lemma RootOfMeanAtMost(sum: nat, n: nat, hi: nat)
    requires n > 0 && sum <= (hi * hi) * n
    ensures FloorSqrt(sum / n) <= hi
  {
    hide FloorSqrt;
    QuotientAtMost(sum, n, hi * hi);
    FloorSqrtMonotone(sum / n, hi * hi);
    FloorSqrtOfSquare(hi);
  }

  lemma RootOfMeanAtLeast(sum: nat, n: nat, lo: nat)
    requires n > 0
    ensures lo <= FloorSqrt(sum / n) <==> (lo * lo) * n <= sum
  {
    var root := FloorSqrt(sum / n);
    FloorIs(sum, n);
    hide FloorSqrt;
    if (lo * lo) * n <= sum {
      QuotientAtLeast(sum, n, lo * lo);
      FloorSqrtMonotone(lo * lo, sum / n);
      FloorSqrtOfSquare(lo);
    }
    if lo <= root {
      SquareGrows(lo, root);
      MulMono(lo * lo, n, sum / n, n);
    }
  }

  lemma QuotientAtMost(n: nat, d: nat, hi: nat)
    requires d > 0 && n <= hi * d
    ensures n / d <= hi
  {
    assert (hi + 1) * d == hi * d + d;
    DivBound(n, d, hi);
  }

  /** Five frames whose vibration code is 32769 and whose other codes are 1. */
  function WideBlock(): (samples: seq<uint16>)
    ensures |samples| == 25 && Frames(samples) == 5
    ensures forall f: nat :: f < 5 ==> Code(samples, VIBRATION, f) == 32769
    ensures forall channel: nat, f: nat :: 0 < channel < CHANNELS && f < 5 ==> Code(samples, channel, f) == 1
  {
    seq(25, i => if i % 5 == 0 then 32769 else 1)
  }

  /** The bound from below does fail for wider codes: with the largest factory reference code
      and no zero point this block is accepted and all its arithmetic is defined, every
      |delta| is 2147450881, and the RMS code is less. */
  lemma WideCodesWrap(c: Calibration, sampleRate: uint32, wanted: bool)
    requires Accepted(c) && c.vrefintCode == 0xFFFF && c.vibrationZero == 0 && (wanted ==> sampleRate != 0)
    ensures Verdict(c, WideBlock(), sampleRate, wanted) == OK && Defined(c, WideBlock())
    ensures forall f: nat :: f < 5 ==>
      Abs(Delta(c, SupplyVoltage(c, WideBlock()), Code(WideBlock(), VIBRATION, f))) == 2147450881
    ensures RmsCode(c, SupplyVoltage(c, WideBlock()), WideBlock()) < 2147450881
  {
    hide RmsCode, SquareSum;
    var samples := WideBlock();
    WideSupply(c);
    WideIsDefined(c);
    WideSquares(c);
    assert Normalized(32769, MAX_VDDA) == 2147516415;
    RmsBetween(c, MAX_VDDA, samples, 2147450881, 2147450881);
  }

  lemma WideSupply(c: Calibration)
    requires c.vrefintCode == 0xFFFF
    ensures Average(WideBlock(), VREFINT) == Average(WideBlock(), TEMPERATURE) == Average(WideBlock(), CURRENT) == 1
    ensures SupplyVoltage(c, WideBlock()) == MAX_VDDA
  {
    AverageBetween(WideBlock(), VREFINT, 1, 1);
    AverageBetween(WideBlock(), TEMPERATURE, 1, 1);
    AverageBetween(WideBlock(), CURRENT, 1, 1);
    hide Average;
  }

  lemma WideIsDefined(c: Calibration)
    requires c.vrefintCode == 0xFFFF && c.vibrationZero == 0
    ensures Average(WideBlock(), VREFINT) > 0 && Defined(c, WideBlock())
  {
    WideSupply(c);
    assert Normalized(1, MAX_VDDA) == 65535 && Normalized(32769, MAX_VDDA) == 2147516415;
    hide Average, Normalized;
  }

  /** What the accumulator holds falls short of five squares. */
  lemma WideSquares(c: Calibration)
    requires c.vibrationZero == 0
    ensures SquareSum(c, MAX_VDDA, WideBlock(), 5) % TWO64 < (2147450881 * 2147450881) * 5
  {
    var square := 2147450881 * 2147450881;
    assert Normalized(32769, MAX_VDDA) == 2147516415;
    assert Square(Delta(c, MAX_VDDA, 32769)) == square;
    FiveSquares(c, WideBlock(), square);
  }

  lemma FiveSquares(c: Calibration, samples: seq<uint16>, square: nat)
    requires |samples| == 25 && forall f: nat :: f < 5 ==> Code(samples, VIBRATION, f) == 32769
    requires Square(Delta(c, MAX_VDDA, 32769)) == square
    ensures SquareSum(c, MAX_VDDA, samples, 5) == 5 * square
  {
    hide Square, Delta, Code;
    assert SquareSum(c, MAX_VDDA, samples, 0) == 0;
    assert SquareSum(c, MAX_VDDA, samples, 1) == square;
    assert SquareSum(c, MAX_VDDA, samples, 2) == 2 * square;
    assert SquareSum(c, MAX_VDDA, samples, 3) == 3 * square;
    assert SquareSum(c, MAX_VDDA, samples, 4) == 4 * square;
  }

  /** And with a large zero point the subtraction of the same block is not defined in C. */
  lemma WideCodesUndefined(c: Calibration)
    requires c.vrefintCode == 0xFFFF && c.vibrationZero == 0xFFFF
    ensures Average(WideBlock(), VREFINT) > 0 && !Defined(c, WideBlock())
  {
    WideSupply(c);
    assert Normalized(32769, MAX_VDDA) == 2147516415;
    assert !Subtracts(Normalized(Code(WideBlock(), VIBRATION, 0), MAX_VDDA), c.vibrationZero);
    hide Average, Normalized;
  }

  // ---------------------------------------------------------------- signal samples

  /** The nearest quotient, and of two the larger: no other number is that. */
  lemma NearestIsNearest(n: nat, d: nat)
    requires d > 0
    ensures -(d as int) <= 2 * (n - d * Nearest(n, d)) < d
  {
    var q := Nearest(n, d);
    assert n + d / 2 == q * d + (n + d / 2) % d;
    assert q * d == d * q;
  }

  /** Clamping keeps what fits the published type, and gives the nearest end otherwise. */
  lemma ClampsAreNearest(v: int, n: nat)
    ensures -32768 <= Clamp16(v) <= 32767 && 0 <= ClampU16(n) <= 65535
    ensures -32768 <= v <= 32767 ==> Clamp16(v) == v
    ensures v > 32767 ==> Clamp16(v) == 32767
    ensures v < -32768 ==> Clamp16(v) == -32768
    ensures n <= 65535 ==> ClampU16(n) == n
    ensures n > 65535 ==> ClampU16(n) == 65535
  {
  }

  /** C's quotient: the signs give the sign, and the magnitude is the floor of the ratio. */
  lemma QuotientTruncates(a: int, b: int)
    requires b != 0
    ensures var q := Quotient(a, b);
      && Abs(q) * Abs(b) <= Abs(a) < (Abs(q) + 1) * Abs(b)
      && (q > 0 ==> (a > 0) == (b > 0)) && (q < 0 ==> (a > 0) != (b > 0))
  {
    var m := FloorOf(Abs(a), Abs(b));
    QuotientIs(a, b);
    FloorOfIs(Abs(a), Abs(b));
    hide Quotient, FloorOf;
  }

  function FloorOf(n: nat, d: nat): nat
    requires d > 0
  {
    n / d
  }

  lemma FloorOfIs(n: nat, d: nat)
    requires d > 0
    ensures FloorOf(n, d) * d <= n < (FloorOf(n, d) + 1) * d
    ensures n == 0 ==> FloorOf(n, d) == 0
  {
    FloorIs(n, d);
    if n == 0 {
      DivBound(0, d, 0);
    }
  }

  lemma QuotientIs(a: int, b: int)
    requires b != 0
    ensures Quotient(a, b)
      == if (a >= 0) == (b > 0) then FloorOf(Abs(a), Abs(b)) else -(FloorOf(Abs(a), Abs(b)) as int)
  {
  }

  /** A calibrated ratio is the floor of the exact one. */
  lemma RatioIsFloor(n: nat, num: nat, den: nat)
    requires den > 0
    ensures Ratio(n, num, den) * den <= n * num < (Ratio(n, num, den) + 1) * den
  {
    FloorIs(n * num, den);
  }

  /** Before clamping, a signal sample is the calibrated ratio rounded to nearest. */
  lemma SampleIsNearest(delta: int, num: nat, den: nat)
    requires den > 0
    ensures -(den as int) <= 2 * (delta * num - den * Scaled(delta, num, den)) <= den
  {
    NearestIsNearest(Product(Abs(delta), num), den);
    if delta < 0 {
      var p, q := Product(-delta, num), Nearest(Product(-delta, num), den);
      assert delta * num == -(p as int);
      assert den * -(q as int) == -(den * q);
    }
  }

  /** Rounding is symmetric: opposite deltas give opposite samples. */
  lemma SampleIsOdd(delta: int, num: nat, den: nat)
    requires den > 0
    ensures Scaled(-delta, num, den) == -Scaled(delta, num, den)
  {
    if delta == 0 {
      assert Product(0, num) == 0;
      DivBound(den / 2, den, 0);
    }
  }

  // ---------------------------------------------------------------- temperature and current

  /** The two factory points read 30 and 110 degrees exactly. */
  lemma TemperatureAtFactoryPoints(c: Calibration)
    requires Accepted(c)
    ensures Temperature(c, c.temperature30Code as int) == 3000
    ensures Temperature(c, c.temperature110Code as int) == 11000
  {
    var span := c.temperature110Code as int - c.temperature30Code as int;
    ExactQuotient(8000, span);
    DivBound(0, Abs(span), 0);
  }

  lemma ExactQuotient(a: nat, b: int)
    requires b != 0
    ensures Quotient(b * a, b) == a
  {
    var m := Abs(b);
    assert Abs(b * a) == m * a;
    QuotientAtLeast(m * a, m, a);
    assert m * a < (a + 1) * m;
    DivBound(m * a, m, a);
    if a > 0 {
      MulMono(1, 1, m, a);
    } else {
      assert m * a == 0;
    }
  }

  lemma QuotientMonotone(a: int, b: int, d: int)
    requires a <= b && d > 0
    ensures Quotient(a, d) <= Quotient(b, d)
  {
    QuotientIs(a, d);
    QuotientIs(b, d);
    if a >= 0 {
      FloorMonotone(a, b, d);
    } else if b < 0 {
      FloorMonotone(-b, -a, d);
    }
    hide Quotient, FloorOf;
  }

  lemma FloorMonotone(a: nat, b: nat, d: nat)
    requires a <= b && d > 0
    ensures FloorOf(a, d) <= FloorOf(b, d)
  {
    DivMonotone(a, b, d);
  }

  lemma DivMonotone(a: nat, b: nat, d: nat)
    requires a <= b && d > 0
    ensures a / d <= b / d
  {
    assert (a / d) * d <= a;
    QuotientAtLeast(b, d, a / d);
  }

  lemma QuotientNegates(a: int, d: int)
    requires d != 0
    ensures Quotient(-a, -d) == Quotient(a, d)
  {
    QuotientIs(a, d);
    QuotientIs(-a, -d);
    FloorOfIs(Abs(a), Abs(d));
    hide Quotient, FloorOf;
  }

  /** Temperature follows the code in the direction of the factory points. */
  lemma TemperatureMonotone(c: Calibration, low: int, high: int)
    requires Accepted(c) && low <= high
    ensures c.temperature30Code < c.temperature110Code ==> Temperature(c, low) <= Temperature(c, high)
    ensures c.temperature30Code > c.temperature110Code ==> Temperature(c, low) >= Temperature(c, high)
  {
    var zero := c.temperature30Code as int;
    var span := c.temperature110Code as int - zero;
    if span > 0 {
      QuotientMonotone((low - zero) * 8000, (high - zero) * 8000, span);
    } else {
      QuotientNegates((low - zero) * 8000, span);
      QuotientNegates((high - zero) * 8000, span);
      QuotientMonotone(-((high - zero) * 8000), -((low - zero) * 8000), -span);
    }
  }

  /** A current sensor at or below its zero point reads zero, never a wrapped value; above
      it the reading is the exact floor of the calibrated ratio. */
  lemma CurrentMeans(c: Calibration, code: int)
    requires Accepted(c)
    ensures code <= c.currentZero as int ==> Current(c, code) == 0
    ensures code > c.currentZero as int ==>
      var exact, den := (code - c.currentZero as int) * c.currentNum as nat, c.currentDen as nat;
      Current(c, code) * den <= exact < (Current(c, code) + 1) * den
  {
    var den := c.currentDen as nat;
    if code <= c.currentZero as int {
      assert Product(0, c.currentNum as nat) == 0;
      DivBound(0, den, 0);
    } else {
      var exact := (code - c.currentZero as int) * c.currentNum as nat;
      FloorIs(exact, den);
    }
  }

  lemma FloorIs(n: nat, d: nat)
    requires d > 0
    ensures (n / d) * d <= n < (n / d + 1) * d
  {
    assert n == (n / d) * d + n % d;
  }

  // ---------------------------------------------------------------- which code feeds which value

  /** So many frames of the same five codes: vibration, current, supply, temperature and
      reference, in the order in which the converter delivers them. */
  function SteadyBlock(n: nat, frame: seq<uint16>): (samples: seq<uint16>)
    requires |frame| == 5
    ensures |samples| == 5 * n && Frames(samples) == n
    ensures forall channel: nat, f: nat :: channel < 5 && f < n ==> Code(samples, channel, f) == frame[channel] as nat
  {
    seq(5 * n, i requires 0 <= i < 5 * n => frame[i % 5])
  }

  lemma SteadyAverage(n: nat, frame: seq<uint16>, channel: nat)
    requires |frame| == 5 && n > 0 && channel < 5
    ensures Average(SteadyBlock(n, frame), channel) == frame[channel] as nat
  {
    AverageBetween(SteadyBlock(n, frame), channel, frame[channel] as nat, frame[channel] as nat);
  }

  lemma SteadyRms(c: Calibration, vdda: nat, n: nat, frame: seq<uint16>)
    requires |frame| == 5 && n > 0
    ensures var d := Abs(Delta(c, vdda, frame[0] as nat));
      (d * d) * n < TWO64 ==> RmsCode(c, vdda, SteadyBlock(n, frame)) == d
  {
    var samples, d := SteadyBlock(n, frame), Abs(Delta(c, vdda, frame[0] as nat));
    hide RmsCode, Delta;
    SquareSumBetween(c, vdda, samples, n, d, d);
    RmsBetween(c, vdda, samples, d, d);
  }

  /** The supply voltage and a normalized code, spelled out: rounded to nearest, and the
      latter converted to a signed 32-bit value. */
  function SteadyVdda(c: Calibration, frame: seq<uint16>): nat
    requires |frame| == 5 && frame[4] > 0
  {
    Nearest(3300 * c.vrefintCode as nat, frame[4] as nat)
  }

  function SteadyCode(c: Calibration, frame: seq<uint16>, channel: nat): int
    requires |frame| == 5 && frame[4] > 0 && channel < 5
  {
    var code := Nearest(Product(frame[channel] as nat, SteadyVdda(c, frame)), 3300);
    if code < 0x8000_0000 then code else code - 0x1_0000_0000
  }

  lemma SteadySupply(c: Calibration, n: nat, frame: seq<uint16>)
    requires |frame| == 5 && n > 0 && frame[4] > 0
    ensures Average(SteadyBlock(n, frame), VREFINT) > 0
    ensures SupplyVoltage(c, SteadyBlock(n, frame)) == SteadyVdda(c, frame)
    ensures forall channel: nat :: channel < 5 ==>
      && Average(SteadyBlock(n, frame), channel) == frame[channel] as nat
      && Cast32(Normalized(frame[channel] as nat, SteadyVdda(c, frame))) == SteadyCode(c, frame, channel)
  {
    forall channel: nat | channel < 5
      ensures Average(SteadyBlock(n, frame), channel) == frame[channel] as nat
    {
      SteadyAverage(n, frame, channel);
    }
    hide Average;
  }

  lemma MeasuredParts(c: Calibration, samples: seq<uint16>, aux: Auxiliary, vdda: nat)
    requires Accepted(c) && Frames(samples) > 0 && Average(samples, VREFINT) > 0 && vdda == SupplyVoltage(c, samples)
    ensures var m := Measured(c, samples, aux);
      && m.temperatureCentiC == Clamp16(Temperature(c, Cast32(Normalized(Average(samples, 3), vdda))))
      && m.currentMa == ClampU16(Current(c, Cast32(Normalized(Average(samples, 1), vdda))))
      && m.supplyMv == ClampU16(SupplyMv(c, Average(samples, 2), vdda))
      && m.vibrationMgRms == ClampU16(Ratio(RmsCode(c, vdda, samples), c.vibrationNum as nat, c.vibrationDen as nat))
      && m.rpm == (if aux.rpmValid then aux.rpm as nat else 0)
      && m.status == StatusOf(c, samples, aux)
  {
    hide Temperature, Current, SupplyMv, Ratio, RmsCode, StatusOf, Clamp16, ClampU16, Cast32, Normalized, Average;
  }

  /** The conversions, from a code to its value. */
  lemma ConversionsAre(c: Calibration, code: int, pin: nat, vdda: nat)
    requires Accepted(c)
    ensures Temperature(c, code)
      == 3000 + Quotient((code - c.temperature30Code as int) * 8000,
                         c.temperature110Code as int - c.temperature30Code as int)
    ensures Current(c, code) == Ratio(Positive(code - c.currentZero as int), c.currentNum as nat, c.currentDen as nat)
    ensures SupplyMv(c, pin, vdda) == Ratio(Ratio(pin, vdda, 4095), c.supplyNum as nat, c.supplyDen as nat)
  {
    hide Quotient, Ratio;
  }

  /** Every measurement of a steady block, from its own code and its own calibration. */
  lemma SteadyMeasurements(c: Calibration, aux: Auxiliary, n: nat, frame: seq<uint16>)
    requires Accepted(c) && |frame| == 5 && n > 0 && frame[4] > 0
    ensures Average(SteadyBlock(n, frame), VREFINT) > 0
    ensures var m := Measured(c, SteadyBlock(n, frame), aux);
      && m.rpm == (if aux.rpmValid then aux.rpm as nat else 0)
      && m.supplyMv
         == ClampU16(Ratio(Ratio(frame[2] as nat, SteadyVdda(c, frame), 4095), c.supplyNum as nat, c.supplyDen as nat))
      && m.currentMa == ClampU16(Ratio(Positive(SteadyCode(c, frame, 1) - c.currentZero as int),
                                       c.currentNum as nat, c.currentDen as nat))
      && m.temperatureCentiC
         == Clamp16(3000 + Quotient((SteadyCode(c, frame, 3) - c.temperature30Code as int) * 8000,
                                    c.temperature110Code as int - c.temperature30Code as int))
  {
    hide Average, Normalized, Quotient, Clamp16, ClampU16, SteadyCode, SteadyVdda, Cast32, StatusOf, RmsCode, Ratio,
      SupplyVoltage, Temperature, Current, SupplyMv, Positive, SteadyBlock, Measured;
    SteadySupply(c, n, frame);
    MeasuredParts(c, SteadyBlock(n, frame), aux, SteadyVdda(c, frame));
    ConversionsAre(c, SteadyCode(c, frame, 3), frame[2] as nat, SteadyVdda(c, frame));
    ConversionsAre(c, SteadyCode(c, frame, 1), frame[2] as nat, SteadyVdda(c, frame));
  }

  function Positive(d: int): nat {
    if d < 0 then 0 else d
  }

  /** Its vibration: the calibrated absolute delta, and the same signed sample in every
      frame. */
  lemma SteadyVibration(c: Calibration, aux: Auxiliary, n: nat, frame: seq<uint16>)
    requires Accepted(c) && |frame| == 5 && n > 0 && frame[4] > 0
    ensures Average(SteadyBlock(n, frame), VREFINT) > 0
    ensures var d := SteadyCode(c, frame, 0) - c.vibrationZero as int;
      (Abs(d) * Abs(d)) * n < TWO64 ==>
        Measured(c, SteadyBlock(n, frame), aux).vibrationMgRms
          == ClampU16(Ratio(Abs(d), c.vibrationNum as nat, c.vibrationDen as nat))
    ensures var d := SteadyCode(c, frame, 0) - c.vibrationZero as int;
      forall f: nat :: f < n ==>
        SampleMg(c, SupplyVoltage(c, SteadyBlock(n, frame)), SteadyBlock(n, frame), f)
          == Clamp16(Scaled(d, c.vibrationNum as nat, c.vibrationDen as nat))
  {
    hide Average, Normalized, Clamp16, ClampU16, SteadyCode, SteadyVdda, Cast32, StatusOf, RmsCode, Ratio, Scaled, Abs,
      SupplyVoltage, Measured;
    SteadySupply(c, n, frame);
    MeasuredParts(c, SteadyBlock(n, frame), aux, SteadyVdda(c, frame));
    SteadyRms(c, SteadyVdda(c, frame), n, frame);
    assert Delta(c, SteadyVdda(c, frame), frame[0] as nat) == SteadyCode(c, frame, 0) - c.vibrationZero as int;
  }

  /** A status word: valid always, saturated and stale as said, and otherwise what was given. */
  predicate StatusBits(status: bv16, given: bv16, saturated: bool, stale: bool) {
    && status & 0x0001 != 0
    && (status & 0x0002 != 0 <==> saturated || given & 0x0002 != 0)
    && (status & 0x0004 != 0 <==> stale || given & 0x0004 != 0)
    && status & 0xFFF8 == given & 0xFFF8
  }

  lemma FlagBits(given: bv16)
    ensures StatusBits(Flagged(given, 1), given, false, false)
    ensures StatusBits(Flagged(Flagged(given, 1), 2), given, true, false)
    ensures StatusBits(Flagged(Flagged(given, 1), 4), given, false, true)
    ensures StatusBits(Flagged(Flagged(Flagged(given, 1), 4), 2), given, true, true)
  {
    hide StatusBits, Flagged;
    OnlyValid(given);
    AlsoSaturated(Flagged(given, 1), given, false);
    AlsoStale(Flagged(given, 1), given);
    AlsoSaturated(Flagged(Flagged(given, 1), 4), given, true);
  }

  lemma OnlyValid(given: bv16)
    ensures StatusBits(Flagged(given, 1), given, false, false)
  {
    ValidSets(given);
    hide Flagged;
  }

  lemma AlsoSaturated(status: bv16, given: bv16, stale: bool)
    requires StatusBits(status, given, false, stale)
    ensures StatusBits(Flagged(status, 2), given, true, stale)
  {
    SaturatedSets(status);
    hide Flagged;
  }

  lemma AlsoStale(status: bv16, given: bv16)
    requires StatusBits(status, given, false, false)
    ensures StatusBits(Flagged(status, 4), given, false, true)
  {
    StaleSets(status);
    hide Flagged;
  }

  lemma ValidSets(x: bv16)
    ensures Flagged(x, 1) & 1 != 0 && Flagged(x, 1) & 2 == x & 2 && Flagged(x, 1) & 4 == x & 4
    ensures Flagged(x, 1) & 0xFFF8 == x & 0xFFF8
  {
  }

  lemma SaturatedSets(x: bv16)
    ensures Flagged(x, 2) & 2 != 0 && Flagged(x, 2) & 1 == x & 1 && Flagged(x, 2) & 4 == x & 4
    ensures Flagged(x, 2) & 0xFFF8 == x & 0xFFF8
  {
  }

  lemma StaleSets(x: bv16)
    ensures Flagged(x, 4) & 4 != 0 && Flagged(x, 4) & 1 == x & 1 && Flagged(x, 4) & 2 == x & 2
    ensures Flagged(x, 4) & 0xFFF8 == x & 0xFFF8
  {
  }

  /** Saturated iff some code touches a rail, stale iff there is no valid speed; calibration
      and hardware contribute the rest. */
  lemma StatusMeans(c: Calibration, samples: seq<uint16>, aux: Auxiliary, saturated: bool)
    requires saturated <==> exists i :: 0 <= i < |samples| && (samples[i] == 0 || samples[i] >= 4095)
    ensures StatusBits(StatusOf(c, samples, aux), Flagged(c.baseStatus, aux.hardwareStatus), saturated, !aux.rpmValid)
  {
    RailIs(samples);
    hide Flagged, StatusBits, TouchesRail;
    FlagBits(Flagged(c.baseStatus, aux.hardwareStatus));
  }

  lemma RailIs(samples: seq<uint16>)
    ensures TouchesRail(samples, |samples|)
      <==> exists i :: 0 <= i < |samples| && (samples[i] == 0 || samples[i] >= 4095)
  {
  }

  /** A reference of zero: fewer than half a code per frame. */
  lemma AverageIsZeroIff(samples: seq<uint16>, channel: nat)
    requires channel < CHANNELS && Frames(samples) > 0
    ensures Average(samples, channel) == 0 <==> 2 * Sum(samples, channel, Frames(samples)) < Frames(samples)
  {
    var sum, n := Sum(samples, channel, Frames(samples)), Frames(samples);
    if sum + n / 2 < n {
      DivBound(sum + n / 2, n, 0);
    } else {
      QuotientAtLeast(sum + n / 2, n, 1);
    }
  }

  /** Which blocks are refused, and why: by the calibration, the length, or a reference that
      averages to zero, in this order. */
  lemma VerdictMeans(c: Calibration, samples: seq<uint16>, sampleRate: uint32, wanted: bool)
    ensures var r := Verdict(c, samples, sampleRate, wanted);
      var usable := c.vrefintCode != 0 && c.temperature30Code != c.temperature110Code && c.vibrationDen != 0
        && c.currentDen != 0 && c.supplyDen != 0;
      var sized := 0 < |samples| <= 320 && |samples| % 5 == 0 && (wanted ==> sampleRate != 0);
      && (r == ERROR_CALIBRATION <==> !usable)
      && (r == ERROR_LENGTH <==> usable && !sized)
      && (r == ERROR_REFERENCE <==> usable && sized && 2 * Sum(samples, 4, |samples| / 5) < |samples| / 5)
      && (r == OK <==> usable && sized && 2 * Sum(samples, 4, |samples| / 5) >= |samples| / 5)
  {
    if 0 < |samples| && |samples| % 5 == 0 {
      AverageIsZeroIff(samples, 4);
    }
    hide Average, Sum;
  }
}
