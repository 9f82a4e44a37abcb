/** The restoring square root over 64-bit unsigned integers.  Every operation is on a type
    of the C width, so the verifier also shows that none of them wraps. */
module SquareRoot {
  newtype uint64 = x: int | 0 <= x < 0x1_0000_0000_0000_0000

  const UINT32_MAX: uint64 := 0xFFFF_FFFF

  /** The simple definition: count up. */
  function FloorSqrt(v: nat): (r: nat)
    ensures IsFloorSqrt(r, v)
  {
    if v == 0 then 0
    else
      var r := FloorSqrt(v - 1);
      if (r + 1) * (r + 1) <= v then r + 1 else r
  }

  predicate IsFloorSqrt(r: nat, v: nat) {
    r * r <= v < (r + 1) * (r + 1)
  }

  lemma SquareGrows(a: nat, b: nat)
    ensures a <= b <==> a * a <= b * b
    ensures a < b <==> a * a < b * b
  {
    if a <= b {
      MulMono(a, a, b, b);
    } else {
      MulMono(b + 1, b + 1, a, a);
    }
    if a < b {
      MulMono(a + 1, a + 1, b, b);
    } else {
      MulMono(b, b, a, a);
    }
  }

  lemma MulMono(a: nat, b: nat, a': nat, b': nat)
    requires a <= a' && b <= b'
    ensures a * b <= a' * b'
  {
    assert a * b <= a' * b;
  }

  lemma FloorSqrtIsUnique(r: nat, v: nat)
    requires IsFloorSqrt(r, v)
    ensures r == FloorSqrt(v)
  {
    var q := FloorSqrt(v);
    hide FloorSqrt;
    if r < q {
      SquareGrows(r + 1, q);
    } else if q < r {
      SquareGrows(q + 1, r);
    }
  }

  lemma FloorSqrtMonotone(v: nat, w: nat)
    requires v <= w
    ensures FloorSqrt(v) <= FloorSqrt(w)
  {
    var r, q := FloorSqrt(v), FloorSqrt(w);
    hide FloorSqrt;
    if q < r {
      SquareGrows(q + 1, r);
    }
  }

  lemma FloorSqrtOfSquare(a: nat)
    ensures FloorSqrt(a * a) == a
  {
    SquareGrows(a, a + 1);
    FloorSqrtIsUnique(a, a * a);
  }

  /** The loop's meaning: root p is settled down to digit b, with bit == b * b. */
  ghost predicate Restoring(v: nat, remainder: nat, result: nat, bit: nat, p: nat, b: nat) {
    && bit == b * b && result == 2 * (p * b) && p * p <= v && remainder == v - p * p
    && v < (p + 2 * b) * (p + 2 * b)
    && p + 2 * b <= 0x1_0000_0000
  }

  ghost predicate IsPow2(b: nat) {
    b == 1 || (b > 0 && b % 2 == 0 && IsPow2(b / 2))
  }

  /** What one digit decides. */
  lemma Digit(v: nat, remainder: nat, result: nat, bit: nat, p: nat, b: nat)
    requires Restoring(v, remainder, result, bit, p, b) && b > 0
    ensures result + bit < 0x1_0000_0000_0000_0000
    ensures remainder >= result + bit <==> (p + b) * (p + b) <= v
    ensures (p + b) * (p + b) == p * p + result + bit
  {
    assert (p + b) * (p + b) == p * p + 2 * (p * b) + b * b;
    MulMono(p + b, p + b, 0xFFFF_FFFF, 0xFFFF_FFFF);
  }

  lemma HalfDigit(v: nat, remainder: nat, result: nat, bit: nat, p: nat, b: nat)
    requires Restoring(v, remainder, result, bit, p, b) && b > 1 && b % 2 == 0
    ensures bit / 4 > 0
    ensures var (r', p') := if remainder >= result + bit then (remainder - (result + bit), p + b) else (remainder, p);
      Restoring(v, r', result / 2 + (if remainder >= result + bit then bit else 0), bit / 4, p', b / 2)
  {
    var h := b / 2;
    assert b == 2 * h;
    MulMono(1, 1, h, h);
    Digit(v, remainder, result, bit, p, b);
    assert bit == 4 * (h * h);
    assert result / 2 == p * b && p * b == 2 * (p * h) by {
      assert p * (2 * h) == 2 * (p * h);
    }
    assert (p + b) * h == p * h + b * h && b * h == 2 * (h * h);
    assert p + 2 * b == (p + b) + 2 * h && p + b == p + 2 * h;
  }

  lemma LastDigit(v: nat, remainder: nat, result: nat, bit: nat, p: nat)
    requires Restoring(v, remainder, result, bit, p, 1)
    ensures bit == 1
    ensures var r := if remainder >= result + bit then result / 2 + bit else result / 2;
      r == FloorSqrt(v) && r < 0x1_0000_0000
  {
    Digit(v, remainder, result, bit, p, 1);
    var r := if remainder >= result + bit then p + 1 else p;
    assert result / 2 == p && bit == 1;
    FloorSqrtIsUnique(r, v);
  }

  /** The exact floor square root of every 64-bit value. */
  method ISqrt(value: uint64) returns (root: uint64)
    ensures root as int == FloorSqrt(value as int) && root <= UINT32_MAX
  {
    var remainder, result: uint64, bit: uint64 := value, 0, 0x4000_0000_0000_0000;
    ghost var p: nat, b: nat := 0, 0x8000_0000;
    ghost var v: nat := value as int;
    Start(v);
    hide State, SkippingState;
    while bit > remainder
      invariant SkippingState(v, bit as int, b)
      decreases bit
    {
      SkipDigit(v, bit as int, b);
      b := b / 2;
      bit := bit / 4;
    }
    SkippingEnds(v, bit as int, b);
    while bit != 0
      invariant State(v, remainder as int, result as int, bit as int, p, b)
    {
      DigitStep(v, remainder as int, result as int, bit as int, p, b);
      if remainder >= result + bit {
        p := p + b;
        remainder := remainder - (result + bit);
        result := result / 2 + bit;
      } else {
        result := result / 2;
      }
      b := b / 2;
      bit := bit / 4;
    }
    Finished(v, remainder as int, result as int, p, b);
    if result > UINT32_MAX {
      return UINT32_MAX;
    }
    root := result;
  }

  ghost predicate State(v: nat, remainder: nat, result: nat, bit: nat, p: nat, b: nat) {
    if bit == 0 then result == FloorSqrt(v) && result < 0x1_0000_0000
    else IsPow2(b) && Restoring(v, remainder, result, bit, p, b)
  }

  ghost predicate SkippingState(v: nat, bit: nat, b: nat) {
    if bit == 0 then v == 0 else IsPow2(b) && Restoring(v, v, 0, bit, 0, b)
  }

  lemma Start(v: nat)
    requires v < 0x1_0000_0000_0000_0000
    ensures SkippingState(v, 0x4000_0000_0000_0000, 0x8000_0000)
  {
    StartDigits();
  }

  lemma SkippingEnds(v: nat, bit: nat, b: nat)
    ensures SkippingState(v, bit, b) ==> State(v, v, 0, bit, 0, b)
  {
  }

  lemma Finished(v: nat, remainder: nat, result: nat, p: nat, b: nat)
    requires State(v, remainder, result, 0, p, b)
    ensures result == FloorSqrt(v) && result < 0x1_0000_0000
  {
  }

  /** The state after one pass through the second loop. */
  ghost predicate Next(v: nat, remainder: nat, result: nat, bit: nat, p: nat, b: nat) {
    if remainder >= result + bit
    then State(v, remainder - (result + bit), result / 2 + bit, bit / 4, p + b, b / 2)
    else State(v, remainder, result / 2, bit / 4, p, b / 2)
  }

  lemma HalfStep(v: nat, remainder: nat, result: nat, bit: nat, p: nat, b: nat)
    requires Restoring(v, remainder, result, bit, p, b) && IsPow2(b) && b > 1
    ensures Next(v, remainder, result, bit, p, b)
  {
    Pow2Step(b);
    hide Restoring, FloorSqrt, IsPow2;
    HalfDigit(v, remainder, result, bit, p, b);
  }

  lemma LastStep(v: nat, remainder: nat, result: nat, bit: nat, p: nat)
    requires Restoring(v, remainder, result, bit, p, 1)
    ensures Next(v, remainder, result, bit, p, 1)
  {
    hide Restoring, FloorSqrt, IsPow2;
    LastDigit(v, remainder, result, bit, p);
    assert bit / 4 == 0;
  }

  lemma DigitStep(v: nat, remainder: nat, result: nat, bit: nat, p: nat, b: nat)
    requires State(v, remainder, result, bit, p, b) && bit != 0
    ensures b > 0 && result + bit < 0x1_0000_0000_0000_0000
    ensures Next(v, remainder, result, bit, p, b)
  {
    hide Restoring, FloorSqrt, IsPow2, Next;
    Pow2Step(b);
    SumFits(v, remainder, result, bit, p, b);
    if b > 1 {
      HalfStep(v, remainder, result, bit, p, b);
    } else {
      LastStep(v, remainder, result, bit, p);
    }
  }

  lemma SumFits(v: nat, remainder: nat, result: nat, bit: nat, p: nat, b: nat)
    requires Restoring(v, remainder, result, bit, p, b) && b > 0
    ensures result + bit < 0x1_0000_0000_0000_0000
  {
    Digit(v, remainder, result, bit, p, b);
  }

  lemma Sixteenfold(b: nat)
    requires IsPow2(b)
    ensures IsPow2(2 * b) && IsPow2(16 * b)
  {
    assert IsPow2(2 * b) && IsPow2(4 * b) && IsPow2(8 * b);
  }

  lemma StartDigits()
    ensures IsPow2(0x8000_0000)
  {
    assert IsPow2(1);
    hide IsPow2;
    Sixteenfold(1);
    Sixteenfold(0x10);
    Sixteenfold(0x100);
    Sixteenfold(0x1000);
    Sixteenfold(0x1_0000);
    Sixteenfold(0x10_0000);
    Sixteenfold(0x100_0000);
    Sixteenfold(0x1000_0000);
    Sixteenfold(0x2000_0000);
    Sixteenfold(0x4000_0000);
  }

  /** Digits larger than the whole value are zero. */
  lemma SkipDigit(v: nat, bit: nat, b: nat)
    requires SkippingState(v, bit, b) && bit > v
    ensures b > 0 && SkippingState(v, bit / 4, b / 2)
  {
    hide IsPow2, Restoring;
    Pow2Step(b);
    if b > 1 {
      SkipHalf(v, bit, b, b / 2);
    } else {
      SkipLast(v, bit);
    }
  }

  lemma SkipHalf(v: nat, bit: nat, b: nat, h: nat)
    requires Restoring(v, v, 0, bit, 0, b) && bit > v && b == 2 * h
    ensures Restoring(v, v, 0, bit / 4, 0, h)
  {
    assert bit == 4 * (h * h);
  }

  lemma SkipLast(v: nat, bit: nat)
    ensures Restoring(v, v, 0, bit, 0, 1) && bit > v ==> bit / 4 == 0 && v == 0
  {
    hide Restoring;
    if Restoring(v, v, 0, bit, 0, 1) {
      BitIs(v, bit, 1);
    }
  }

  lemma BitIs(v: nat, bit: nat, b: nat)
    requires Restoring(v, v, 0, bit, 0, b)
    ensures bit == b * b
  {
  }

  lemma Pow2Step(b: nat)
    requires IsPow2(b)
    ensures b > 0 && (b > 1 ==> b % 2 == 0 && IsPow2(b / 2))
  {
  }
}
