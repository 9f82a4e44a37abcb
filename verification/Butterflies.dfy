/** The butterfly stages: what each leaves in the arrays, and why the last leaves the
    discrete Fourier transform of the input. */
module Butterflies {
  import opened Rings
  import opened Fft

  // ---------------------------------------------------------------- indices and exponents

  /** The t-th index of an arithmetic progression. */
  function Index(start: nat, stride: nat, t: nat): nat {
    start + t * stride
  }

  /** The exponent of its term at frequency k. */
  function Exponent(stride: nat, t: nat, k: nat): nat {
    stride * t * k
  }

  /** A multiple of a stride: a twiddle index, or where a block starts. */
  function Scaled(stride: nat, n: nat): nat {
    stride * n
  }

  lemma EvenTerm(start: nat, stride: nat, t: nat, k: nat)
    ensures Index(start, stride, 2 * t) == Index(start, 2 * stride, t)
    ensures Exponent(stride, 2 * t, k) == Exponent(2 * stride, t, k)
  {
    assert stride * (2 * t) == (2 * stride) * t;
  }

  lemma OddTerm(start: nat, stride: nat, t: nat, k: nat)
    ensures Index(start, stride, 2 * t + 1) == Index(start + stride, 2 * stride, t)
    ensures Exponent(stride, 2 * t + 1, k) == Exponent(2 * stride, t, k) + Scaled(stride, k)
  {
    var e := (2 * stride) * t;
    assert stride * (2 * t + 1) == e + stride;
    MulAdd(e, stride, k);
  }

  lemma MulAdd(a: nat, b: nat, k: nat)
    ensures (a + b) * k == a * k + b * k && k * (a + b) == k * a + k * b
  {
  }

  lemma ShiftedTerm(stride: nat, count: nat, t: nat, k: nat)
    ensures Exponent(stride, t, k + count) == Exponent(stride, t, k) + (stride * count) * t
  {
    MulAdd(k, count, stride * t);
    assert stride * t * count == (stride * count) * t;
  }

  // ---------------------------------------------------------------- transforms of subsequences

  /** The terms of the transform of x(start), x(start + stride), … at frequency k. */
  function Terms<T>(r: Ring<T>, w: T, x: nat -> T, start: nat, stride: nat, k: nat): nat -> T {
    (t: nat) => r.mul(x(Index(start, stride, t)), Pow(r, w, Exponent(stride, t, k)))
  }

  function Part<T>(r: Ring<T>, w: T, x: nat -> T, start: nat, stride: nat, count: nat, k: nat): T {
    Sum(r, Terms(r, w, x, start, stride, k), count)
  }

  /** A finite block of samples as a total function. */
  function SampleAt<T>(r: Ring<T>, v: seq<T>): nat -> T {
    (t: nat) => if t < |v| then v[t] else r.zero
  }

  /** The definition: X[k] is the sum of x[n] w^(n k). */
  function Dft<T>(r: Ring<T>, w: T, v: seq<T>, k: nat): T {
    Sum(r, (n: nat) => r.mul(SampleAt(r, v)(n), Pow(r, w, n * k)), |v|)
  }

  lemma DftIsSum<T(!new)>(r: Ring<T>, w: T, v: seq<T>, k: nat, f: nat -> T)
    requires forall n: nat :: n < |v| ==> f(n) == r.mul(v[n], Pow(r, w, n * k))
    ensures Dft(r, w, v, k) == Sum(r, f, |v|)
  {
    hide Pow;
    var g: nat -> T := (n: nat) => r.mul(SampleAt(r, v)(n), Pow(r, w, n * k));
    forall n: nat | n < |v| ensures f(n) == g(n) {
      assert SampleAt(r, v)(n) == v[n];
    }
    SumEqual(r, f, g, |v|);
    assert Dft(r, w, v, k) == Sum(r, g, |v|);
  }

  /** A transform splits into those of its even and odd samples. */
  lemma PartSplits<T(!new)>(r: Ring<T>, w: T, x: nat -> T, start: nat, stride: nat, count: nat, k: nat)
    requires Valid(r)
    ensures Part(r, w, x, start, stride, 2 * count, k)
      == r.add(Part(r, w, x, start, 2 * stride, count, k),
               r.mul(Part(r, w, x, start + stride, 2 * stride, count, k), Pow(r, w, Scaled(stride, k))))
  {
    var all := Terms(r, w, x, start, stride, k);
    var even := Terms(r, w, x, start, 2 * stride, k);
    var shifted := Terms(r, w, x, start + stride, 2 * stride, k);
    var turn := Pow(r, w, Scaled(stride, k));
    var odd: nat -> T := (t: nat) => r.mul(shifted(t), turn);
    hide *;
    forall t: nat | t < count ensures even(t) == all(2 * t) && odd(t) == all(2 * t + 1) {
      SplitTerm(r, w, x, start, stride, k, t);
    }
    SumEvenOdd(r, all, even, odd, count);
    SumScale(r, shifted, odd, turn, count);
    PartIsSum(r, w, x, start, stride, 2 * count, k);
    PartIsSum(r, w, x, start, 2 * stride, count, k);
    PartIsSum(r, w, x, start + stride, 2 * stride, count, k);
  }

  lemma PartIsSum<T>(r: Ring<T>, w: T, x: nat -> T, start: nat, stride: nat, count: nat, k: nat)
    ensures Part(r, w, x, start, stride, count, k) == Sum(r, Terms(r, w, x, start, stride, k), count)
  {
    hide Sum, Terms;
  }

  lemma TermIs<T>(r: Ring<T>, w: T, x: nat -> T, start: nat, stride: nat, k: nat, t: nat)
    ensures Terms(r, w, x, start, stride, k)(t) == r.mul(x(Index(start, stride, t)), Pow(r, w, Exponent(stride, t, k)))
  {
    hide Index, Exponent, Pow;
  }

  lemma SplitTerm<T(!new)>(r: Ring<T>, w: T, x: nat -> T, start: nat, stride: nat, k: nat, t: nat)
    requires Valid(r)
    ensures Terms(r, w, x, start, 2 * stride, k)(t) == Terms(r, w, x, start, stride, k)(2 * t)
    ensures r.mul(Terms(r, w, x, start + stride, 2 * stride, k)(t), Pow(r, w, Scaled(stride, k)))
      == Terms(r, w, x, start, stride, k)(2 * t + 1)
  {
    hide *;
    EvenTerm(start, stride, t, k);
    OddTerm(start, stride, t, k);
    TermIs(r, w, x, start, stride, k, 2 * t);
    TermIs(r, w, x, start, stride, k, 2 * t + 1);
    TermIs(r, w, x, start, 2 * stride, k, t);
    TermIs(r, w, x, start + stride, 2 * stride, k, t);
    PowAdd(r, w, Exponent(2 * stride, t, k), Scaled(stride, k));
    MulAssoc(r, x(Index(start + stride, 2 * stride, t)), Pow(r, w, Exponent(2 * stride, t, k)),
             Pow(r, w, Scaled(stride, k)));
  }

  /** w is a primitive root in the sense the kernel needs: w^(N/2) == -1. */
  ghost predicate HalfTurn<T(!new)>(r: Ring<T>, w: T, m: nat) {
    m > 0 && Valid(r) && Pow(r, w, Pow2(m - 1)) == r.neg(r.one)
  }

  lemma FullTurn<T(!new)>(r: Ring<T>, w: T, m: nat)
    requires HalfTurn(r, w, m)
    ensures Pow(r, w, Pow2(m)) == r.one
  {
    hide Valid, Pow;
    var h := Pow2(m - 1);
    assert Pow2(m) == h + h;
    PowAdd(r, w, h, h);
    NegOneSquared(r);
  }

  lemma NegOneSquared<T(!new)>(r: Ring<T>)
    requires Valid(r)
    ensures r.mul(r.neg(r.one), r.neg(r.one)) == r.one
  {
    hide Valid;
    MulNeg(r, r.one, r.neg(r.one));
    MulOne(r, r.neg(r.one));
    NegNeg(r, r.one);
  }

  lemma {:induction false} Pow2Product(a: nat, b: nat)
    ensures Pow2(a) * Pow2(b) == Pow2(a + b)
  {
    if a > 0 {
      Pow2Product(a - 1, b);
      assert Pow2(a) * Pow2(b) == 2 * (Pow2(a - 1) * Pow2(b));
    }
  }

  /** A transform of `count` samples has period `count`. */
  lemma PartIsPeriodic<T(!new)>(r: Ring<T>, w: T, x: nat -> T, m: nat, s: nat, start: nat, k: nat)
    requires HalfTurn(r, w, m) && s <= m
    ensures Part(r, w, x, start, Pow2(m - s), Pow2(s), k + Pow2(s)) == Part(r, w, x, start, Pow2(m - s), Pow2(s), k)
  {
    hide *;
    FullTurn(r, w, m);
    TurnIsValid(r, w, m);
    Pow2Product(m - s, s);
    assert m - s + s == m;
    PartRepeats(r, w, x, start, Pow2(m - s), Pow2(s), k);
  }

  lemma PartRepeats<T(!new)>(r: Ring<T>, w: T, x: nat -> T, start: nat, stride: nat, count: nat, k: nat)
    requires Valid(r) && Pow(r, w, stride * count) == r.one
    ensures Part(r, w, x, start, stride, count, k + count) == Part(r, w, x, start, stride, count, k)
  {
    hide *;
    var here, there := Terms(r, w, x, start, stride, k), Terms(r, w, x, start, stride, k + count);
    forall t: nat | t < count ensures there(t) == here(t) {
      ShiftedTermIs(r, w, x, start, stride, count, k, t);
    }
    SumEqual(r, there, here, count);
    PartIsSum(r, w, x, start, stride, count, k);
    PartIsSum(r, w, x, start, stride, count, k + count);
  }

  lemma TurnIsValid<T(!new)>(r: Ring<T>, w: T, m: nat)
    requires HalfTurn(r, w, m)
    ensures Valid(r)
  {
    hide Valid, Pow;
  }

  lemma ShiftedTermIs<T(!new)>(r: Ring<T>, w: T, x: nat -> T, start: nat, stride: nat, count: nat, k: nat, t: nat)
    requires Valid(r) && Pow(r, w, stride * count) == r.one
    ensures Terms(r, w, x, start, stride, k + count)(t) == Terms(r, w, x, start, stride, k)(t)
  {
    hide *;
    ShiftedTerm(stride, count, t, k);
    TermIs(r, w, x, start, stride, k, t);
    TermIs(r, w, x, start, stride, k + count, t);
    PowAdd(r, w, Exponent(stride, t, k), (stride * count) * t);
    PowOfUnit(r, w, stride * count, t);
    MulOne(r, Pow(r, w, Exponent(stride, t, k)));
  }

  // ---------------------------------------------------------------- what each stage leaves

  function Block(s: nat, i: nat): nat {
    Div(i, Pow2(s))
  }

  function Offset(s: nat, i: nat): nat {
    i % Pow2(s)
  }

  function Div(n: nat, d: nat): nat
    requires d > 0
  {
    n / d
  }

  /** The value at index i when blocks of size 2^s hold transforms: block j holds the
      transform of the samples whose index is the reversal of j modulo 2^(m-s). */
  function Partial<T>(r: Ring<T>, w: T, x: nat -> T, m: nat, s: nat, i: nat): T
    requires s <= m
  {
    Part(r, w, x, BitRev(m - s, Block(s, i)), Pow2(m - s), Pow2(s), Offset(s, i))
  }

  lemma DivMod(d: nat, q: nat, o: nat, n: nat)
    requires o < d && n == q * d + o
    ensures n / d == q && n % d == o
  {
    var q', o' := n / d, n % d;
    assert n == q' * d + o' && 0 <= o' < d;
    if q < q' {
      assert q' * d == q * d + (q' - q) * d;
      MulAtLeast(q' - q, d);
    } else if q' < q {
      assert q * d == q' * d + (q - q') * d;
      MulAtLeast(q - q', d);
    }
  }

  lemma MulAtLeast(a: nat, d: nat)
    requires a >= 1
    ensures a * d >= d
  {
  }

  /** Both members of a butterfly, as blocks of the old and the new size. */
  lemma BlockIndex(s: nat, j: nat, o: nat)
    requires o < Pow2(s)
    ensures var i := Scaled(Pow2(s + 1), j) + o;
      && Block(s, i) == 2 * j && Offset(s, i) == o
      && Block(s, i + Pow2(s)) == 2 * j + 1 && Offset(s, i + Pow2(s)) == o
      && Block(s + 1, i) == j && Offset(s + 1, i) == o
      && Block(s + 1, i + Pow2(s)) == j && Offset(s + 1, i + Pow2(s)) == o + Pow2(s)
  {
    var half, i := Pow2(s), Scaled(Pow2(s + 1), j) + o;
    assert Pow2(s + 1) == 2 * half;
    hide Pow2;
    assert j * (2 * half) == (2 * j) * half;
    MulAdd(2 * j, 1, half);
    DivMod(half, 2 * j, o, i);
    DivMod(half, 2 * j + 1, o, i + half);
    DivMod(2 * half, j, o, i);
    DivMod(2 * half, j, o + half, i + half);
  }

  /** One butterfly: two values of a stage give two of the next. */
  lemma ButterflyMeans<T(!new)>(r: Ring<T>, w: T, x: nat -> T, m: nat, s: nat, j: nat, o: nat)
    requires HalfTurn(r, w, m) && s < m && o < Pow2(s)
    ensures var half, i := Pow2(s), Scaled(Pow2(s + 1), j) + o;
      var odd := r.mul(Partial(r, w, x, m, s, i + half), Pow(r, w, Scaled(Pow2(m - s - 1), o)));
      && Partial(r, w, x, m, s + 1, i) == r.add(Partial(r, w, x, m, s, i), odd)
      && Partial(r, w, x, m, s + 1, i + half) == r.add(Partial(r, w, x, m, s, i), r.neg(odd))
  {
    hide *;
    var half, stride, start := Pow2(s), Pow2(m - s - 1), BitRev(m - s - 1, j);
    TurnIs(r, w, m, s);
    BlockIndex(s, j, o);
    ReversedBlocks(m - s, j);
    TwiddleShift(r, w, m, s, o);
    PartIsPeriodic(r, w, x, m, s, start, o);
    PartIsPeriodic(r, w, x, m, s, start + stride, o);
    PartSplits(r, w, x, start, stride, half, o);
    PartSplits(r, w, x, start, stride, half, o + half);
    MulNeg(r, Pow(r, w, Scaled(stride, o)), Part(r, w, x, start + stride, 2 * stride, half, o));
    MulComm(r, Pow(r, w, Scaled(stride, o)), Part(r, w, x, start + stride, 2 * stride, half, o));
    var i := Scaled(Pow2(s + 1), j) + o;
    PartialIs(r, w, x, m, s, i);
    PartialIs(r, w, x, m, s, i + half);
    PartialIs(r, w, x, m, s + 1, i);
    PartialIs(r, w, x, m, s + 1, i + half);
  }

  lemma PartialIs<T>(r: Ring<T>, w: T, x: nat -> T, m: nat, s: nat, i: nat)
    requires s <= m
    ensures Partial(r, w, x, m, s, i) == Part(r, w, x, BitRev(m - s, Block(s, i)), Pow2(m - s), Pow2(s), Offset(s, i))
  {
    hide Part, BitRev, Pow2, Block, Offset;
  }

  lemma ReversedBlocks(n: nat, j: nat)
    requires n > 0
    ensures BitRev(n, 2 * j) == BitRev(n - 1, j) && BitRev(n, 2 * j + 1) == BitRev(n - 1, j) + Pow2(n - 1)
  {
    hide Pow2;
    assert (2 * j) / 2 == j && (2 * j) % 2 == 0 && (2 * j + 1) / 2 == j && (2 * j + 1) % 2 == 1;
  }

  lemma TwiddleShift<T(!new)>(r: Ring<T>, w: T, m: nat, s: nat, o: nat)
    requires HalfTurn(r, w, m) && s < m
    ensures Pow(r, w, Scaled(Pow2(m - s - 1), o + Pow2(s))) == r.neg(Pow(r, w, Scaled(Pow2(m - s - 1), o)))
  {
    hide *;
    var stride, half := Pow2(m - s - 1), Pow2(s);
    TurnIs(r, w, m, s);
    ScaledAdd(stride, o, half);
    PowAdd(r, w, Scaled(stride, o), Scaled(stride, half));
    MulNeg(r, r.one, Pow(r, w, Scaled(stride, o)));
    MulOne(r, Pow(r, w, Scaled(stride, o)));
  }

  lemma TurnIs<T(!new)>(r: Ring<T>, w: T, m: nat, s: nat)
    requires HalfTurn(r, w, m) && s < m
    ensures Valid(r) && Pow(r, w, Scaled(Pow2(m - s - 1), Pow2(s))) == r.neg(r.one)
    ensures Pow2(s + 1) == 2 * Pow2(s) && Pow2(m - s) == 2 * Pow2(m - s - 1)
  {
    hide Valid, Pow;
    Pow2Product(m - s - 1, s);
  }

  lemma ScaledAdd(stride: nat, a: nat, b: nat)
    ensures Scaled(stride, a + b) == Scaled(stride, a) + Scaled(stride, b)
  {
    MulAdd(a, b, stride);
  }

  /** Bit-reversed samples are the stage of single-sample blocks. */
  lemma FirstStage<T(!new)>(r: Ring<T>, w: T, x: nat -> T, m: nat, i: nat)
    requires Valid(r)
    ensures Partial(r, w, x, m, 0, i) == x(BitRev(m, i))
  {
    hide Valid, BitRev;
    assert Pow2(0) == 1;
    assert Block(0, i) == i && Offset(0, i) == 0;
    var f := Terms(r, w, x, BitRev(m, i), Pow2(m), 0);
    assert Sum(r, f, 1) == r.add(Sum(r, f, 0), f(0));
    AddZero(r, f(0));
    assert Exponent(Pow2(m), 0, 0) == 0 && Index(BitRev(m, i), Pow2(m), 0) == BitRev(m, i);
    MulOne(r, x(BitRev(m, i)));
  }

  /** One block of all the samples is the transform itself. */
  lemma LastStage<T(!new)>(r: Ring<T>, w: T, v: seq<T>, m: nat, i: nat)
    requires i < |v| == Pow2(m)
    ensures Partial(r, w, SampleAt(r, v), m, m, i) == Dft(r, w, v, i)
  {
    hide Pow, SampleAt;
    var x := SampleAt(r, v);
    var f: nat -> T := (n: nat) => r.mul(SampleAt(r, v)(n), Pow(r, w, n * i));
    var g := Terms(r, w, x, 0, 1, i);
    DivMod(|v|, 0, i, i);
    assert Block(m, i) == 0 && Offset(m, i) == i && Pow2(0) == 1 && BitRev(0, 0) == 0;
    forall t: nat ensures f(t) == g(t) {
      assert Index(0, 1, t) == t && Exponent(1, t, i) == t * i;
    }
    SumEqual(r, f, g, |v|);
    assert Dft(r, w, v, i) == Sum(r, f, |v|);
  }
}
