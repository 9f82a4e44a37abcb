/** Commutative rings given by their operations, complex numbers over one, powers and
    finite sums: the arithmetic in which the spectral kernel is proved. */
module Rings {
  datatype Ring<!T> = Ring(zero: T, one: T, add: (T, T) -> T, mul: (T, T) -> T, neg: T -> T)

  ghost predicate Valid<T(!new)>(r: Ring<T>) {
    && (forall a, b :: r.add(a, b) == r.add(b, a))
    && (forall a, b, c :: r.add(r.add(a, b), c) == r.add(a, r.add(b, c)))
    && (forall a :: r.add(a, r.zero) == a)
    && (forall a :: r.add(a, r.neg(a)) == r.zero)
    && (forall a, b :: r.mul(a, b) == r.mul(b, a))
    && (forall a, b, c :: r.mul(r.mul(a, b), c) == r.mul(a, r.mul(b, c)))
    && (forall a :: r.mul(a, r.one) == a)
    && (forall a, b, c :: r.mul(r.add(a, b), c) == r.add(r.mul(a, c), r.mul(b, c)))
  }

  // ---------------------------------------------------------------- the laws, one instance at a time

  lemma AddComm<T(!new)>(r: Ring<T>, a: T, b: T)
    requires Valid(r)
    ensures r.add(a, b) == r.add(b, a)
  {
  }

  lemma AddAssoc<T(!new)>(r: Ring<T>, a: T, b: T, c: T)
    requires Valid(r)
    ensures r.add(r.add(a, b), c) == r.add(a, r.add(b, c))
  {
  }

  lemma AddZero<T(!new)>(r: Ring<T>, a: T)
    requires Valid(r)
    ensures r.add(a, r.zero) == a && r.add(r.zero, a) == a
  {
  }

  lemma AddNeg<T(!new)>(r: Ring<T>, a: T)
    requires Valid(r)
    ensures r.add(a, r.neg(a)) == r.zero
  {
  }

  lemma MulComm<T(!new)>(r: Ring<T>, a: T, b: T)
    requires Valid(r)
    ensures r.mul(a, b) == r.mul(b, a)
  {
  }

  lemma MulAssoc<T(!new)>(r: Ring<T>, a: T, b: T, c: T)
    requires Valid(r)
    ensures r.mul(r.mul(a, b), c) == r.mul(a, r.mul(b, c))
  {
  }

  lemma MulOne<T(!new)>(r: Ring<T>, a: T)
    requires Valid(r)
    ensures r.mul(a, r.one) == a && r.mul(r.one, a) == a
  {
  }

  lemma Distribute<T(!new)>(r: Ring<T>, a: T, b: T, c: T)
    requires Valid(r)
    ensures r.mul(r.add(a, b), c) == r.add(r.mul(a, c), r.mul(b, c))
    ensures r.mul(c, r.add(a, b)) == r.add(r.mul(c, a), r.mul(c, b))
  {
  }

  // ---------------------------------------------------------------- consequences

  /** (a + b) + (c + d) == (a + c) + (b + d) */
  lemma Interchange<T(!new)>(r: Ring<T>, a: T, b: T, c: T, d: T)
    requires Valid(r)
    ensures r.add(r.add(a, b), r.add(c, d)) == r.add(r.add(a, c), r.add(b, d))
  {
    hide Valid;
    AddAssoc(r, a, b, r.add(c, d));
    AddAssoc(r, b, c, d);
    AddComm(r, b, c);
    AddAssoc(r, c, b, d);
    AddAssoc(r, a, c, r.add(b, d));
  }

  lemma NegIsUnique<T(!new)>(r: Ring<T>, a: T, b: T)
    requires Valid(r) && r.add(a, b) == r.zero
    ensures b == r.neg(a)
  {
    hide Valid;
    AddNeg(r, a);
    AddComm(r, r.neg(a), a);
    AddAssoc(r, r.neg(a), a, b);
    AddZero(r, r.neg(a));
    AddZero(r, b);
  }

  lemma MulZero<T(!new)>(r: Ring<T>, a: T)
    requires Valid(r)
    ensures r.mul(r.zero, a) == r.zero
  {
    hide Valid;
    var z := r.mul(r.zero, a);
    AddZero(r, r.zero);
    Distribute(r, r.zero, r.zero, a);
    assert r.add(z, z) == z;
    AddAssoc(r, z, z, r.neg(z));
    AddNeg(r, z);
    AddZero(r, z);
  }

  lemma MulNeg<T(!new)>(r: Ring<T>, a: T, b: T)
    requires Valid(r)
    ensures r.mul(r.neg(a), b) == r.neg(r.mul(a, b)) && r.mul(b, r.neg(a)) == r.neg(r.mul(a, b))
  {
    hide Valid;
    Distribute(r, a, r.neg(a), b);
    AddNeg(r, a);
    MulZero(r, b);
    NegIsUnique(r, r.mul(a, b), r.mul(r.neg(a), b));
    MulComm(r, r.neg(a), b);
  }

  lemma NegNeg<T(!new)>(r: Ring<T>, a: T)
    requires Valid(r)
    ensures r.neg(r.neg(a)) == a
  {
    hide Valid;
    AddNeg(r, a);
    AddComm(r, a, r.neg(a));
    NegIsUnique(r, r.neg(a), a);
  }

  lemma NegAdd<T(!new)>(r: Ring<T>, a: T, b: T)
    requires Valid(r)
    ensures r.neg(r.add(a, b)) == r.add(r.neg(a), r.neg(b))
  {
    hide Valid;
    Interchange(r, a, b, r.neg(a), r.neg(b));
    AddNeg(r, a);
    AddNeg(r, b);
    AddZero(r, r.zero);
    NegIsUnique(r, r.add(a, b), r.add(r.neg(a), r.neg(b)));
  }

  // ---------------------------------------------------------------- complex numbers

  datatype Complex<T> = Complex(re: T, im: T)

  function Sub<T>(r: Ring<T>, a: T, b: T): T {
    r.add(a, r.neg(b))
  }

  function CAdd<T>(r: Ring<T>, x: Complex<T>, y: Complex<T>): Complex<T> {
    Complex(r.add(x.re, y.re), r.add(x.im, y.im))
  }

  function CMul<T>(r: Ring<T>, x: Complex<T>, y: Complex<T>): Complex<T> {
    Complex(Sub(r, r.mul(x.re, y.re), r.mul(x.im, y.im)), r.add(r.mul(x.re, y.im), r.mul(x.im, y.re)))
  }

  function CNeg<T>(r: Ring<T>, x: Complex<T>): Complex<T> {
    Complex(r.neg(x.re), r.neg(x.im))
  }

  /** The ring r[i], where i * i == -1. */
  function ComplexRing<T>(r: Ring<T>): Ring<Complex<T>> {
    Ring(Complex(r.zero, r.zero), Complex(r.one, r.zero),
         (x, y) => CAdd(r, x, y), (x, y) => CMul(r, x, y), x => CNeg(r, x))
  }

  lemma CMulComm<T(!new)>(r: Ring<T>, x: Complex<T>, y: Complex<T>)
    requires Valid(r)
    ensures CMul(r, x, y) == CMul(r, y, x)
  {
    hide Valid;
    MulComm(r, x.re, y.re);
    MulComm(r, x.im, y.im);
    MulComm(r, x.re, y.im);
    MulComm(r, x.im, y.re);
    AddComm(r, r.mul(x.re, y.im), r.mul(x.im, y.re));
  }

  lemma CMulOne<T(!new)>(r: Ring<T>, x: Complex<T>)
    requires Valid(r)
    ensures CMul(r, x, Complex(r.one, r.zero)) == x
  {
    hide Valid;
    MulOne(r, x.re);
    MulOne(r, x.im);
    MulZero(r, x.re);
    MulZero(r, x.im);
    MulComm(r, x.re, r.zero);
    MulComm(r, x.im, r.zero);
    AddNeg(r, r.zero);
    AddZero(r, r.neg(r.zero));
    AddZero(r, x.re);
    AddZero(r, x.im);
  }

  lemma CDistribute<T(!new)>(r: Ring<T>, x: Complex<T>, y: Complex<T>, z: Complex<T>)
    requires Valid(r)
    ensures CMul(r, CAdd(r, x, y), z) == CAdd(r, CMul(r, x, z), CMul(r, y, z))
  {
    hide Valid;
    Distribute(r, x.re, y.re, z.re);
    Distribute(r, x.im, y.im, z.im);
    Distribute(r, x.re, y.re, z.im);
    Distribute(r, x.im, y.im, z.re);
    NegAdd(r, r.mul(x.im, z.im), r.mul(y.im, z.im));
    Interchange(r, r.mul(x.re, z.re), r.mul(y.re, z.re), r.neg(r.mul(x.im, z.im)), r.neg(r.mul(y.im, z.im)));
    Interchange(r, r.mul(x.re, z.im), r.mul(y.re, z.im), r.mul(x.im, z.re), r.mul(y.im, z.re));
  }

  /** Two regroupings of four signed terms, as associativity needs them. */
  lemma Triple<T(!new)>(r: Ring<T>, p: T, q: T, s: T, t: T)
    requires Valid(r)
    ensures r.add(Sub(r, p, q), r.neg(r.add(s, t))) == Sub(r, Sub(r, p, t), r.add(s, q))
    ensures r.add(Sub(r, p, q), r.add(s, t)) == r.add(r.add(p, s), Sub(r, t, q))
  {
    hide Valid;
    NegAdd(r, s, t);
    NegAdd(r, s, q);
    AddComm(r, r.neg(s), r.neg(t));
    Interchange(r, p, r.neg(q), r.neg(t), r.neg(s));
    AddComm(r, r.neg(q), r.neg(s));
    Interchange(r, p, r.neg(q), s, t);
    AddComm(r, r.neg(q), t);
  }

  lemma CMulAssocRe<T(!new)>(r: Ring<T>, x: Complex<T>, y: Complex<T>, z: Complex<T>)
    requires Valid(r)
    ensures CMul(r, CMul(r, x, y), z).re == CMul(r, x, CMul(r, y, z)).re
  {
    hide Valid;
    var a, b, c, d, e, f := x.re, x.im, y.re, y.im, z.re, z.im;
    var ace, bde, adf, bcf :=
      r.mul(r.mul(a, c), e), r.mul(r.mul(b, d), e), r.mul(r.mul(a, d), f), r.mul(r.mul(b, c), f);
    Distribute(r, r.mul(a, c), r.neg(r.mul(b, d)), e);
    MulNeg(r, r.mul(b, d), e);
    Distribute(r, r.mul(a, d), r.mul(b, c), f);
    assert CMul(r, CMul(r, x, y), z).re == r.add(Sub(r, ace, bde), r.neg(r.add(adf, bcf)));
    Distribute(r, r.mul(c, e), r.neg(r.mul(d, f)), a);
    MulNeg(r, r.mul(d, f), a);
    MulComm(r, r.mul(d, f), a);
    Distribute(r, r.mul(c, f), r.mul(d, e), b);
    MulAssoc(r, a, c, e);
    MulAssoc(r, b, d, e);
    MulAssoc(r, a, d, f);
    MulAssoc(r, b, c, f);
    assert CMul(r, x, CMul(r, y, z)).re == Sub(r, Sub(r, ace, adf), r.add(bcf, bde));
    AddComm(r, adf, bcf);
    Triple(r, ace, bde, bcf, adf);
  }

  lemma CMulAssocIm<T(!new)>(r: Ring<T>, x: Complex<T>, y: Complex<T>, z: Complex<T>)
    requires Valid(r)
    ensures CMul(r, CMul(r, x, y), z).im == CMul(r, x, CMul(r, y, z)).im
  {
    hide Valid;
    var a, b, c, d, e, f := x.re, x.im, y.re, y.im, z.re, z.im;
    var acf, bdf, ade, bce :=
      r.mul(r.mul(a, c), f), r.mul(r.mul(b, d), f), r.mul(r.mul(a, d), e), r.mul(r.mul(b, c), e);
    Distribute(r, r.mul(a, c), r.neg(r.mul(b, d)), f);
    MulNeg(r, r.mul(b, d), f);
    Distribute(r, r.mul(a, d), r.mul(b, c), e);
    assert CMul(r, CMul(r, x, y), z).im == r.add(Sub(r, acf, bdf), r.add(ade, bce));
    Distribute(r, r.mul(c, e), r.neg(r.mul(d, f)), b);
    MulNeg(r, r.mul(d, f), b);
    MulComm(r, r.mul(d, f), b);
    Distribute(r, r.mul(c, f), r.mul(d, e), a);
    MulAssoc(r, a, c, f);
    MulAssoc(r, b, d, f);
    MulAssoc(r, a, d, e);
    MulAssoc(r, b, c, e);
    assert CMul(r, x, CMul(r, y, z)).im == r.add(r.add(acf, ade), Sub(r, bce, bdf));
    Triple(r, acf, bdf, ade, bce);
  }

  /** The complex numbers over a commutative ring are a commutative ring. */
  lemma ComplexRingValid<T(!new)>(r: Ring<T>)
    requires Valid(r)
    ensures Valid(ComplexRing(r))
  {
    var c := ComplexRing(r);
    ComplexAddition(r);
    forall x, y ensures c.mul(x, y) == c.mul(y, x) {
      hide Valid;
      CMulComm(r, x, y);
    }
    forall x, y, z ensures c.mul(c.mul(x, y), z) == c.mul(x, c.mul(y, z)) {
      hide Valid, CMul;
      CMulAssocRe(r, x, y, z);
      CMulAssocIm(r, x, y, z);
    }
    forall x ensures c.mul(x, c.one) == x {
      hide Valid;
      CMulOne(r, x);
    }
    forall x, y, z ensures c.mul(c.add(x, y), z) == c.add(c.mul(x, z), c.mul(y, z)) {
      hide Valid;
      CDistribute(r, x, y, z);
    }
    hide CAdd, CMul, CNeg;
  }

  lemma ComplexAddition<T(!new)>(r: Ring<T>)
    requires Valid(r)
    ensures var c := ComplexRing(r);
      && (forall x, y :: c.add(x, y) == c.add(y, x))
      && (forall x, y, z :: c.add(c.add(x, y), z) == c.add(x, c.add(y, z)))
      && (forall x :: c.add(x, c.zero) == x)
      && (forall x :: c.add(x, c.neg(x)) == c.zero)
  {
  }

  // ---------------------------------------------------------------- what the product is

  function Real<T>(r: Ring<T>, a: T): Complex<T> {
    Complex(a, r.zero)
  }

  /** The imaginary unit. */
  function I<T>(r: Ring<T>): Complex<T> {
    Complex(r.zero, r.one)
  }

  /** i * i == -1. */
  lemma ImaginarySquare<T(!new)>(r: Ring<T>)
    requires Valid(r)
    ensures CMul(r, I(r), I(r)) == CNeg(r, Real(r, r.one))
  {
    hide Valid;
    MulZero(r, r.zero);
    MulZero(r, r.one);
    MulOne(r, r.one);
    MulOne(r, r.zero);
    AddZero(r, r.neg(r.one));
    AddZero(r, r.zero);
    NegZero(r);
  }

  lemma NegZero<T(!new)>(r: Ring<T>)
    requires Valid(r)
    ensures r.neg(r.zero) == r.zero
  {
    hide Valid;
    AddNeg(r, r.zero);
    AddZero(r, r.neg(r.zero));
  }

  /** Reals multiply as in the base ring, and turn onto the imaginary axis. */
  lemma RealsEmbed<T(!new)>(r: Ring<T>, a: T, b: T)
    requires Valid(r)
    ensures CMul(r, Real(r, a), Real(r, b)) == Real(r, r.mul(a, b))
    ensures CMul(r, Real(r, a), I(r)) == Complex(r.zero, a)
    ensures CAdd(r, Real(r, a), Complex(r.zero, b)) == Complex(a, b)
  {
    hide Valid;
    NegZero(r);
    forall z: T ensures r.mul(r.zero, z) == r.zero == r.mul(z, r.zero) && r.add(z, r.zero) == z == r.add(r.zero, z) {
      MulZero(r, z);
      MulComm(r, z, r.zero);
      AddZero(r, z);
    }
    MulOne(r, a);
  }

  /** A product of pairs extends that of the reals, turns a real onto the imaginary axis by
      i, and has i * i == -1. */
  ghost predicate ExtendsReals<T(!new)>(r: Ring<T>, q: Ring<Complex<T>>) {
    && (forall a, b :: q.mul(Real(r, a), Real(r, b)) == Real(r, r.mul(a, b)))
    && (forall a :: q.mul(Real(r, a), I(r)) == Complex(r.zero, a))
    && q.mul(I(r), I(r)) == CNeg(r, Real(r, r.one))
  }

  /** The complex numbers with another product. */
  function WithProduct<T>(r: Ring<T>, mul: (Complex<T>, Complex<T>) -> Complex<T>): Ring<Complex<T>> {
    ComplexRing(r).(mul := mul)
  }

  /** The product of the butterflies is the one that makes pairs a commutative ring in this
      way, and there is no other. */
  lemma ComplexProductIsUnique<T(!new)>(r: Ring<T>, mul: (Complex<T>, Complex<T>) -> Complex<T>)
    requires Valid(r)
    ensures Valid(WithProduct(r, mul)) && ExtendsReals(r, WithProduct(r, mul))
      <==> forall x, y :: mul(x, y) == CMul(r, x, y)
  {
    hide Valid, CMul, ExtendsReals;
    if Valid(WithProduct(r, mul)) && ExtendsReals(r, WithProduct(r, mul)) {
      forall x, y ensures mul(x, y) == CMul(r, x, y) {
        ProductIs(r, WithProduct(r, mul), x, y);
      }
    }
    if forall x, y :: mul(x, y) == CMul(r, x, y) {
      ComplexRingValid(r);
      SameProduct(ComplexRing(r), WithProduct(r, mul));
      OursExtendsReals(r, WithProduct(r, mul));
    }
  }

  lemma OursExtendsReals<T(!new)>(r: Ring<T>, q: Ring<Complex<T>>)
    requires Valid(r) && forall x, y :: q.mul(x, y) == CMul(r, x, y)
    ensures ExtendsReals(r, q)
  {
    hide Valid, CMul, Real;
    ImaginarySquare(r);
    forall a, b ensures q.mul(Real(r, a), Real(r, b)) == Real(r, r.mul(a, b)) {
      RealsEmbed(r, a, b);
    }
    forall a ensures q.mul(Real(r, a), I(r)) == Complex(r.zero, a) {
      RealsEmbed(r, a, a);
    }
  }

  lemma SameProduct<T(!new)>(r: Ring<T>, q: Ring<T>)
    requires Valid(r) && q.(mul := r.mul) == r && forall x, y :: q.mul(x, y) == r.mul(x, y)
    ensures Valid(q)
  {
    forall a, b, c ensures q.mul(q.mul(a, b), c) == q.mul(a, q.mul(b, c)) {
      hide Valid;
      MulAssoc(r, a, b, c);
    }
    forall a, b, c ensures q.mul(q.add(a, b), c) == q.add(q.mul(a, c), q.mul(b, c)) {
      hide Valid;
      Distribute(r, a, b, c);
    }
  }

  lemma AxisProducts<T(!new)>(r: Ring<T>, q: Ring<Complex<T>>, a: T, b: T)
    requires ExtendsReals(r, q)
    ensures q.mul(Real(r, a), Real(r, b)) == Real(r, r.mul(a, b))
    ensures q.mul(Real(r, a), I(r)) == Complex(r.zero, a)
    ensures q.mul(I(r), I(r)) == Complex(r.neg(r.one), r.neg(r.zero))
  {
  }

  /** A real, and an imaginary, times an imaginary. */
  lemma ImaginaryProducts<T(!new)>(r: Ring<T>, q: Ring<Complex<T>>, b: T, d: T)
    requires Valid(r) && Valid(q) && ExtendsReals(r, q)
    ensures q.mul(Real(r, b), Complex(r.zero, d)) == Complex(r.zero, r.mul(b, d))
    ensures q.mul(Complex(r.zero, b), Complex(r.zero, d)) == Real(r, r.neg(r.mul(b, d)))
  {
    hide Valid, ExtendsReals;
    var i, B, D, bd := I(r), Real(r, b), Real(r, d), r.mul(b, d);
    AxisProducts(r, q, b, d);
    AxisProducts(r, q, d, d);
    AxisProducts(r, q, bd, r.neg(r.one));
    NegZero(r);
    MulNeg(r, r.one, bd);
    MulOne(r, bd);
    hide Real, I;
    MulAssoc(q, B, D, i);
    MulAssoc(q, B, i, q.mul(D, i));
    MulComm(q, i, q.mul(D, i));
    MulAssoc(q, D, i, i);
    MulAssoc(q, B, D, q.mul(i, i));
  }

  /** Both factors split into a real and an imaginary part. */
  lemma ProductIs<T(!new)>(r: Ring<T>, q: Ring<Complex<T>>, x: Complex<T>, y: Complex<T>)
    requires Valid(r) && Valid(q) && ExtendsReals(r, q)
    requires forall u, v :: q.add(u, v) == CAdd(r, u, v)
    ensures q.mul(x, y) == CMul(r, x, y)
  {
    hide Valid, ExtendsReals;
    var A, B, C, D := Real(r, x.re), Complex(r.zero, x.im), Real(r, y.re), Complex(r.zero, y.im);
    ImaginaryProducts(r, q, x.re, y.im);
    ImaginaryProducts(r, q, y.re, x.im);
    ImaginaryProducts(r, q, x.im, y.im);
    AxisProducts(r, q, x.re, y.re);
    RealsEmbed(r, x.re, x.im);
    RealsEmbed(r, y.re, y.im);
    Distribute(q, A, B, y);
    Distribute(q, C, D, A);
    Distribute(q, C, D, B);
    MulComm(q, B, C);
    MulComm(r, y.re, x.im);
    AddZero(r, r.mul(x.re, y.re));
    AddZero(r, r.mul(x.re, y.im));
    AddZero(r, r.neg(r.mul(x.im, y.im)));
    AddZero(r, r.mul(x.im, y.re));
    assert q.mul(x, y) == q.add(q.add(q.mul(A, C), q.mul(A, D)), q.add(q.mul(B, C), q.mul(B, D)));
  }

  // ---------------------------------------------------------------- powers

  function Pow<T>(r: Ring<T>, w: T, n: nat): T {
    if n == 0 then r.one else r.mul(Pow(r, w, n - 1), w)
  }

  lemma {:induction false} PowAdd<T(!new)>(r: Ring<T>, w: T, m: nat, n: nat)
    requires Valid(r)
    ensures Pow(r, w, m + n) == r.mul(Pow(r, w, m), Pow(r, w, n))
  {
    hide Valid;
    if n == 0 {
      MulOne(r, Pow(r, w, m));
    } else {
      PowAdd(r, w, m, n - 1);
      MulAssoc(r, Pow(r, w, m), Pow(r, w, n - 1), w);
    }
  }

  lemma {:induction false} PowOfUnit<T(!new)>(r: Ring<T>, w: T, n: nat, k: nat)
    requires Valid(r) && Pow(r, w, n) == r.one
    ensures Pow(r, w, n * k) == r.one
  {
    hide Valid;
    if k > 0 {
      PowOfUnit(r, w, n, k - 1);
      assert n * k == n * (k - 1) + n;
      PowAdd(r, w, n * (k - 1), n);
      MulOne(r, r.one);
    }
  }

  // ---------------------------------------------------------------- sums

  function Sum<T>(r: Ring<T>, f: nat -> T, n: nat): T {
    if n == 0 then r.zero else r.add(Sum(r, f, n - 1), f(n - 1))
  }

  lemma {:induction false} SumEqual<T(!new)>(r: Ring<T>, f: nat -> T, g: nat -> T, n: nat)
    requires forall i: nat :: i < n ==> f(i) == g(i)
    ensures Sum(r, f, n) == Sum(r, g, n)
  {
    if n > 0 {
      SumEqual(r, f, g, n - 1);
    }
  }

  lemma {:induction false} SumScale<T(!new)>(r: Ring<T>, f: nat -> T, g: nat -> T, c: T, n: nat)
    requires Valid(r) && forall i: nat :: i < n ==> g(i) == r.mul(f(i), c)
    ensures Sum(r, g, n) == r.mul(Sum(r, f, n), c)
  {
    hide Valid;
    if n == 0 {
      MulZero(r, c);
    } else {
      SumScale(r, f, g, c, n - 1);
      Distribute(r, Sum(r, f, n - 1), f(n - 1), c);
    }
  }

  /** A sum of 2 n terms is the sum of its even terms plus the sum of its odd terms. */
  lemma {:induction false} SumEvenOdd<T(!new)>(r: Ring<T>, f: nat -> T, even: nat -> T, odd: nat -> T, n: nat)
    requires Valid(r) && forall i: nat :: i < n ==> even(i) == f(2 * i) && odd(i) == f(2 * i + 1)
    ensures Sum(r, f, 2 * n) == r.add(Sum(r, even, n), Sum(r, odd, n))
  {
    hide Valid;
    if n == 0 {
      AddZero(r, r.zero);
    } else {
      SumEvenOdd(r, f, even, odd, n - 1);
      var e, o := Sum(r, even, n - 1), Sum(r, odd, n - 1);
      assert Sum(r, f, 2 * n) == r.add(r.add(Sum(r, f, 2 * n - 2), f(2 * n - 2)), f(2 * n - 1));
      AddAssoc(r, r.add(e, o), f(2 * n - 2), f(2 * n - 1));
      Interchange(r, e, o, even(n - 1), odd(n - 1));
    }
  }
}
