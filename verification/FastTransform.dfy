/** The kernel itself: loops over arrays of real and imaginary parts, proved to leave the
    discrete Fourier transform of what the arrays held. */
module FastTransform {
  import opened Rings
  import opened Fft
  import opened Butterflies

  /** The samples held by a pair of arrays. */
  function Pairs<T>(re: seq<T>, im: seq<T>): (v: seq<Complex<T>>)
    requires |re| == |im|
    ensures |v| == |re|
  {
    seq(|re|, i requires 0 <= i < |re| => Complex(re[i], im[i]))
  }

  /** The constant tables hold the powers of w that the stages need. */
  ghost predicate IsTwiddleTable<T(!new)>(k: Ring<T>, w: Complex<T>, m: nat, table: seq<Complex<T>>) {
    && m > 0 && |table| == Pow2(m - 1)
    && (forall i :: 0 <= i < |table| ==> table[i] == Pow(ComplexRing(k), w, i))
    && HalfTurn(ComplexRing(k), w, m)
  }

  /** A quarter turn clockwise is a half turn after two: its table for four points. */
  lemma QuarterTurn<T(!new)>(k: Ring<T>)
    requires Valid(k)
    ensures IsTwiddleTable(k, CNeg(k, I(k)), 2, [Real(k, k.one), CNeg(k, I(k))])
  {
    hide Valid, CMul, CNeg, Pow;
    var c, w := ComplexRing(k), CNeg(k, I(k));
    ComplexRingValid(k);
    ImaginarySquare(k);
    QuarterPowers(c, w);
    SquareOfNeg(c, I(k));
    assert Pow2(1) == 2;
  }

  lemma SquareOfNeg<T(!new)>(r: Ring<T>, i: T)
    requires Valid(r) && r.mul(i, i) == r.neg(r.one)
    ensures r.mul(r.neg(i), r.neg(i)) == r.neg(r.one)
  {
    hide Valid;
    MulNeg(r, i, r.neg(i));
    MulNeg(r, i, i);
    NegNeg(r, r.neg(r.one));
  }

  lemma QuarterPowers<T(!new)>(r: Ring<T>, w: T)
    requires Valid(r)
    ensures Pow(r, w, 0) == r.one && Pow(r, w, 1) == w && Pow(r, w, 2) == r.mul(w, w)
  {
    hide Valid;
    MulOne(r, w);
    assert Pow(r, w, 1) == r.mul(Pow(r, w, 0), w);
    assert Pow(r, w, 2) == r.mul(Pow(r, w, 1), w);
  }

  // ---------------------------------------------------------------- one group

  /** The values a butterfly writes. */
  function Twiddled<T>(k: Ring<T>, table: seq<Complex<T>>, v: seq<Complex<T>>, base: nat, half: nat, stride: nat,
                       o: nat): Complex<T>
    requires base + o + half < |v| && Scaled(stride, o) < |table|
  {
    CMul(k, v[base + o + half], table[Scaled(stride, o)])
  }

  function Upper<T>(k: Ring<T>, table: seq<Complex<T>>, v: seq<Complex<T>>, base: nat, half: nat, stride: nat,
                    o: nat): Complex<T>
    requires base + o + half < |v| && Scaled(stride, o) < |table|
  {
    CAdd(k, v[base + o], Twiddled(k, table, v, base, half, stride, o))
  }

  function Lower<T>(k: Ring<T>, table: seq<Complex<T>>, v: seq<Complex<T>>, base: nat, half: nat, stride: nat,
                    o: nat): Complex<T>
    requires base + o + half < |v| && Scaled(stride, o) < |table|
  {
    CAdd(k, v[base + o], CNeg(k, Twiddled(k, table, v, base, half, stride, o)))
  }

  /** The first `count` butterflies of the group at `base` are done, and nothing else. */
  ghost predicate GroupDone<T>(k: Ring<T>, table: seq<Complex<T>>, was: seq<Complex<T>>, now: seq<Complex<T>>,
                               base: nat, half: nat, stride: nat, count: nat)
  {
    && |now| == |was| && base + 2 * half <= |was| && count <= half
    && (forall i :: 0 <= i < |was| && !(base <= i < base + count) && !(base + half <= i < base + half + count) ==>
          now[i] == was[i])
    && (forall o: nat :: o < half ==> Scaled(stride, o) < |table|)
    && (forall o: nat :: o < count ==>
          && now[base + o] == Upper(k, table, was, base, half, stride, o)
          && now[base + o + half] == Lower(k, table, was, base, half, stride, o))
  }

  lemma GroupStep<T>(k: Ring<T>, table: seq<Complex<T>>, was: seq<Complex<T>>, now: seq<Complex<T>>,
                     base: nat, half: nat, stride: nat, count: nat)
    requires GroupDone(k, table, was, now, base, half, stride, count) && count < half
    ensures Scaled(stride, count) < |table|
    ensures GroupDone(k, table, was,
      now[base + count := Upper(k, table, now, base, half, stride, count)]
         [base + count + half := Lower(k, table, now, base, half, stride, count)],
      base, half, stride, count + 1)
  {
    hide CAdd, CMul, CNeg, Scaled;
  }

  /** The butterflies of one group, in place. */
  method Group<T>(k: Ring<T>, table: seq<Complex<T>>, re: array<T>, im: array<T>, base: nat, half: nat, stride: nat)
    requires re != im && re.Length == im.Length && base + 2 * half <= re.Length
    requires forall o: nat :: o < half ==> Scaled(stride, o) < |table|
    modifies re, im
    ensures GroupDone(k, table, old(Pairs(re[..], im[..])), Pairs(re[..], im[..]), base, half, stride, half)
  {
    ghost var was := Pairs(re[..], im[..]);
    var offset := 0;
    while offset < half
      invariant offset <= half
      invariant GroupDone(k, table, was, Pairs(re[..], im[..]), base, half, stride, offset)
    {
      hide GroupDone, Scaled;
      ghost var now := Pairs(re[..], im[..]);
      GroupStep(k, table, was, now, base, half, stride, offset);
      var upper, lower := base + offset, base + offset + half;
      var w := table[Scaled(stride, offset)];
      var oddRe := Sub(k, k.mul(re[lower], w.re), k.mul(im[lower], w.im));
      var oddIm := k.add(k.mul(re[lower], w.im), k.mul(im[lower], w.re));
      var evenRe, evenIm := re[upper], im[upper];
      re[upper] := k.add(evenRe, oddRe);
      im[upper] := k.add(evenIm, oddIm);
      re[lower] := Sub(k, evenRe, oddRe);
      im[lower] := Sub(k, evenIm, oddIm);
      assert Pairs(re[..], im[..])
        == now[upper := Upper(k, table, now, base, half, stride, offset)]
              [lower := Lower(k, table, now, base, half, stride, offset)];
      offset := offset + 1;
    }
  }

  // ---------------------------------------------------------------- one stage

  /** Below `base` the arrays hold stage s + 1, from there on still stage s. */
  ghost predicate StageUpTo<T>(k: Ring<T>, w: Complex<T>, x: nat -> Complex<T>, m: nat, s: nat, v: seq<Complex<T>>,
                               base: nat)
    requires s < m
  {
    && |v| == Pow2(m)
    && forall i :: 0 <= i < |v| ==> v[i] == Partial(ComplexRing(k), w, x, m, if i < base then s + 1 else s, i)
  }

  /** A finished group advances the stage by one block. */
  lemma GroupAdvances<T(!new)>(k: Ring<T>, w: Complex<T>, x: nat -> Complex<T>, m: nat, s: nat, table: seq<Complex<T>>,
                               was: seq<Complex<T>>, now: seq<Complex<T>>, j: nat, base: nat)
    requires s < m && base == Scaled(Pow2(s + 1), j)
    requires IsTwiddleTable(k, w, m, table) && StageUpTo(k, w, x, m, s, was, base)
    requires GroupDone(k, table, was, now, base, Pow2(s), Pow2(m - s - 1), Pow2(s))
    ensures StageUpTo(k, w, x, m, s, now, base + 2 * Pow2(s))
  {
    hide IsTwiddleTable, Pow2, Partial, Scaled, Upper, Lower, ComplexRing;
    var half, stride := Pow2(s), Pow2(m - s - 1);
    forall i | 0 <= i < |now|
      ensures now[i] == Partial(ComplexRing(k), w, x, m, if i < base + 2 * half then s + 1 else s, i)
    {
      if base <= i < base + half {
        WrittenIs(k, w, x, m, s, table, was, j, base, i - base);
        assert now[base + (i - base)] == Upper(k, table, was, base, half, stride, i - base);
      } else if base + half <= i < base + 2 * half {
        WrittenIs(k, w, x, m, s, table, was, j, base, i - base - half);
        assert now[base + (i - base - half) + half] == Lower(k, table, was, base, half, stride, i - base - half);
      }
    }
  }

  lemma NextBlock(s: nat, j: nat)
    ensures Scaled(Pow2(s + 1), j + 1) == Scaled(Pow2(s + 1), j) + 2 * Pow2(s)
  {
    ScaledAdd(Pow2(s + 1), j, 1);
  }

  lemma WrittenIs<T(!new)>(k: Ring<T>, w: Complex<T>, x: nat -> Complex<T>, m: nat, s: nat, table: seq<Complex<T>>,
                           was: seq<Complex<T>>, j: nat, base: nat, o: nat)
    requires s < m && o < Pow2(s) && Scaled(Pow2(m - s - 1), o) < |table|
    requires base == Scaled(Pow2(s + 1), j) && base + o + Pow2(s) < |was|
    requires StageUpTo(k, w, x, m, s, was, base) && IsTwiddleTable(k, w, m, table)
    ensures Upper(k, table, was, base, Pow2(s), Pow2(m - s - 1), o) == Partial(ComplexRing(k), w, x, m, s + 1, base + o)
    ensures Lower(k, table, was, base, Pow2(s), Pow2(m - s - 1), o)
      == Partial(ComplexRing(k), w, x, m, s + 1, base + o + Pow2(s))
  {
    hide Pow2, Partial, Scaled, HalfTurn, Valid, CAdd, CMul, CNeg, Pow;
    ButterflyMeans(ComplexRing(k), w, x, m, s, j, o);
  }

  // ---------------------------------------------------------------- the transform, by parts

  /** A real and an imaginary part of the n-th term, from the parts of sample and power. */
  function TermRe<T>(k: Ring<T>, w: Complex<T>, re: seq<T>, im: seq<T>, i: nat): nat -> T
    requires |re| == |im|
  {
    (n: nat) => if n < |re| then Sub(k, k.mul(re[n], Pow(ComplexRing(k), w, n * i).re),
                                        k.mul(im[n], Pow(ComplexRing(k), w, n * i).im))
                else k.zero
  }

  function TermIm<T>(k: Ring<T>, w: Complex<T>, re: seq<T>, im: seq<T>, i: nat): nat -> T
    requires |re| == |im|
  {
    (n: nat) => if n < |re| then k.add(k.mul(re[n], Pow(ComplexRing(k), w, n * i).im),
                                       k.mul(im[n], Pow(ComplexRing(k), w, n * i).re))
                else k.zero
  }

  /** With w^(n i) = c + s i, the value at i is the sum of re[n] c - im[n] s and the sum of
      re[n] s + im[n] c. */
  lemma DftByParts<T(!new)>(k: Ring<T>, w: Complex<T>, re: seq<T>, im: seq<T>, i: nat)
    requires |re| == |im|
    ensures Dft(ComplexRing(k), w, Pairs(re, im), i)
      == Complex(Sum(k, TermRe(k, w, re, im, i), |re|), Sum(k, TermIm(k, w, re, im, i), |re|))
  {
    var v := Pairs(re, im);
    var c, p, q := ComplexRing(k), TermRe(k, w, re, im, i), TermIm(k, w, re, im, i);
    var f: nat -> Complex<T> := (n: nat) => Complex(p(n), q(n));
    hide Pow, Dft;
    forall n: nat | n < |v| ensures f(n) == c.mul(v[n], Pow(c, w, n * i)) {
      assert v[n] == Complex(re[n], im[n]);
    }
    DftIsSum(c, w, v, i, f);
    SumByParts(k, f, p, q, |re|);
  }

  lemma {:induction false} SumByParts<T(!new)>(k: Ring<T>, f: nat -> Complex<T>, re: nat -> T, im: nat -> T, n: nat)
    requires forall t: nat :: t < n ==> f(t) == Complex(re(t), im(t))
    ensures Sum(ComplexRing(k), f, n) == Complex(Sum(k, re, n), Sum(k, im, n))
  {
    if n > 0 {
      SumByParts(k, f, re, im, n - 1);
    }
  }

  // ---------------------------------------------------------------- sizes

  lemma {:induction false} Pow2Grows(a: nat, b: nat)
    ensures a < b ==> Pow2(a) < Pow2(b)
    ensures a <= b <==> Pow2(a) <= Pow2(b)
  {
    if a > 0 && b > 0 {
      Pow2Grows(a - 1, b - 1);
    } else if b > 0 {
      Pow2Grows(0, b - 1);
    } else if a > 0 {
      Pow2Grows(a - 1, 0);
    }
  }

  /** The stride of a stage, and the twiddle indices it uses. */
  lemma StageSizes(m: nat, s: nat, stride: nat)
    requires s < m && stride == Pow2(m - s - 1)
    ensures Div(Pow2(m), Pow2(s + 1)) == stride
    ensures forall o: nat :: o < Pow2(s) ==> Scaled(stride, o) < Pow2(m - 1)
  {
    Pow2Product(m - s - 1, s + 1);
    DivMod(Pow2(s + 1), stride, 0, Pow2(m));
    Pow2Product(m - s - 1, s);
    forall o: nat | o < Pow2(s) ensures Scaled(stride, o) < Pow2(m - 1) {
      hide Pow2;
      MulGrows(stride, o, Pow2(s));
    }
  }

  lemma MulGrows(a: nat, b: nat, c: nat)
    requires a > 0
    ensures b < c <==> a * b < a * c
  {
  }

  /** A block that starts inside the arrays ends inside them. */
  lemma BlockFits(m: nat, s: nat, j: nat)
    requires s < m && Scaled(Pow2(s + 1), j) < Pow2(m)
    ensures Scaled(Pow2(s + 1), j) + Pow2(s + 1) <= Pow2(m)
  {
    hide Pow2;
    Pow2Product(s + 1, m - s - 1);
    var length, blocks := Pow2(s + 1), Pow2(m - s - 1);
    MulGrows(length, j, blocks);
    ScaledAdd(length, j, 1);
    assert j + 1 <= blocks;
    MulGrows(length, blocks, j + 1);
  }

  // ---------------------------------------------------------------- the loops

  /** Every group of one stage. */
  method Stage<T(!new)>(k: Ring<T>, table: seq<Complex<T>>, re: array<T>, im: array<T>, length: nat,
                        ghost w: Complex<T>, ghost x: nat -> Complex<T>, ghost m: nat, ghost s: nat)
    requires re != im && re.Length == im.Length == Pow2(m)
    requires s < m && length == Pow2(s + 1) && IsTwiddleTable(k, w, m, table)
    requires StageUpTo(k, w, x, m, s, Pairs(re[..], im[..]), 0)
    modifies re, im
    ensures StageUpTo(k, w, x, m, s, Pairs(re[..], im[..]), Pow2(m))
  {
    hide *;
    var n, half := re.Length, length / 2;
    StageSizes(m, s, Pow2(m - s - 1));
    TableSize(k, w, m, table);
    HalfIs(s);
    var stride := Div(n, length);
    var base := 0;
    ghost var j: nat := 0;
    FirstBlock(s);
    while base < n
      invariant base <= n && base == Scaled(Pow2(s + 1), j)
      invariant StageUpTo(k, w, x, m, s, Pairs(re[..], im[..]), base)
    {
      BlockFits(m, s, j);
      NextBlock(s, j);
      ghost var was := Pairs(re[..], im[..]);
      Group(k, table, re, im, base, half, stride);
      GroupAdvances(k, w, x, m, s, table, was, Pairs(re[..], im[..]), j, base);
      base := base + length;
      j := j + 1;
    }
  }

  lemma HalfIs(s: nat)
    ensures Pow2(s + 1) == 2 * Pow2(s)
  {
  }

  lemma FirstBlock(s: nat)
    ensures Scaled(Pow2(s + 1), 0) == 0
  {
  }

  /** The transform in place: afterwards index i holds the i-th value of the definition. */
  method Transform<T(!new)>(k: Ring<T>, table: seq<Complex<T>>, re: array<T>, im: array<T>, ghost w: Complex<T>, m: nat)
    requires re != im && re.Length == im.Length == Pow2(m)
    requires Valid(k) && IsTwiddleTable(k, w, m, table)
    modifies re, im
    ensures forall i :: 0 <= i < Pow2(m) ==>
      Pairs(re[..], im[..])[i] == Dft(ComplexRing(k), w, old(Pairs(re[..], im[..])), i)
  {
    hide *;
    ghost var v := Pairs(re[..], im[..]);
    ghost var x := SampleAt(ComplexRing(k), v);
    ghost var re0, im0 := re[..], im[..];
    TableSize(k, w, m, table);
    NextLength(0);
    BitReverse(m, re, im);
    Reordered(k, w, m, re0, im0, re[..], im[..]);
    var length := 2;
    ghost var s: nat := 0;
    while length <= re.Length
      invariant s <= m && length == Pow2(s + 1)
      invariant AtStage(k, w, x, m, s, Pairs(re[..], im[..]))
    {
      Pow2Grows(s + 1, m);
      StageStarts(k, w, x, m, s, Pairs(re[..], im[..]));
      Stage(k, table, re, im, length, w, x, m, s);
      StageEnds(k, w, x, m, s, Pairs(re[..], im[..]));
      NextLength(s);
      length := 2 * length;
      s := s + 1;
    }
    Pow2Grows(s + 1, m);
    Finished(k, w, m, v, Pairs(re[..], im[..]));
  }

  lemma TableSize<T(!new)>(k: Ring<T>, w: Complex<T>, m: nat, table: seq<Complex<T>>)
    requires IsTwiddleTable(k, w, m, table)
    ensures m > 0 && |table| == Pow2(m - 1)
  {
    hide HalfTurn, Pow;
  }

  lemma NextLength(s: nat)
    ensures Pow2(s + 2) == 2 * Pow2(s + 1) && Pow2(1) == 2
  {
  }

  /** The arrays hold stage s everywhere. */
  ghost predicate AtStage<T>(k: Ring<T>, w: Complex<T>, x: nat -> Complex<T>, m: nat, s: nat, v: seq<Complex<T>>)
    requires s <= m
  {
    |v| == Pow2(m) && forall i :: 0 <= i < |v| ==> v[i] == Partial(ComplexRing(k), w, x, m, s, i)
  }

  lemma StageStarts<T(!new)>(k: Ring<T>, w: Complex<T>, x: nat -> Complex<T>, m: nat, s: nat, v: seq<Complex<T>>)
    requires s < m && AtStage(k, w, x, m, s, v)
    ensures StageUpTo(k, w, x, m, s, v, 0)
  {
    hide Partial, ComplexRing, Pow2;
  }

  lemma StageEnds<T(!new)>(k: Ring<T>, w: Complex<T>, x: nat -> Complex<T>, m: nat, s: nat, v: seq<Complex<T>>)
    requires s < m && StageUpTo(k, w, x, m, s, v, Pow2(m))
    ensures AtStage(k, w, x, m, s + 1, v)
  {
    hide Partial, ComplexRing, Pow2;
  }

  lemma Reordered<T(!new)>(k: Ring<T>, w: Complex<T>, m: nat, re0: seq<T>, im0: seq<T>, re: seq<T>, im: seq<T>)
    requires Valid(k) && |re0| == |im0| == |re| == |im| == Pow2(m)
    requires forall i :: 0 <= i < Pow2(m) ==>
      BitRev(m, i) < Pow2(m) && re[i] == re0[BitRev(m, i)] && im[i] == im0[BitRev(m, i)]
    ensures AtStage(k, w, SampleAt(ComplexRing(k), Pairs(re0, im0)), m, 0, Pairs(re, im))
  {
    ComplexRingValid(k);
    hide Partial, Pow2, BitRev, Valid;
    var v, now := Pairs(re0, im0), Pairs(re, im);
    forall i | 0 <= i < |now| ensures now[i] == Partial(ComplexRing(k), w, SampleAt(ComplexRing(k), v), m, 0, i) {
      assert now[i] == v[BitRev(m, i)];
      FirstStage(ComplexRing(k), w, SampleAt(ComplexRing(k), v), m, i);
    }
  }

  lemma Finished<T(!new)>(k: Ring<T>, w: Complex<T>, m: nat, v: seq<Complex<T>>, now: seq<Complex<T>>)
    requires |v| == Pow2(m) && AtStage(k, w, SampleAt(ComplexRing(k), v), m, m, now)
    ensures |now| == |v| && forall i :: 0 <= i < |now| ==> now[i] == Dft(ComplexRing(k), w, v, i)
  {
    hide Partial, Pow2, Dft, SampleAt, ComplexRing;
    forall i | 0 <= i < |now| ensures now[i] == Dft(ComplexRing(k), w, v, i) {
      LastStage(ComplexRing(k), w, v, m, i);
    }
  }
}
