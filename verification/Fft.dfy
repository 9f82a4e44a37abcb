/** The in-place radix-2 spectral kernel: bit reversal by a carry chain, then butterfly
    stages.  Samples are pairs over an arbitrary commutative ring, the twiddle table is
    powers of any w with w^(N/2) == -1, and N is any power of two from 2; the firmware's
    instance is N == 64. */
module Fft {
  function Pow2(n: nat): (p: nat)
    ensures p >= 1
  {
    if n == 0 then 1 else 2 * Pow2(n - 1)
  }

  /** The m-bit reversal of i. */
  function BitRev(m: nat, i: nat): nat {
    if m == 0 then 0 else (i % 2) * Pow2(m - 1) + BitRev(m - 1, i / 2)
  }

  // ---------------------------------------------------------------- bit reversal as a permutation

  lemma {:induction false} BitRevBound(m: nat, i: nat)
    ensures BitRev(m, i) < Pow2(m)
  {
    if m > 0 {
      BitRevBound(m - 1, i / 2);
    }
  }

  /** Reversal seen from the other end: the top bit becomes the bottom bit. */
  lemma {:induction false} BitRevTop(m: nat, high: nat, low: nat)
    requires m > 0 && high < 2 && low < Pow2(m - 1)
    ensures BitRev(m, high * Pow2(m - 1) + low) == 2 * BitRev(m - 1, low) + high
  {
    var i := high * Pow2(m - 1) + low;
    if m == 1 {
      assert BitRev(1, i) == (i % 2) * Pow2(0) + BitRev(0, i / 2);
    } else {
      assert Pow2(m - 1) == 2 * Pow2(m - 2);
      assert i % 2 == low % 2 && i / 2 == high * Pow2(m - 2) + low / 2 by {
        HalveShifted(high, Pow2(m - 2), low);
      }
      BitRevTop(m - 1, high, low / 2);
      TwiceProduct(low % 2, Pow2(m - 2));
    }
  }

  lemma HalveShifted(high: nat, p: nat, low: nat)
    requires high < 2
    ensures (high * (2 * p) + low) % 2 == low % 2 && (high * (2 * p) + low) / 2 == high * p + low / 2
  {
    if high == 1 {
      assert (2 * p + low) / 2 == p + low / 2;
    }
  }

  lemma TwiceProduct(b: nat, p: nat)
    ensures b * (2 * p) == 2 * (b * p)
  {
  }

  /** Reversing twice gives the index back, so reversal permutes the indices below 2^m. */
  lemma {:induction false} BitRevInvolution(m: nat, i: nat)
    requires i < Pow2(m)
    ensures BitRev(m, i) < Pow2(m) && BitRev(m, BitRev(m, i)) == i
  {
    BitRevBound(m, i);
    if m > 0 {
      BitRevInvolution(m - 1, i / 2);
      BitRevTop(m, i % 2, BitRev(m - 1, i / 2));
    }
  }

  // ---------------------------------------------------------------- the carry chain

  /** A single-bit test and flips, for a mask that is a power of two. */
  predicate BitSet(r: nat, bit: nat)
    requires bit > 0
  {
    (r / bit) % 2 == 1
  }

  /** The top bit of a reversal is the bottom bit of the index. */
  lemma TopBit(p: nat, q: nat)
    requires p > 0
    ensures BitRev(p - 1, q / 2) < Pow2(p - 1)
    ensures BitRev(p, q) == (if q % 2 == 1 then Pow2(p - 1) else 0) + BitRev(p - 1, q / 2)
    ensures BitSet(BitRev(p, q), Pow2(p - 1)) <==> q % 2 == 1
  {
    BitRevBound(p - 1, q / 2);
    ghost var top, rest := Pow2(p - 1), BitRev(p - 1, q / 2);
    assert BitRev(p, q) == (q % 2) * top + rest;
    hide BitRev, Pow2;
    if q % 2 == 1 {
      Quotient(1, top, rest);
    } else {
      Quotient(0, top, rest);
    }
  }

  lemma Quotient(high: nat, d: nat, rest: nat)
    requires rest < d && high < 2
    ensures (high * d + rest) / d == high
  {
  }

  /** One link of the carry chain: an odd index carries, an even one sets the top bit. */
  lemma CarryLink(p: nat, q: nat)
    requires p > 0 && q + 1 < Pow2(p)
    ensures BitSet(BitRev(p, q), Pow2(p - 1)) <==> q % 2 == 1
    ensures q % 2 == 0 ==> BitRev(p, q + 1) == BitRev(p, q) + Pow2(p - 1)
    ensures q % 2 == 1 ==> p > 1 && q / 2 + 1 < Pow2(p - 1) && Pow2(p - 1) / 2 == Pow2(p - 2)
    ensures q % 2 == 1 ==>
      BitRev(p, q) == BitRev(p - 1, q / 2) + Pow2(p - 1) && BitRev(p, q + 1) == BitRev(p - 1, q / 2 + 1)
  {
    hide BitRev, BitSet;
    TopBit(p, q);
    TopBit(p, q + 1);
    if q % 2 == 1 {
      assert (q + 1) / 2 == q / 2 + 1 && (q + 1) % 2 == 0;
      assert Pow2(p) == 2 * Pow2(p - 1) && Pow2(0) == 1;
    } else {
      assert (q + 1) / 2 == q / 2 && (q + 1) % 2 == 1;
    }
  }

  /** One iteration of the outer loop: from the reversal of i to the reversal of i + 1. */
  method NextReversed(m: nat, i: nat, r: nat) returns (next: nat)
    requires m > 0 && i + 1 < Pow2(m) && r == BitRev(m, i)
    ensures next == BitRev(m, i + 1)
  {
    next := r;
    var bit: nat := Pow2(m) / 2;
    ghost var p: nat, q: nat := m, i;
    assert bit == Pow2(m - 1);
    hide BitRev, BitSet, Pow2;
    while bit > 0 && BitSet(next, bit)
      invariant p > 0 && q + 1 < Pow2(p) && bit == Pow2(p - 1)
      invariant next == BitRev(p, q) && BitRev(m, i + 1) == BitRev(p, q + 1)
      decreases p
    {
      CarryLink(p, q);
      next := next - bit;
      bit := bit / 2;
      p, q := p - 1, q / 2;
    }
    CarryLink(p, q);
    next := next + bit;
  }

  // ---------------------------------------------------------------- reordering in place

  /** Where the sample at i came from, when the pairs below index have been exchanged. */
  ghost function Source(m: nat, index: nat, i: nat): nat {
    if i < index || BitRev(m, i) < index then BitRev(m, i) else i
  }

  lemma SourceStep(m: nat, index: nat, i: nat)
    requires index < Pow2(m) && i < Pow2(m)
    ensures BitRev(m, index) < Pow2(m)
    ensures var reversed := BitRev(m, index);
      Source(m, index + 1, i)
        == if index < reversed && i == index then Source(m, index, reversed)
           else if index < reversed && i == reversed then Source(m, index, index)
           else Source(m, index, i)
  {
    hide BitRev;
    BitRevInvolution(m, index);
    BitRevInvolution(m, i);
  }

  lemma SourceEnds(m: nat, i: nat)
    requires m > 0 && i < Pow2(m)
    ensures Source(m, 1, i) == i && Source(m, Pow2(m), i) == BitRev(m, i) < Pow2(m)
  {
    hide BitRev;
    BitRevZero(m);
    BitRevInvolution(m, i);
  }

  /** Exchange the samples of every index with those of its reversal, each pair once. */
  method BitReverse<T>(m: nat, re: array<T>, im: array<T>)
    requires m > 0 && re != im && re.Length == im.Length == Pow2(m)
    modifies re, im
    ensures forall i :: 0 <= i < Pow2(m) ==>
      BitRev(m, i) < Pow2(m) && re[i] == old(re[..])[BitRev(m, i)] && im[i] == old(im[..])[BitRev(m, i)]
  {
    ghost var n, re0, im0 := Pow2(m), re[..], im[..];
    SourcesAreBounded(m, 1);
    SourcesEnd(m);
    BitRevZero(m);
    hide BitRev, Source, Pow2;
    var index, reversed := 1, 0;
    while index < Pow2(m)
      invariant 1 <= index <= n && reversed == BitRev(m, index - 1)
      invariant Drawn(m, index, re[..], re0) && Drawn(m, index, im[..], im0)
    {
      hide Drawn;
      reversed := NextReversed(m, index - 1, reversed);
      DrawnStep(m, index, re[..], re0);
      DrawnStep(m, index, im[..], im0);
      if index < reversed {
        ghost var re1, im1 := re[..], im[..];
        re[index], re[reversed] := re[reversed], re[index];
        im[index], im[reversed] := im[reversed], im[index];
        assert re[..] == re1[index := re1[reversed]][reversed := re1[index]];
        assert im[..] == im1[index := im1[reversed]][reversed := im1[index]];
      }
      index := index + 1;
    }
  }

  /** Each element was drawn from its source. */
  ghost predicate Drawn<T>(m: nat, index: nat, now: seq<T>, was: seq<T>) {
    && |now| == |was| == Pow2(m)
    && (forall i :: 0 <= i < |now| ==> Source(m, index, i) < |was| && now[i] == was[Source(m, index, i)])
  }

  lemma DrawnStep<T>(m: nat, index: nat, now: seq<T>, was: seq<T>)
    requires index < Pow2(m) && Drawn(m, index, now, was)
    ensures BitRev(m, index) < Pow2(m)
    ensures var reversed := BitRev(m, index);
      Drawn(m, index + 1, if index < reversed then now[index := now[reversed]][reversed := now[index]] else now, was)
  {
    hide BitRev, Pow2;
    SourcesStep(m, index);
    var reversed := BitRev(m, index);
    var next := if index < reversed then now[index := now[reversed]][reversed := now[index]] else now;
    forall i | 0 <= i < |next| ensures Source(m, index + 1, i) < |was| && next[i] == was[Source(m, index + 1, i)] {
      hide Source;
      assert next[i]
        == now[if index >= reversed then i else if i == index then reversed else if i == reversed then index else i];
    }
  }

  lemma SourcesAreBounded(m: nat, index: nat)
    ensures forall i :: 0 <= i < Pow2(m) ==> Source(m, index, i) < Pow2(m)
  {
    forall i | 0 <= i < Pow2(m) ensures Source(m, index, i) < Pow2(m) {
      hide BitRev;
      BitRevBound(m, i);
    }
  }

  lemma SourcesStep(m: nat, index: nat)
    requires index < Pow2(m)
    ensures BitRev(m, index) < Pow2(m)
    ensures var reversed := BitRev(m, index); forall i: nat :: 0 <= i < Pow2(m) ==>
      && Source(m, index + 1, i) < Pow2(m)
      && Source(m, index + 1, i) == if index >= reversed then Source(m, index, i)
           else if i == index then Source(m, index, reversed)
           else if i == reversed then Source(m, index, index)
           else Source(m, index, i)
  {
    SourceStep(m, index, index);
    SourcesAreBounded(m, index + 1);
    forall i: nat | i < Pow2(m)
      ensures var reversed := BitRev(m, index);
        Source(m, index + 1, i)
          == if index >= reversed then Source(m, index, i)
             else if i == index then Source(m, index, reversed)
             else if i == reversed then Source(m, index, index)
             else Source(m, index, i)
    {
      hide BitRev, Source, Pow2;
      SourceStep(m, index, i);
    }
    hide BitRev, Source, Pow2;
  }

  lemma SourcesEnd(m: nat)
    requires m > 0
    ensures forall i :: 0 <= i < Pow2(m) ==> Source(m, 1, i) == i && Source(m, Pow2(m), i) == BitRev(m, i) < Pow2(m)
  {
    forall i | 0 <= i < Pow2(m) ensures Source(m, 1, i) == i && Source(m, Pow2(m), i) == BitRev(m, i) < Pow2(m) {
      hide BitRev, Source, Pow2;
      SourceEnds(m, i);
    }
  }

  lemma {:induction false} BitRevZero(m: nat)
    ensures BitRev(m, 0) == 0
  {
    if m > 0 {
      BitRevZero(m - 1);
    }
  }
}
