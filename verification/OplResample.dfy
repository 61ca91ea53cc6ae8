/** The fixed-point resampler between the chip's native rate and the rate of the caller. */
module OplResample {
  import opened Bits

  /** One output sample advances time by 1 << RSM_FRAC. */
  const STEP: nat := 1024

  type sample = x: int | -32768 <= x <= 32767

  datatype Stereo = Stereo(left: sample, right: sample)

  /** Integer division as C has it, rounding toward zero. */
  function Quotient(a: int, d: nat): (q: int)
    requires d > 0
    ensures a >= 0 ==> q >= 0 && q * d <= a < q * d + d
    ensures a <= 0 ==> q <= 0 && q * d - d < a <= q * d
  {
    if a >= 0 then a / d else -(-a / d)
  }

  predicate Between(x: int, a: int, b: int) {
    a <= x <= b || b <= x <= a
  }

  lemma QuotientBounds(a: int, d: nat, lo: int, hi: int)
    requires d > 0 && lo * d <= a <= hi * d
    ensures lo <= Quotient(a, d) <= hi
  {
    if a >= 0 {
      var q, r := a / d, a % d;
      assert a == q * d + r;
      Ordered(lo, q, d, r);
      Ordered'(q, hi, d, r);
    } else {
      var q, r := -a / d, -a % d;
      assert -a == q * d + r;
      assert -hi * d == -(hi * d) && -lo * d == -(lo * d);
      Ordered(-hi, q, d, r);
      Ordered'(q, -lo, d, r);
    }
  }

  lemma Ordered(a: int, q: int, d: nat, r: nat)
    requires r < d && a * d <= q * d + r
    ensures a <= q
  {
    var t := a - q;
    assert t * d == a * d - q * d;
    if t > 0 {
      MulFarFromZero(t, d);
    }
  }

  lemma Ordered'(q: int, b: int, d: nat, r: nat)
    requires d > 0 && q * d + r <= b * d
    ensures q <= b
  {
    var t := q - b;
    assert t * d == q * d - b * d;
    if t > 0 {
      MulFarFromZero(t, d);
    }
  }

  /** Weight c of d on b, the rest on a. */
  function Blend(a: int, b: int, c: nat, d: nat): int
    requires c < d
  {
    Quotient(a * (d - c) + b * c, d)
  }

  /** An output sample lies between the native samples around it, and the sum under the
      division fits 32 bits. */
  lemma BlendBetween(a: sample, b: sample, c: nat, d: nat)
    requires c < d
    ensures Between(Blend(a, b, c, d), a, b)
    ensures d <= 65536 ==> -0x8000_0000 <= a * (d - c) + b * c < 0x8000_0000
  {
    hide Quotient;
    var sum := a * (d - c) + b * c;
    var lo, hi := if a <= b then a else b, if a <= b then b else a;
    Scaled(lo, a, hi, d - c);
    Scaled(lo, b, hi, c);
    assert lo * (d - c) + lo * c == lo * d && hi * (d - c) + hi * c == hi * d;
    QuotientBounds(sum, d, lo, hi);
    Scaled(-32768, lo, 32767, d);
    Scaled(-32768, hi, 32767, d);
  }

  /** The sample is on the line from a to b, c parts of d along, but for a rounding by less than one. */
  lemma BlendIsLinear(a: sample, b: sample, c: nat, d: nat)
    requires c < d
    ensures 0 - d < Blend(a, b, c, d) * d - (a * d + (b - a) * c) < d
    ensures Blend(a, b, 0, d) == a
  {
    hide Quotient;
    assert a * (d - c) + b * c == a * d + (b - a) * c;
    BlendBetween(a, a, 0, d);
    assert a * (d - 0) + b * 0 == a * (d - 0) + a * 0;
  }

  lemma Scaled(lo: int, x: int, hi: int, w: nat)
    requires lo <= x <= hi
    ensures lo * w <= x * w <= hi * w
  {
    assert (x - lo) * w >= 0 && (hi - x) * w >= 0;
  }

  function BlendStereo(a: Stereo, b: Stereo, c: nat, d: nat): (r: Stereo)
    requires c < d
    ensures Between(r.left, a.left, b.left) && Between(r.right, a.right, b.right)
  {
    BlendBetween(a.left, b.left, c, d);
    BlendBetween(a.right, b.right, c, d);
    Stereo(Blend(a.left, b.left, c, d), Blend(a.right, b.right, c, d))
  }

  /** Native sample k, counting from 1; both kept samples start as silence. */
  function Heard(native: nat -> Stereo, k: int): Stereo {
    if k <= 0 then Stereo(0, 0) else native(k)
  }

  lemma HeardNext(native: nat -> Stereo, k: nat)
    ensures Heard(native, k + 1) == native(k + 1)
  {
  }

  /** Output n, from its position 1024 n in units of 1/ratio of a native sample. */
  function Output(native: nat -> Stereo, ratio: nat, n: nat): Stereo
    requires ratio > 0
  {
    var g, c := STEP * n / ratio, STEP * n % ratio;
    BlendStereo(Heard(native, g - 1), Heard(native, g), c, ratio)
  }

  class Resampler {
    const rateratio: nat
    /** What call k of the chip's generator, counting from 1, returns. */
    const native: nat -> Stereo
    var samplecnt: nat
    var oldsamples: Stereo
    var samples: Stereo
    /** Calls of the generator so far, the position in native. */
    var generated: nat
    /** Output samples so far. */
    ghost var produced: nat

    /** No time is lost: native samples taken and the fraction left make up the time produced. */
    ghost predicate Valid()
      reads this
    {
      && rateratio > 0
      && generated * rateratio + samplecnt == STEP * produced
      && samples == Heard(native, generated)
      && oldsamples == Heard(native, generated - 1)
      && samplecnt < rateratio + STEP
    }

    constructor (ratio: nat, chip: nat -> Stereo)
      requires ratio > 0
      ensures Valid() && rateratio == ratio && native == chip && produced == 0
    {
      rateratio, native, samplecnt := ratio, chip, 0;
      oldsamples, samples := Stereo(0, 0), Stereo(0, 0);
      generated, produced := 0, 0;
    }

    /** OPL3_GenerateResampled */
    method GenerateResampled() returns (buf: Stereo)
      requires Valid()
      modifies this
      ensures Valid() && produced == old(produced) + 1
      ensures generated == STEP * old(produced) / rateratio
      ensures buf == Output(native, rateratio, old(produced))
      ensures Between(buf.left, oldsamples.left, samples.left) && Between(buf.right, oldsamples.right, samples.right)
    {
      hide BlendStereo, Heard;
      while samplecnt >= rateratio
        invariant generated * rateratio + samplecnt == STEP * produced && produced == old(produced)
        invariant samples == Heard(native, generated) && oldsamples == Heard(native, generated - 1)
        decreases samplecnt
      {
        HeardNext(native, generated);
        oldsamples := samples;
        generated := generated + 1;
        samples := native(generated);
        samplecnt := samplecnt - rateratio;
      }
      DivModUnique(STEP * produced, rateratio, generated, samplecnt);
      buf := BlendStereo(oldsamples, samples, samplecnt, rateratio);
      samplecnt := samplecnt + STEP;
      produced := produced + 1;
    }
  }

  /** At the native rate the resampler is a delay of one sample. */
  lemma NativeRate(native: nat -> Stereo, n: nat)
    ensures Output(native, STEP, n) == Heard(native, n - 1)
  {
    var a := Heard(native, n - 1);
    DivModUnique(STEP * n, STEP, n, 0);
  }
}
