/** Bytes, powers of two, and bit strings written least significant bit first. */
module Bits {

  type byte = x: int | 0 <= x < 256

  function Pow2(n: nat): (r: nat)
    ensures r > 0
  {
    if n == 0 then 1 else 2 * Pow2(n - 1)
  }

  /** The low n bits of v, least significant first. */
  function BitsOf(v: nat, n: nat): (b: seq<bool>)
    ensures |b| == n
  {
    if n == 0 then [] else [v % 2 == 1] + BitsOf(v / 2, n - 1)
  }

  /** The number whose bits, least significant first, are b. */
  function Value(b: seq<bool>): nat {
    if b == [] then 0 else (if b[0] then 1 else 0) + 2 * Value(b[1..])
  }

  function BitOr(a: nat, b: nat): nat
    decreases a + b
  {
    if a == 0 && b == 0 then 0
    else (if a % 2 == 1 || b % 2 == 1 then 1 else 0) + 2 * BitOr(a / 2, b / 2)
  }

  function BitAnd(a: nat, b: nat): nat
    decreases a + b
  {
    if a == 0 && b == 0 then 0
    else (if a % 2 == 1 && b % 2 == 1 then 1 else 0) + 2 * BitAnd(a / 2, b / 2)
  }

  function ByteBits(bs: seq<byte>): (b: seq<bool>)
    ensures |b| == 8 * |bs|
  {
    if bs == [] then [] else ByteBits(bs[..|bs| - 1]) + BitsOf(bs[|bs| - 1], 8)
  }

  lemma Assoc<T>(a: seq<T>, b: seq<T>, c: seq<T>)
    ensures (a + b) + c == a + (b + c)
  {
  }

  lemma {:induction false} Pow2Sum(m: nat, n: nat)
    ensures Pow2(m + n) == Pow2(m) * Pow2(n)
  {
    if m > 0 {
      Pow2Sum(m - 1, n);
    }
  }

  lemma {:induction false} Pow2Grows(m: nat, n: nat)
    requires m < n
    ensures Pow2(m) < Pow2(n)
  {
    if m + 1 < n {
      Pow2Grows(m, n - 1);
    }
  }

  lemma {:induction false} ValueOfBits(v: nat, n: nat)
    requires v < Pow2(n)
    ensures Value(BitsOf(v, n)) == v
  {
    if n > 0 {
      ValueOfBits(v / 2, n - 1);
      assert BitsOf(v, n)[1..] == BitsOf(v / 2, n - 1);
    }
  }

  lemma {:induction false} BitsOfValue(b: seq<bool>)
    ensures Value(b) < Pow2(|b|) && BitsOf(Value(b), |b|) == b
  {
    if b != [] {
      BitsOfValue(b[1..]);
    }
  }

  lemma HalfOfSplit(v: nat, h: nat)
    requires h > 0
    ensures v % (2 * h) % 2 == v % 2 && v % (2 * h) / 2 == v / 2 % h && v / (2 * h) == v / 2 / h
  {
    var q, r := v / 2 / h, v / 2 % h;
    assert v == 2 * (q * h + r) + v % 2;
    var low := 2 * r + v % 2;
    assert v == q * (2 * h) + low && 0 <= low < 2 * h;
    DivModUnique(v, 2 * h, q, low);
  }

  lemma MulFarFromZero(t: int, d: int)
    requires t != 0 && d > 0
    ensures t * d >= d || t * d <= -d
  {
    if t > 0 {
      assert t * d >= 1 * d;
    } else {
      assert t * d <= -1 * d;
    }
  }

  lemma DivModUnique(v: nat, d: nat, q: nat, r: nat)
    requires d > 0 && v == q * d + r && r < d
    ensures v / d == q && v % d == r
  {
    var q', r' := v / d, v % d;
    assert v == q' * d + r' && 0 <= r' < d;
    assert (q - q') * d == q * d - q' * d;
    if q != q' {
      MulFarFromZero(q - q', d);
    }
  }

  lemma ModPlus(a: nat, k: nat, d: nat)
    requires d > 0
    ensures (a % d + k) % d == (a + k) % d
  {
    var q, p, r := a / d, (a % d + k) / d, (a % d + k) % d;
    assert a == q * d + a % d && a % d + k == p * d + r;
    Distribute(q, p, d);
    DivModUnique(a + k, d, q + p, r);
  }

  /** Conversion to eight bits and back. */
  lemma OctetBack(n: nat)
    requires n < 256
    ensures (n as bv8) as nat == n
  {
    // One range of octets at a time.
    if n < 16 {
    } else if n < 32 {
    } else if n < 64 {
    } else if n < 128 {
    } else if n < 192 {
    } else {
    }
  }

  lemma Distribute(q: int, p: int, d: int)
    ensures (q + p) * d == q * d + p * d
  {
  }

  lemma DoubleProduct(q: nat, p: nat)
    ensures q * (2 * p) == 2 * (q * p)
  {
  }

  lemma MultipleOfProduct(x: nat, a: nat, b: nat)
    requires a > 0 && b > 0
    ensures x % (a * b) == 0 ==> x % a == 0
  {
    var q := x / (a * b);
    Regroup(q, a, b);
    if x % (a * b) == 0 {
      DivModUnique(x, a, q * b, 0);
    }
  }

  lemma Regroup(q: nat, a: nat, b: nat)
    ensures q * (a * b) == (q * b) * a
  {
  }

  lemma EvenQuotient(x: nat, d: nat)
    requires d > 0
    ensures x % (2 * d) == 0 ==> x / d % 2 == 0
  {
    HalfOfMultiple(x / (2 * d), d);
    if x % (2 * d) == 0 {
      DivModUnique(x, d, 2 * (x / (2 * d)), 0);
    }
  }

  lemma HalfOfMultiple(q: nat, d: nat)
    ensures q * (2 * d) == 2 * q * d
  {
  }

  lemma MulMono(a: int, b: int, c: nat)
    ensures a <= b ==> a * c <= b * c
  {
  }

  lemma {:induction false} SplitBits(q: nat, r: nat, m: nat, n: nat)
    requires r < Pow2(m)
    ensures BitsOf(q * Pow2(m) + r, m + n) == BitsOf(r, m) + BitsOf(q, n)
  {
    if m > 0 {
      var h := q * Pow2(m - 1);
      var v := q * Pow2(m) + r;
      assert Pow2(m) == 2 * Pow2(m - 1);
      hide Pow2;
      DoubleProduct(q, Pow2(m - 1));
      assert v == 2 * h + r && r / 2 < Pow2(m - 1);
      SplitBits(q, r / 2, m - 1, n);
      assert v / 2 == h + r / 2 && v % 2 == r % 2;
      assert BitsOf(v, m + n) == [v % 2 == 1] + BitsOf(v / 2, m - 1 + n);
      assert BitsOf(r, m) == [v % 2 == 1] + BitsOf(r / 2, m - 1);
      Assoc([v % 2 == 1], BitsOf(r / 2, m - 1), BitsOf(q, n));
    } else {
      assert q * Pow2(m) + r == q;
    }
  }

  /** Placing k above s low bits that p fills: the bitwise or of the source is a sum. */
  lemma {:induction false} OrDisjoint(p: nat, k: nat, s: nat)
    requires p < Pow2(s)
    ensures BitOr(p, k * Pow2(s)) == p + k * Pow2(s)
  {
    if s == 0 {
      OrZero(k);
    } else {
      var h := k * Pow2(s - 1);
      assert k * Pow2(s) == 2 * h;
      OrDisjoint(p / 2, k, s - 1);
    }
  }

  lemma {:induction false} OrZero(k: nat)
    ensures BitOr(0, k) == k
  {
    if k > 0 {
      OrZero(k / 2);
    }
  }

  lemma {:induction false} AndMask(v: nat, n: nat)
    ensures BitAnd(v, Pow2(n) - 1) == v % Pow2(n)
  {
    if n == 0 {
      AndZero(v);
    } else {
      HalfOfSplit(v, Pow2(n - 1));
      AndMask(v / 2, n - 1);
      assert (Pow2(n) - 1) / 2 == Pow2(n - 1) - 1;
    }
  }

  lemma {:induction false} AndZero(v: nat)
    ensures BitAnd(v, 0) == 0
  {
    if v > 0 {
      AndZero(v / 2);
    }
  }

  lemma ByteBitsSnoc(bs: seq<byte>, b: byte)
    ensures ByteBits(bs + [b]) == ByteBits(bs) + BitsOf(b, 8)
  {
    assert (bs + [b])[..|bs|] == bs;
  }
}
