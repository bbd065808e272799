/**
  The bit-string abstraction that the bucket enumerator uses (`zeroBits`,
  `setBit`, `bitIsSet`, `nBits`, `bitsToInt`). Its implementation is not part
  of this model: each operation is specified only by how buckets.c uses it.

  A bit-string is a sequence of booleans indexed from the least significant
  bit, so element `i` carries the weight 2^i and the width is the length.
 */
module BitStrings {

  type Bits = seq<bool>

  /** 2^n; for n <= 30 this is the C expression `1 << n`. */
  function Pow2(n: nat): (r: nat)
    ensures r > 0
  {
    if n == 0 then 1 else 2 * Pow2(n - 1)
  }

  /** Halving and then dividing by p is dividing by 2p. */
  lemma DivHalf(x: nat, p: nat)
    requires p > 0
    ensures (x / 2) / p == x / (2 * p)
  {
    var q, r := (x / 2) / p, (x / 2) % p;
    assert x / 2 == q * p + r;
    assert x == (2 * p) * q + (2 * r + x % 2);
    assert 0 <= 2 * r + x % 2 < 2 * p;
    DivUnique(x, 2 * p, q, 2 * r + x % 2);
  }

  /** Integer division is determined by quotient and remainder. */
  lemma DivUnique(x: nat, d: nat, q: nat, r: nat)
    requires d > 0 && x == d * q + r && r < d
    ensures x / d == q
  {
    var q', r' := x / d, x % d;
    assert d * q' + r' == d * q + r;
    if q' < q {
      var k := q - q';
      assert d * q == d * q' + d * k;
      MulAtLeast(d, k);
    } else if q' > q {
      var k := q' - q;
      assert d * q' == d * q + d * k;
      MulAtLeast(d, k);
    }
  }

  lemma {:induction false} MulAtLeast(d: nat, k: nat)
    requires k >= 1
    ensures d * k >= d
  {
    if k > 1 {
      MulAtLeast(d, k - 1);
      assert d * k == d * (k - 1) + d;
    }
  }

  /** Bit `j` of the non-negative integer `x`, the C test `x & (1 << j)`:
      the quotient of x by 2^j is odd. */
  function TestBit(x: nat, j: nat): (r: bool)
    ensures r == ((x / Pow2(j)) % 2 == 1)
  {
    if j == 0 then x % 2 == 1
    else
      DivHalf(x, Pow2(j - 1));
      TestBit(x / 2, j - 1)
  }

  /** `zeroBits(n)`: a bit-string of width n with no bit set. */
  function ZeroBits(n: nat): (r: Bits)
    requires 0 < n < 32
    ensures |r| == n
    ensures forall i :: 0 <= i < n ==> !r[i]
  {
    seq(n, _ => false)
  }

  /** `nBits(b)`: the width of `b`, which bounds its value. */
  function NBits(b: Bits): (w: nat)
    ensures BitsToInt(b) < Pow2(w)
  {
    |b|
  }

  /** `bitIsSet(b, i)`: whether bit i of `b` is 1, that is, bit i of its value. */
  function BitIsSet(b: Bits, i: nat): (r: bool)
    requires i < |b|
    ensures r == TestBit(BitsToInt(b), i)
  {
    BitsToIntRoundTrip(b);
    IntToBitsAt(BitsToInt(b), |b|, i);
    b[i]
  }

  /** `setBit(b, i)`: `b` with bit i set and every other bit as it was. */
  function SetBit(b: Bits, i: nat): (r: Bits)
    requires i < |b|
    ensures |r| == |b| && r[i]
    ensures forall k :: 0 <= k < |b| && k != i ==> r[k] == b[k]
  {
    b[i := true]
  }

  /** `bitsToInt(b)`: the sum of 2^i over the set bits i of `b`. */
  function BitsToInt(b: Bits): (r: nat)
    ensures r < Pow2(|b|)
  {
    if b == [] then 0 else (if b[0] then 1 else 0) + 2 * BitsToInt(b[1..])
  }

  /** The n low bits of `x`, least significant first: the inverse of BitsToInt. */
  function IntToBits(x: nat, n: nat): (r: Bits)
    ensures |r| == n
  {
    if n == 0 then [] else [x % 2 == 1] + IntToBits(x / 2, n - 1)
  }

  /** Element j of the n-bit expansion of `x` is bit j of `x`. */
  lemma {:induction false} IntToBitsAt(x: nat, n: nat, j: nat)
    requires j < n
    ensures IntToBits(x, n)[j] == TestBit(x, j)
  {
    if j > 0 {
      IntToBitsAt(x / 2, n - 1, j - 1);
    }
  }

  /** Reading a bit-string as an integer and expanding it again gives it back. */
  lemma {:induction false} BitsToIntRoundTrip(b: Bits)
    ensures IntToBits(BitsToInt(b), |b|) == b
  {
    if b != [] {
      var x := BitsToInt(b);
      assert x / 2 == BitsToInt(b[1..]);
      BitsToIntRoundTrip(b[1..]);
      assert b == [b[0]] + b[1..];
    }
  }

  /** Every integer below 2^n is the value of its n-bit expansion. */
  lemma {:induction false} IntToBitsRoundTrip(x: nat, n: nat)
    requires x < Pow2(n)
    ensures BitsToInt(IntToBits(x, n)) == x
  {
    if n > 0 {
      var r := IntToBits(x, n);
      assert r[1..] == IntToBits(x / 2, n - 1);
      IntToBitsRoundTrip(x / 2, n - 1);
    }
  }

  /** Two bit-strings of one width with the same value are equal. */
  lemma BitsToIntInjective(a: Bits, b: Bits)
    requires |a| == |b| && BitsToInt(a) == BitsToInt(b)
    ensures a == b
  {
    BitsToIntRoundTrip(a);
    BitsToIntRoundTrip(b);
  }

  /** A bit-string with no bit set has the value 0. */
  lemma {:induction false} BitsToIntAllClear(b: Bits)
    requires forall i :: 0 <= i < |b| ==> !b[i]
    ensures BitsToInt(b) == 0
  {
    if b != [] {
      BitsToIntAllClear(b[1..]);
    }
  }

  /** `zeroBits(n)` has the value 0. */
  lemma ZeroBitsValue(n: nat)
    requires 0 < n < 32
    ensures BitsToInt(ZeroBits(n)) == 0
  {
    BitsToIntAllClear(ZeroBits(n));
  }

  /** Setting a clear bit i adds 2^i to the value. */
  lemma {:induction false} BitsToIntSetBit(b: Bits, i: nat)
    requires i < |b| && !b[i]
    ensures BitsToInt(SetBit(b, i)) == BitsToInt(b) + Pow2(i)
  {
    var r := SetBit(b, i);
    if i > 0 {
      assert r[1..] == SetBit(b[1..], i - 1);
      BitsToIntSetBit(b[1..], i - 1);
    } else {
      assert r[1..] == b[1..];
    }
  }

  /** The value of `setBit(zeroBits(n), i)` is 2^i. */
  lemma SetBitOfZero(n: nat, i: nat)
    requires 0 < n < 32 && i < n
    ensures BitsToInt(SetBit(ZeroBits(n), i)) == Pow2(i)
  {
    ZeroBitsValue(n);
    BitsToIntSetBit(ZeroBits(n), i);
  }
}
