/**
 Padmé padding on 64-bit lengths: round up to a multiple of a power of two that keeps about as many
 leading bits as the length has bits in its exponent.
 */
module Padme {
  import opened Prelude

  const WORD: nat := 0x1_0000_0000_0000_0000

  function Pow2(n: nat): (p: nat)
    ensures p > 0
  {
    if n == 0 then 1 else 2 * Pow2(n - 1)
  }

  function Bits(x: nat): (n: nat) { if x == 0 then 0 else 1 + Bits(x / 2) }

  function LeadingZeros(x: nat): (n: int)
    requires x < WORD
  {
    64 - Bits(x)
  }

  /** `63.saturating_sub(leading_zeros)`: the exponent, and 0 for 0. */
  function Ilog2(x: nat): (e: nat)
    requires x < WORD
  {
    if LeadingZeros(x) > 63 then 0 else if LeadingZeros(x) < 0 then 63 else 63 - LeadingZeros(x)
  }

  /** How many low bits are rounded away. */
  function LowBits(len: nat): (z: nat)
    requires len < WORD
  {
    LogRange(len);
    var e := Ilog2(len);
    SaturatingSub(e, Ilog2(e) + 1)
  }

  /** Masking with the complement of `2^z - 1`. */
  function ClearLow(x: nat, z: nat): (r: nat) { if z == 0 then x else 2 * ClearLow(x / 2, z - 1) }

  /** The addition wraps around at 64 bits. */
  function PadmeLen(len: nat): (r: nat)
    requires len < WORD
  {
    ClearLow((len + (Pow2(LowBits(len)) - 1)) % WORD, LowBits(len))
  }

  function PaddingLen(len: nat): (r: nat)
    requires len < WORD
  {
    SaturatingSub(PadmeLen(len), len)
  }

  // ---- Powers and logarithms ----

  lemma {:induction false} PowSum(a: nat, b: nat)
    ensures Pow2(a + b) == Pow2(a) * Pow2(b)
    decreases a
  {
    if a > 0 { PowSum(a - 1, b); }
  }

  lemma PowGrows(a: nat, b: nat)
    requires a <= b
    ensures Pow2(a) <= Pow2(b) && (a < b ==> 2 * Pow2(a) <= Pow2(b))
  {
    PowSum(a, b - a);
    assert Pow2(a) * 1 <= Pow2(a) * Pow2(b - a);
    if a < b {
      assert Pow2(b - a) >= 2;
      assert Pow2(a) * 2 <= Pow2(a) * Pow2(b - a);
    }
  }

  lemma {:induction false} BitsBound(x: nat)
    ensures x < Pow2(Bits(x))
    ensures x > 0 ==> Bits(x) > 0 && Pow2(Bits(x) - 1) <= x
  {
    if x > 0 { BitsBound(x / 2); }
  }

  lemma PowWord()
    ensures Pow2(64) == WORD
  {
    assert Pow2(4) == 16;
    PowDouble(4, 16);
    PowDouble(8, 0x100);
    PowDouble(16, 0x1_0000);
    PowDouble(32, 0x1_0000_0000);
  }

  lemma PowDouble(n: nat, p: nat)
    requires Pow2(n) == p
    ensures Pow2(2 * n) == p * p
  {
    PowSum(n, n);
  }

  /** For positive words the exponent is the floor of the logarithm. */
  lemma LogRange(x: nat)
    requires x < WORD
    ensures Ilog2(x) <= 63 && x < Pow2(Ilog2(x) + 1) && (x > 0 ==> Pow2(Ilog2(x)) <= x)
  {
    BitsBound(x);
    if x == 0 {
      assert Pow2(1) == 2;
    } else if Bits(x) > 64 {
      PowGrows(64, Bits(x) - 1);
      PowWord();
    }
  }

  // ---- Rounding ----

  /** Divisible by `2^z`. */
  predicate Multiple(x: nat, z: nat) { z == 0 || (x % 2 == 0 && Multiple(x / 2, z - 1)) }

  /** Clearing the low bits gives the largest multiple not above. */
  lemma {:induction false} ClearIsFloor(x: nat, z: nat)
    ensures Multiple(ClearLow(x, z), z) && ClearLow(x, z) <= x < ClearLow(x, z) + Pow2(z)
  {
    if z > 0 { ClearIsFloor(x / 2, z - 1); }
  }

  lemma {:induction false} ClearIsLargest(x: nat, y: nat, z: nat)
    requires Multiple(y, z) && x < y + Pow2(z)
    ensures ClearLow(x, z) <= y
    decreases z
  {
    if z > 0 { ClearIsLargest(x / 2, y / 2, z - 1); }
  }

  lemma {:induction false} PowIsMultiple(n: nat, z: nat)
    requires z <= n
    ensures Multiple(Pow2(n), z)
    decreases z
  {
    if z > 0 { PowIsMultiple(n - 1, z - 1); }
  }

  function RoundUp(x: nat, z: nat): (r: nat) { ClearLow(x + (Pow2(z) - 1), z) }

  /** Adding the mask first rounds up: the least multiple not below. */
  lemma RoundUpIsCeiling(x: nat, z: nat)
    ensures Multiple(RoundUp(x, z), z) && x <= RoundUp(x, z) < x + Pow2(z)
  {
    ClearIsFloor(x + (Pow2(z) - 1), z);
  }

  lemma RoundUpIsLeast(x: nat, y: nat, z: nat)
    requires Multiple(y, z) && x <= y
    ensures RoundUp(x, z) <= y
  {
    ClearIsLargest(x + (Pow2(z) - 1), y, z);
  }

  // ---- Padmé ----

  /** The mask does not push the length over the word size. */
  predicate Fits(len: nat)
    requires len < WORD
  {
    len + (Pow2(LowBits(len)) - 1) < WORD
  }

  lemma PadmeRounds(len: nat)
    requires len < WORD && Fits(len)
    ensures PadmeLen(len) == RoundUp(len, LowBits(len)) && PadmeLen(len) < WORD
  {
    var x, z := len + (Pow2(LowBits(len)) - 1), LowBits(len);
    SmallRemainder(x);
    ClearIsFloor(x, z);
  }

  lemma SmallRemainder(x: nat)
    requires x < WORD
    ensures x % WORD == x
  {
  }

  /** The padded length is the least multiple of `2^z` not below the length. */
  lemma PadsToMultiple(len: nat)
    requires len < WORD && Fits(len)
    ensures len <= PadmeLen(len) < len + Pow2(LowBits(len)) && Multiple(PadmeLen(len), LowBits(len))
  {
    PadmeRounds(len);
    RoundUpIsCeiling(len, LowBits(len));
  }

  lemma LowBitsBelowExponent(len: nat)
    requires len < WORD
    ensures LowBits(len) <= Ilog2(len)
  {
    LogRange(len);
  }

  /** The padded length does not pass the next power of two. */
  lemma StaysBelowNextPower(len: nat)
    requires len < WORD && Fits(len)
    ensures PadmeLen(len) <= Pow2(Ilog2(len) + 1)
  {
    LogRange(len);
    LowBitsBelowExponent(len);
    PadmeRounds(len);
    PowIsMultiple(Ilog2(len) + 1, LowBits(len));
    RoundUpIsLeast(len, Pow2(Ilog2(len) + 1), LowBits(len));
  }

  lemma IsFixed(len: nat)
    requires len < WORD && Fits(len) && Multiple(len, LowBits(len))
    ensures PadmeLen(len) == len
  {
    PadmeRounds(len);
    RoundUpIsCeiling(len, LowBits(len));
    RoundUpIsLeast(len, len, LowBits(len));
  }

  lemma LogOfPower(k: nat)
    requires k < 64
    ensures Pow2(k) < WORD && Ilog2(Pow2(k)) == k
  {
    PowWord();
    PowGrows(k, 64);
    LogRange(Pow2(k));
    LogIsUnique(Pow2(k), k);
  }

  lemma LogIsUnique(x: nat, k: nat)
    requires x < WORD && Pow2(k) <= x < Pow2(k + 1)
    ensures Ilog2(x) == k
  {
    LogRange(x);
    var e := Ilog2(x);
    if e < k { PowGrows(e + 1, k); } else if k < e { PowGrows(k + 1, e); }
  }

  /** Adding the mask of a power of two stays within twice that power. */
  lemma PowerFits(k: nat)
    requires k < 64
    ensures Pow2(k) < WORD && Fits(Pow2(k))
  {
    LogOfPower(k);
    LowBitsBelowExponent(Pow2(k));
    PowGrows(LowBits(Pow2(k)), k);
    PowWord();
    PowGrows(k, 64);
  }

  lemma PowersAreFixed(k: nat)
    requires k < 64
    ensures Pow2(k) < WORD && PadmeLen(Pow2(k)) == Pow2(k)
  {
    PowerFits(k);
    LogOfPower(k);
    LowBitsBelowExponent(Pow2(k));
    PowIsMultiple(k, LowBits(Pow2(k)));
    IsFixed(Pow2(k));
  }

  lemma MonotoneWithinPower(a: nat, b: nat)
    requires a <= b < WORD && Fits(a) && Fits(b) && Ilog2(a) == Ilog2(b)
    ensures PadmeLen(a) <= PadmeLen(b)
  {
    PadsToMultiple(b);
    assert LowBits(a) == LowBits(b);
    PadmeRounds(a);
    RoundUpIsLeast(a, PadmeLen(b), LowBits(a));
  }

  lemma MonotoneAcrossPowers(a: nat, b: nat)
    requires a <= b < WORD && Fits(a) && Fits(b) && Ilog2(a) < Ilog2(b)
    ensures PadmeLen(a) <= PadmeLen(b)
  {
    StaysBelowNextPower(a);
    LogRange(b);
    PowGrows(Ilog2(a) + 1, Ilog2(b));
    PadsToMultiple(b);
  }

  lemma Monotone(a: nat, b: nat)
    requires a <= b < WORD && Fits(a) && Fits(b)
    ensures PadmeLen(a) <= PadmeLen(b)
  {
    LogGrows(a, b);
    if Ilog2(a) == Ilog2(b) { MonotoneWithinPower(a, b); } else { MonotoneAcrossPowers(a, b); }
  }

  lemma LogGrows(a: nat, b: nat)
    requires a <= b < WORD
    ensures Ilog2(a) <= Ilog2(b)
  {
    LogRange(a);
    LogRange(b);
    if a == 0 {
      assert Bits(0) == 0;
    } else if Ilog2(b) < Ilog2(a) {
      PowGrows(Ilog2(b) + 1, Ilog2(a));
    }
  }

  /** A multiple of its own `2^z` is padded to itself. */
  lemma MultiplesAreFixed(p: nat, e: nat, z: nat)
    requires p < WORD && Pow2(e) <= p <= Pow2(e + 1) && Multiple(p, z)
    requires e < 64 && z == SaturatingSub(e, Ilog2(e) + 1)
    ensures PadmeLen(p) == p
  {
    if p == Pow2(e + 1) {
      PowerBelowWord(e + 1);
      PowersAreFixed(e + 1);
    } else {
      LogIsUnique(p, e);
      MultipleFits(p);
      IsFixed(p);
    }
  }

  lemma PaddedFacts(len: nat, p: nat)
    requires 1 <= len < WORD && Fits(len) && p == PadmeLen(len)
    ensures p < WORD && Ilog2(len) < 64 && Pow2(Ilog2(len)) <= p <= Pow2(Ilog2(len) + 1) && Multiple(p, LowBits(len))
  {
    PadmeRounds(len);
    StaysBelowNextPower(len);
    PadsToMultiple(len);
    LogRange(len);
  }

  lemma ZeroIsFixed()
    ensures PadmeLen(0) == 0
  {
    assert LowBits(0) == 0;
  }

  lemma Idempotent(len: nat, p: nat)
    requires len < WORD && Fits(len) && p == PadmeLen(len)
    ensures p < WORD && PadmeLen(p) == p
  {
    if len == 0 {
      ZeroIsFixed();
    } else {
      PaddedFacts(len, p);
      MultiplesAreFixed(p, Ilog2(len), LowBits(len));
    }
  }

  lemma PowerBelowWord(k: nat)
    requires Pow2(k) < WORD
    ensures k < 64
  {
    PowWord();
    if k >= 64 { PowGrows(64, k); }
  }

  /** A multiple below the word size leaves room for the mask. */
  lemma MultipleFits(len: nat)
    requires len < WORD && Multiple(len, LowBits(len))
    ensures Fits(len)
  {
    LogRange(len);
    LowBitsBelowExponent(len);
    PowWord();
    PowIsMultiple(64, LowBits(len));
    MultiplesAreApart(len, WORD, LowBits(len));
  }

  lemma {:induction false} MultiplesAreApart(x: nat, y: nat, z: nat)
    requires Multiple(x, z) && Multiple(y, z) && x < y
    ensures x + Pow2(z) <= y
    decreases z
  {
    if z > 0 { MultiplesAreApart(x / 2, y / 2, z - 1); }
  }

  // ---- How much is added ----

  /** Padding is a vanishing share: times the bit length it stays below the length. */
  lemma PaddingIsSmall(len: nat)
    requires 1 <= len < WORD && Fits(len)
    ensures PaddingLen(len) * (Ilog2(len) + 1) < len
  {
    PadsToMultiple(len);
    LogRange(len);
    var e, z := Ilog2(len), LowBits(len);
    if z == 0 {
      assert Pow2(0) == 1 && PaddingLen(len) == 0;
    } else {
      LogRange(e);
      var s := Ilog2(e) + 1;
      assert e == z + s;
      PowSum(z, s);
      ShareBound(PaddingLen(len), e + 1, Pow2(z), Pow2(s), Pow2(e));
    }
  }

  lemma ShareBound(pad: nat, n: nat, a: nat, b: nat, ab: nat)
    requires pad < a && n <= b && a * b == ab && b > 0
    ensures pad * n < ab
  {
    assert pad * n <= pad * b;
    assert pad * b < a * b by { assert (a - pad) * b > 0; }
  }

  /** And never above 12 percent. */
  lemma PaddingIsBelowTwelvePercent(len: nat)
    requires 1 <= len < WORD && Fits(len)
    ensures 100 * PaddingLen(len) <= 12 * len
  {
    PadsToMultiple(len);
    LogRange(len);
    var e, z := Ilog2(len), LowBits(len);
    if z == 0 {
      assert Pow2(0) == 1;
    } else if e >= 8 {
      LargeLengths(e, z);
    } else {
      SmallLengths(len);
    }
  }

  /** From 256 on the exponent has at least four bits, so at most a sixteenth is added. */
  lemma LargeLengths(e: nat, z: nat)
    requires 8 <= e <= 63 && z == SaturatingSub(e, Ilog2(e) + 1)
    ensures 16 * Pow2(z) <= Pow2(e)
  {
    SharedExponent(e);
    PowGrows(z + 4, e);
    Sixteenfold(z);
  }

  lemma Sixteenfold(n: nat)
    ensures Pow2(n + 4) == 16 * Pow2(n)
  {
    assert Pow2(n + 2) == 4 * Pow2(n) && Pow2(n + 4) == 4 * Pow2(n + 2);
  }

  lemma SharedExponent(e: nat)
    requires 8 <= e <= 63
    ensures Ilog2(e) >= 3
  {
    LogGrows(8, e);
    assert Pow2(3) == 8 && Pow2(4) == 16;
    LogIsUnique(8, 3);
  }

  /** Below 256 only lengths off a power of two are padded, and by at most 15. */
  lemma SmallLengths(len: nat)
    requires 1 <= len < WORD && Fits(len) && Ilog2(len) <= 7
    ensures 100 * PaddingLen(len) <= 12 * len
  {
    var e, z := Ilog2(len), LowBits(len);
    LogRange(len);
    PadsToMultiple(len);
    SmallLogs();
    if len == Pow2(e) {
      PowersAreFixed(e);
    } else {
      PowValues();
    }
  }

  lemma SmallLogs()
    ensures Ilog2(0) == 0 && Ilog2(1) == 0 && Ilog2(2) == 1 && Ilog2(3) == 1
    ensures Ilog2(4) == 2 && Ilog2(5) == 2 && Ilog2(6) == 2 && Ilog2(7) == 2
  {
    PowValues();
    LogIsUnique(1, 0);
    LogIsUnique(2, 1);
    LogIsUnique(3, 1);
    forall k | 4 <= k < 8 ensures Ilog2(k) == 2 { LogIsUnique(k, 2); }
  }

  lemma PowValues()
    ensures Pow2(0) == 1 && Pow2(1) == 2 && Pow2(2) == 4 && Pow2(3) == 8 && Pow2(4) == 16
    ensures Pow2(5) == 32 && Pow2(6) == 64 && Pow2(7) == 128
  {
    assert Pow2(4) == 16;
    assert Pow2(7) == 128;
  }

  // ---- In numbers, without the bit operations ----

  lemma Scales(a: nat, b: nat, unit: nat)
    requires a < b && unit > 0
    ensures a * unit + unit <= b * unit
  {
    assert b * unit == a * unit + unit + (b - a - 1) * unit;
  }

  lemma Cancels(a: nat, b: nat, unit: nat)
    requires a * unit <= b * unit && unit > 0
    ensures a <= b
  {
    if b < a { Scales(b, a, unit); }
  }

  lemma Doubles(k: nat, p: nat)
    ensures 2 * (k * p) == k * (2 * p)
  {
  }

  lemma {:induction false} MultipleIsProduct(x: nat, z: nat) returns (k: nat)
    requires Multiple(x, z)
    ensures x == k * Pow2(z)
  {
    if z == 0 {
      k := x;
    } else {
      k := MultipleIsProduct(x / 2, z - 1);
      Doubles(k, Pow2(z - 1));
    }
  }

  /** `e` is the exponent of the length and `f` that of `e`. */
  predicate Exponents(len: nat, e: nat, f: nat) {
    Pow2(e) <= len < Pow2(e + 1) && Pow2(f) <= e < Pow2(f + 1)
  }

  lemma {:induction false} PowAboveExponent(f: nat)
    ensures f + 1 <= Pow2(f)
  {
    if f > 0 { PowAboveExponent(f - 1); }
  }

  lemma ExponentsGiveLowBits(len: nat, e: nat, f: nat)
    requires len < WORD && Exponents(len, e, f)
    ensures f + 1 <= e && LowBits(len) == e - f - 1
  {
    LogRange(len);
    LogIsUnique(len, e);
    LogIsUnique(e, f);
    PowAboveExponent(f);
  }

  /**
   The padded length is the least multiple of `2^(e - f - 1)` that is not below the length: it keeps
   the leading bit and `f + 1` bits behind it.
   */
  lemma PadsToLeastMultiple(len: nat, e: nat, f: nat) returns (k: nat)
    requires Exponents(len, e, f) && f + 1 <= e && len + (Pow2(e - f - 1) - 1) < WORD
    ensures PadmeLen(len) == k * Pow2(e - f - 1) && len <= PadmeLen(len) < len + Pow2(e - f - 1)
  {
    ExponentsGiveLowBits(len, e, f);
    PadsToMultiple(len);
    k := MultipleIsProduct(PadmeLen(len), e - f - 1);
  }

  /** Only 0 and 1 have no two exponents, and they are not padded. */
  lemma TinyLengthsAreFixed(len: nat)
    requires len < WORD
    ensures len >= 2 <==> exists e: nat, f: nat :: Exponents(len, e, f)
    ensures len < 2 ==> PadmeLen(len) == len
  {
    LogRange(len);
    SmallLogs();
    assert Pow2(0) == 1 && Pow2(1) == 2;
    if len >= 2 {
      LogGrows(2, len);
      LogRange(Ilog2(len));
      assert Exponents(len, Ilog2(len), Ilog2(Ilog2(len)));
    } else {
      forall e: nat, f: nat ensures !Exponents(len, e, f) { if e > 0 { PowGrows(1, e); } }
    }
  }

  /** Among the lengths with these exponents, a padded length is one of few multiples. */
  lemma PaddedIsFactor(len: nat, e: nat, f: nat) returns (k: nat)
    requires Exponents(len, e, f) && f + 1 <= e && len + (Pow2(e - f - 1) - 1) < WORD
    ensures PadmeLen(len) == k * Pow2(e - f - 1) && Pow2(f + 1) <= k <= 2 * Pow2(f + 1)
  {
    var unit, n := Pow2(e - f - 1), Pow2(f + 1);
    k := PadsToLeastMultiple(len, e, f);
    ExponentsGiveLowBits(len, e, f);
    StaysBelowNextPower(len);
    LogIsUnique(len, e);
    PowSum(f + 1, e - f - 1);
    Doubles(n, unit);
    FactorBetween(n, k, unit);
  }

  lemma FactorBetween(n: nat, k: nat, unit: nat)
    requires n * unit <= k * unit <= 2 * (n * unit) && unit > 0
    ensures n <= k <= 2 * n
  {
    Cancels(n, k, unit);
    assert 2 * (n * unit) == (2 * n) * unit;
    Cancels(k, 2 * n, unit);
  }

  predicate IsMultiple(p: nat, lo: nat, hi: nat, unit: nat) { exists k | lo <= k <= hi :: p == k * unit }

  /** So the lengths of one power of two have at most `2^(f + 1) + 1` padded values between them. */
  lemma FewPaddedLengths(e: nat, f: nat, lens: set<nat>)
    requires f + 1 <= e && forall len | len in lens :: Exponents(len, e, f) && len + (Pow2(e - f - 1) - 1) < WORD
    ensures |set len | len in lens && len < WORD :: PadmeLen(len)| <= Pow2(f + 1) + 1
  {
    var n, unit, padded := Pow2(f + 1), Pow2(e - f - 1), set len | len in lens && len < WORD :: PadmeLen(len);
    forall p | p in padded
      ensures IsMultiple(p, n, 2 * n, unit)
    {
      var len :| len in lens && len < WORD && p == PadmeLen(len);
      var k := PaddedIsFactor(len, e, f);
    }
    FewProducts(padded, n, n + 1, unit);
  }

  /** `count` factors from `lo` on give at most `count` products. */
  lemma {:induction false} FewProducts(s: set<nat>, lo: nat, count: nat, unit: nat)
    requires lo + count > 0 && forall p | p in s :: IsMultiple(p, lo, lo + count - 1, unit)
    ensures |s| <= count
    decreases count
  {
    if count == 0 {
      assert s == {};
    } else {
      var top := lo + count - 1;
      var rest := s - {top * unit};
      assert |s| <= |rest| + 1;
      if top == 0 {
        assert |rest| == 0 by { assert rest == {}; }
      } else {
        forall p | p in rest
          ensures IsMultiple(p, lo, top - 1, unit)
        {
          var k :| lo <= k <= top && p == k * unit;
          assert k != top;
        }
        FewProducts(rest, lo, count - 1, unit);
      }
    }
  }

  /** Some values. */
  lemma KnownValues()
    ensures PadmeLen(9) == 10 && PadmeLen(100) == 104 && PadmeLen(129) == 144 && PadmeLen(1000) == 1024
  {
    PowValues();
    assert Pow2(8) == 256 && Pow2(9) == 512 && Pow2(10) == 1024;
    PadsTo(9, 3, 1, 2, 5);
    PadsTo(100, 6, 2, 8, 13);
    PadsTo(129, 7, 2, 16, 9);
    PadsTo(1000, 9, 3, 32, 32);
  }

  lemma PadsTo(len: nat, e: nat, f: nat, unit: nat, j: nat)
    requires Exponents(len, e, f) && f + 1 <= e && Pow2(e - f - 1) == unit && len + (unit - 1) < WORD
    requires len <= j * unit < len + unit
    ensures PadmeLen(len) == j * unit
  {
    var k := PadsToLeastMultiple(len, e, f);
    if k < j { Scales(k, j, unit); } else if j < k { Scales(j, k, unit); }
  }

  // ---- Where it stops working ----

  /** The largest lengths wrap around to 0; every other length is padded upwards. */
  lemma PadsUpwardsIff(len: nat)
    requires len < WORD
    ensures PadmeLen(len) >= len <==> Fits(len)
    ensures !Fits(len) ==> PadmeLen(len) == 0
  {
    if Fits(len) {
      PadsToMultiple(len);
    } else {
      LogRange(len);
      LowBitsBelowExponent(len);
      PowWord();
      PowGrows(LowBits(len), 64);
      WrapsToZero(len, LowBits(len));
    }
  }

  /** In numbers: all but the top 2^57 - 1 lengths fit. */
  lemma FitsIff(len: nat)
    requires len < WORD
    ensures Fits(len) <==> len <= WORD - 0x200_0000_0000_0000
  {
    LogRange(len);
    PowWord();
    HighPowers();
    if Ilog2(len) <= 62 {
      LowerHalfFits(len);
    } else {
      assert LowBits(len) == 57 by { TopExponent(); }
    }
  }

  lemma LowerHalfFits(len: nat)
    requires len < WORD && Ilog2(len) <= 62
    ensures Fits(len) && len < Pow2(63)
  {
    LogRange(len);
    LowBitsBelowExponent(len);
    HighPowers();
    PowGrows(LowBits(len), 62);
    PowGrows(Ilog2(len) + 1, 63);
  }

  lemma TopExponent()
    ensures Ilog2(63) == 5
  {
    PowValues();
    LogIsUnique(63, 5);
  }

  lemma HighPowers()
    ensures Pow2(57) == 0x200_0000_0000_0000 && Pow2(62) == 0x4000_0000_0000_0000 && Pow2(63) == 0x8000_0000_0000_0000
  {
    PowWord();
    PowSum(7, 57);
    PowValues();
    assert Pow2(63) == 2 * Pow2(62) && Pow2(64) == 2 * Pow2(63);
  }

  lemma WrapsToZero(len: nat, z: nat)
    requires len < WORD <= len + (Pow2(z) - 1) && Pow2(z) <= WORD
    ensures ClearLow((len + (Pow2(z) - 1)) % WORD, z) == 0
  {
    var x := len + (Pow2(z) - 1) - WORD;
    WrappedRemainder(x);
    ZeroIsMultiple(z);
    ClearIsLargest(x, 0, z);
  }

  lemma WrappedRemainder(x: nat)
    requires x < WORD
    ensures (x + WORD) % WORD == x
  {
  }

  lemma {:induction false} ZeroIsMultiple(z: nat)
    ensures Multiple(0, z)
  {
    if z > 0 { ZeroIsMultiple(z - 1); }
  }
}
