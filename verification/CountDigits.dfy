/** The number of decimal digits of a machine word, by a multiply and a shift on
    its bit length and one table look-up, and by the loop used where the processor
    cannot count leading zeros. */
module CountDigits {
  import opened MachineWords
  import opened Numerals

  function TimesPowers(factor: nat): seq<nat> {
    [factor * 10, factor * 100, factor * 1000, factor * 10000, factor * 100000,
     factor * 1000000, factor * 10000000, factor * 100000000, factor * 1000000000]
  }

  const POWERS_OF_10_32: seq<nat> := [0] + TimesPowers(1)
  const POWERS_OF_10_64: seq<nat> :=
    [0] + TimesPowers(1) + TimesPowers(1000000000) + [1000000000 * 1000000000 * 10]

  /** The position of the highest set bit, counted from 1; 0 for 0. */
  function BitLength(n: nat): nat {
    if n == 0 then 0 else 1 + BitLength(n / 2)
  }

  /** `n | 1`. */
  function WithLowBit(n: nat): nat {
    if n % 2 == 1 then n else n + 1
  }

  /** `(W - clz(n | 1)) * 1233 >> 12` for a word of W bits. */
  function Estimate(n: nat): nat {
    BitLength(WithLowBit(n)) * 1233 / 4096
  }

  function CountDigits64(n: nat): nat
    requires n < WORD
  {
    EstimateFits(n);
    var t := Estimate(n);
    t - (if n < POWERS_OF_10_64[t] then 1 else 0) + 1
  }

  function CountDigits32(n: nat): nat
    requires n < 0x1_0000_0000
  {
    EstimateFits(n);
    var t := Estimate(n);
    t - (if n < POWERS_OF_10_32[t] then 1 else 0) + 1
  }

  lemma {:induction false} BitLengthBounds(n: nat)
    ensures var b := BitLength(n); n < Pow2(b) && (n > 0 ==> b > 0 && Pow2(b - 1) <= n)
  {
    if n > 0 {
      BitLengthBounds(n / 2);
    }
  }

  lemma {:induction false} Pow2IsMonotone(j: nat, k: nat)
    requires j <= k
    ensures Pow2(j) <= Pow2(k)
  {
    if j < k {
      Pow2IsMonotone(j, k - 1);
    }
  }

  /** Setting the low bit changes the bit length of 0 only. */
  lemma LowBitKeepsLength(n: nat)
    ensures BitLength(WithLowBit(n)) == if n == 0 then 1 else BitLength(n)
  {
    assert WithLowBit(n) / 2 == n / 2;
  }

  lemma BitsOfWord(n: nat, k: nat)
    requires n < Pow2(k) && k >= 1
    ensures 1 <= BitLength(WithLowBit(n)) <= k
  {
    LowBitKeepsLength(n);
    BitLengthBounds(n);
    if BitLength(n) > k {
      Pow2IsMonotone(k, BitLength(n) - 1);
    }
  }

  /** The estimate never indexes outside the power tables. */
  lemma EstimateFits(n: nat)
    ensures n < WORD ==> Estimate(n) < |POWERS_OF_10_64| == 20
    ensures n < 0x1_0000_0000 ==> Estimate(n) < |POWERS_OF_10_32| == 10
  {
    WordSizes();
    if n < WORD {
      BitsOfWord(n, 64);
    }
    if n < 0x1_0000_0000 {
      BitsOfWord(n, 32);
    }
  }

  // ----- the estimate is off by at most one

  /** The greatest bit length whose estimate is below t. */
  function LastBefore(t: nat): nat
    requires t >= 1
  {
    (4096 * t - 1) / 1233
  }

  lemma EightTimes(k: nat)
    ensures Pow2(k + 3) == 8 * Pow2(k)
    ensures Pow2(k + 4) == 16 * Pow2(k)
  {
    assert Pow2(k + 4) == 2 * Pow2(k + 3) && Pow2(k + 3) == 2 * Pow2(k + 2) && Pow2(k + 2) == 2 * Pow2(k + 1);
  }

  lemma LowBoundaries()
    ensures Pow2(3) == 8 && Pow2(6) == 64 && Pow2(9) == 512 && Pow2(13) == 8192 && Pow2(16) == 65536
    ensures Pow2(19) == 524288 && Pow2(23) == 8388608 && Pow2(26) == 67108864 && Pow2(29) == 536870912
    ensures Pow2(33) == 8589934592
  {
    EightTimes(0);
    EightTimes(3);
    EightTimes(6);
    EightTimes(9);
    EightTimes(13);
    EightTimes(16);
    EightTimes(19);
    EightTimes(23);
    EightTimes(26);
    EightTimes(29);
    assert Pow2(0) == 1;
  }

  lemma HighBoundaries()
    ensures Pow2(36) == 68719476736 && Pow2(39) == 549755813888 && Pow2(43) == 8796093022208
    ensures Pow2(46) == 70368744177664 && Pow2(49) == 562949953421312 && Pow2(53) == 9007199254740992
    ensures Pow2(56) == 72057594037927936 && Pow2(59) == 576460752303423488
    ensures Pow2(63) == 9223372036854775808 && Pow2(66) == 73786976294838206464
  {
    LowBoundaries();
    EightTimes(33);
    EightTimes(36);
    EightTimes(39);
    EightTimes(43);
    EightTimes(46);
    EightTimes(49);
    EightTimes(53);
    EightTimes(56);
    EightTimes(59);
    EightTimes(63);
  }

  lemma LowBoundary(t: nat)
    requires 1 <= t <= 10
    ensures Power(10, t - 1) <= Pow2(LastBefore(t)) <= Power(10, t)
  {
    LowBoundaries();
    PowersOfTen();
    assert LastBefore(t) == [3, 6, 9, 13, 16, 19, 23, 26, 29, 33][t - 1];
  }

  lemma HighBoundary(t: nat)
    requires 11 <= t <= 20
    ensures Power(10, t - 1) <= Pow2(LastBefore(t)) <= Power(10, t)
  {
    HighBoundaries();
    PowersOfTen();
    assert LastBefore(t) == [36, 39, 43, 46, 49, 53, 56, 59, 63, 66][t - 11];
  }

  /** That bit length is where the powers of two pass 10^(t-1) but not yet 10^t. */
  lemma Boundary(t: nat)
    requires 1 <= t <= 20
    ensures Power(10, t - 1) <= Pow2(LastBefore(t)) <= Power(10, t)
  {
    if t <= 10 {
      LowBoundary(t);
    } else {
      HighBoundary(t);
    }
  }

  lemma EstimateIsClose(b: nat)
    requires 1 <= b <= 64
    ensures var t := b * 1233 / 4096;
            (t >= 1 ==> Power(10, t - 1) <= Pow2(b - 1)) && Pow2(b) <= Power(10, t + 1)
  {
    var t := b * 1233 / 4096;
    if t >= 1 {
      Boundary(t);
      Pow2IsMonotone(LastBefore(t), b - 1);
    }
    Boundary(t + 1);
    Pow2IsMonotone(b, LastBefore(t + 1));
  }

  lemma PowersOfTen()
    ensures Power(10, 0) == 1 && Power(10, 1) == 10 && Power(10, 2) == 100 && Power(10, 3) == 1000
    ensures Power(10, 4) == 10000 && Power(10, 5) == 100000 && Power(10, 6) == 1000000
    ensures Power(10, 7) == 10000000 && Power(10, 8) == 100000000 && Power(10, 9) == 1000000000
    ensures Power(10, 10) == 10000000000 && Power(10, 11) == 100000000000
    ensures Power(10, 12) == 1000000000000 && Power(10, 13) == 10000000000000
    ensures Power(10, 14) == 100000000000000 && Power(10, 15) == 1000000000000000
    ensures Power(10, 16) == 10000000000000000 && Power(10, 17) == 100000000000000000
    ensures Power(10, 18) == 1000000000000000000 && Power(10, 19) == 10000000000000000000
    ensures Power(10, 20) == 100000000000000000000
  {
  }

  lemma TablesHoldPowers(t: nat)
    requires 1 <= t < 20
    ensures POWERS_OF_10_64[t] == Power(10, t)
    ensures t < 10 ==> POWERS_OF_10_32[t] == Power(10, t)
  {
    PowersOfTen();
  }

  /** Where the value lies, by its estimate. */
  lemma ValueByEstimate(n: nat)
    requires n < WORD
    ensures var t := Estimate(n); n < Power(10, t + 1) && (t >= 1 ==> n > 0 && Power(10, t - 1) <= n)
  {
    hide Pow2, Power, WithLowBit;
    var b := BitLength(WithLowBit(n));
    WordSizes();
    BitsOfWord(n, 64);
    LowBitKeepsLength(n);
    BitLengthBounds(n);
    EstimateIsClose(b);
  }

  /** Correcting the estimate by one comparison with 10^t gives the length. */
  lemma CorrectedEstimate(n: nat)
    requires n < WORD
    ensures var t := Estimate(n);
            |Decimal(n)| == (if t >= 1 && n < Power(10, t) then t else t + 1)
  {
    ValueByEstimate(n);
    LengthFromBounds(n, Estimate(n));
  }

  lemma LengthFromBounds(n: nat, t: nat)
    requires n < Power(10, t + 1) && (t >= 1 ==> n > 0 && Power(10, t - 1) <= n)
    ensures |Decimal(n)| == (if t >= 1 && n < Power(10, t) then t else t + 1)
  {
    LengthIsDetermined(n, 10, false, if t >= 1 && n < Power(10, t) then t else t + 1);
  }

  /** Both word sizes: the result is the length of the decimal numeral. */
  lemma CountDigitsIsLength(n: nat)
    ensures n < WORD ==> CountDigits64(n) == |Decimal(n)|
    ensures n < 0x1_0000_0000 ==> CountDigits32(n) == |Decimal(n)|
  {
    if n < WORD {
      CorrectedEstimate(n);
      EstimateFits(n);
      if Estimate(n) >= 1 {
        TablesHoldPowers(Estimate(n));
      }
    }
  }

  // ----- the fallback

  /** Dividing by 10000 takes four digits off. */
  lemma FourDigits(n: nat)
    requires n >= 10000
    ensures |Decimal(n)| == |Decimal(n / 10000)| + 4
  {
    assert n / 10 / 10 / 10 / 10 == n / 10000;
    assert |Decimal(n)| == |Decimal(n / 10)| + 1;
    assert |Decimal(n / 10)| == |Decimal(n / 10 / 10)| + 1;
    assert |Decimal(n / 10 / 10)| == |Decimal(n / 10 / 10 / 10)| + 1;
    assert |Decimal(n / 10 / 10 / 10)| == |Decimal(n / 10 / 10 / 10 / 10)| + 1;
  }

  lemma FewDigits(n: nat)
    requires n < 10000
    ensures |Decimal(n)| == if n < 10 then 1 else if n < 100 then 2 else if n < 1000 then 3 else 4
  {
    assert Power(10, 1) == 10 && Power(10, 2) == 100 && Power(10, 3) == 1000 && Power(10, 4) == 10000;
    LengthIsDetermined(n, 10, false, if n < 10 then 1 else if n < 100 then 2 else if n < 1000 then 3 else 4);
  }

  method CountDigitsByDivision(value: nat) returns (count: nat)
    ensures count == |Decimal(value)|
    ensures value < WORD ==> count == CountDigits64(value)
  {
    CountDigitsIsLength(value);
    var n := value;
    count := 1;
    while true
      invariant count - 1 + |Decimal(n)| == |Decimal(value)|
      decreases n
    {
      if n < 10000 {
        FewDigits(n);
      }
      if n < 10 {
        return count;
      }
      if n < 100 {
        return count + 1;
      }
      if n < 1000 {
        return count + 2;
      }
      if n < 10000 {
        return count + 3;
      }
      FourDigits(n);
      n := n / 10000;
      count := count + 4;
    }
  }
}
