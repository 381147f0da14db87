/** Positional numerals: what the formatter writes, what the protocol carries and
    what the file names end in. */
module Numerals {
  import opened MachineWords

  predicate IsDigit(c: char) {
    '0' <= c <= '9'
  }

  function DigitChar(d: nat, upper: bool): (c: char)
    requires d < 16
    ensures DigitValue(c) == d
    ensures d < 10 ==> IsDigit(c)
  {
    if d < 10 then ('0' as int + d) as char
    else if upper then ('A' as int + (d - 10)) as char
    else ('a' as int + (d - 10)) as char
  }

  function DigitValue(c: char): (d: nat)
    ensures d < 16
  {
    if IsDigit(c) then c as int - '0' as int
    else if 'a' <= c <= 'f' then c as int - 'a' as int + 10
    else if 'A' <= c <= 'F' then c as int - 'A' as int + 10
    else 0
  }

  /** The numeral of n, without leading zeros. */
  function Numeral(n: nat, base: nat, upper: bool): (s: string)
    requires 2 <= base <= 16
    ensures |s| >= 1
    ensures base <= 10 ==> forall i | 0 <= i < |s| :: IsDigit(s[i])
  {
    if n < base then [DigitChar(n, upper)]
    else
      SmallerQuotient(n, base);
      Numeral(n / base, base, upper) + [DigitChar(n % base, upper)]
  }

  lemma SmallerQuotient(n: nat, base: nat)
    requires 2 <= base <= n
    ensures 1 <= n / base < n && n % base < base
    ensures n == (n / base) * base + n % base
  {
    var q := n / base;
    assert n == q * base + n % base;
    MultipleIsAtLeast(q, base);
    DoubleIsLess(q, base);
  }

  lemma DoubleIsLess(n: int, base: nat)
    requires base >= 2
    ensures n >= 0 ==> n * base >= 2 * n
  {
    ProductOfDifference(base, 2, n);
    if n >= 0 && base > 2 {
      assert (base - 2) * n >= 0;
    }
  }

  /** The number a digit string stands for. */
  function Value(s: string, base: nat): nat {
    if s == [] then 0 else Value(s[..|s| - 1], base) * base + DigitValue(s[|s| - 1])
  }

  lemma ValueOfAppend(s: string, c: char, base: nat, q: nat, n: nat)
    requires Value(s, base) == q && n == q * base + DigitValue(c)
    ensures Value(s + [c], base) == n
  {
    assert (s + [c])[..|s|] == s;
  }

  /** Reading a numeral back gives the number. */
  lemma {:induction false} ValueOfNumeral(n: nat, base: nat, upper: bool)
    requires 2 <= base <= 16
    ensures Value(Numeral(n, base, upper), base) == n
  {
    if n >= base {
      SmallerQuotient(n, base);
      var q := n / base;
      ValueOfNumeral(q, base, upper);
      ValueOfAppend(Numeral(q, base, upper), DigitChar(n % base, upper), base, q, n);
    } else {
      ValueOfAppend([], DigitChar(n, upper), base, 0, n);
      assert [] + [DigitChar(n, upper)] == [DigitChar(n, upper)];
    }
  }

  function Power(base: nat, k: nat): nat {
    if k == 0 then 1 else base * Power(base, k - 1)
  }

  /** The number of digits k is the one with base^(k-1) <= n < base^k. */
  lemma {:induction false} NumeralLength(n: nat, base: nat, upper: bool)
    requires 2 <= base <= 16
    ensures var k := |Numeral(n, base, upper)|;
            n < Power(base, k) && (n > 0 ==> Power(base, k - 1) <= n)
  {
    if n >= base {
      SmallerQuotient(n, base);
      NumeralLength(n / base, base, upper);
      var k := |Numeral(n / base, base, upper)|;
      assert |Numeral(n, base, upper)| == k + 1;
      PowerStep(base, k - 1, n / base);
      PowerStep(base, k, n / base);
    } else {
      assert Power(base, 1) == base * Power(base, 0);
    }
  }

  lemma PowerStep(base: nat, k: nat, q: nat)
    ensures Power(base, k) <= q ==> Power(base, k + 1) <= q * base
    ensures q < Power(base, k) ==> q * base + base <= Power(base, k + 1)
  {
    var p := Power(base, k);
    ProductOfDifference(q, p, base);
    if base > 0 && p != q {
      MultipleIsAtLeast(q - p, base);
    }
  }

  lemma {:induction false} PowerIsMonotone(base: nat, j: nat, k: nat)
    requires base >= 1 && j <= k
    ensures 1 <= Power(base, j) <= Power(base, k)
    decreases k
  {
    if j == k {
      if k > 0 {
        PowerIsMonotone(base, j - 1, k - 1);
        MultipleIsAtLeast(Power(base, k - 1), base);
      }
    } else {
      PowerIsMonotone(base, j, k - 1);
      DoubleOrMore(base, Power(base, k - 1));
    }
  }

  lemma DoubleOrMore(base: nat, p: nat)
    requires base >= 1
    ensures base * p >= p
  {
    ProductOfDifference(base, 1, p);
    assert (base - 1) * p >= 0;
  }

  /** That k is unique: the length is determined by the two bounds. */
  lemma LengthIsDetermined(n: nat, base: nat, upper: bool, k: nat)
    requires 2 <= base <= 16 && k >= 1
    requires n < Power(base, k) && (k == 1 || Power(base, k - 1) <= n)
    ensures |Numeral(n, base, upper)| == k
  {
    NumeralLength(n, base, upper);
    var len := |Numeral(n, base, upper)|;
    assert n < base ==> len == 1;
    if len < k {
      PowerIsMonotone(base, len, k - 1);
    } else if k < len {
      PowerIsMonotone(base, k, len - 1);
    }
  }

  /** Different numbers have different numerals. */
  lemma NumeralIsInjective(a: nat, b: nat, base: nat, upper: bool)
    requires 2 <= base <= 16 && Numeral(a, base, upper) == Numeral(b, base, upper)
    ensures a == b
  {
    ValueOfNumeral(a, base, upper);
    ValueOfNumeral(b, base, upper);
  }

  lemma {:induction false} NoLeadingZero(n: nat, base: nat, upper: bool)
    requires 2 <= base <= 16 && n > 0
    ensures Numeral(n, base, upper)[0] != '0'
  {
    if n >= base {
      SmallerQuotient(n, base);
      NoLeadingZero(n / base, base, upper);
    }
  }

  function Decimal(n: nat): (s: string)
    ensures |s| >= 1 && forall i | 0 <= i < |s| :: IsDigit(s[i])
  {
    Numeral(n, 10, false)
  }

  function SignedDecimal(n: int): (s: string)
    ensures |s| >= 1
  {
    if n < 0 then "-" + Decimal(-n) else Decimal(n)
  }
}
