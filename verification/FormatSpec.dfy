/** Format specifications: numbers, fill and alignment, flags, width and type, as
    the parser reads them and as a printer would write them. */
module FormatSpec {
  import opened MachineWords
  import opened Numerals
  import opened Options

  const UINT_WORD: nat := 0x1_0000_0000
  const INT_MAX: nat := 0x7fff_ffff

  /** The character a pointer into a null-terminated string sees. */
  function At(s: string, i: nat): (c: char)
    ensures c != '\0' ==> i < |s| && s[i] == c
  {
    if i < |s| then s[i] else '\0'
  }

  // ----- numbers

  function DigitsEnd(s: string, i: nat): (end: nat)
    ensures end >= i && (i <= |s| ==> end <= |s|)
    ensures forall k | i <= k < end :: IsDigit(At(s, k))
    ensures !IsDigit(At(s, end))
    decreases |s| - i
  {
    if IsDigit(At(s, i)) then DigitsEnd(s, i + 1) else i
  }

  /** Reading n digit by digit in 32 bits, no step makes the value smaller: the
      parser's only sign of wrap-around. */
  predicate NeverSeenToWrap(n: nat) {
    n == 0 || ((n / 10) % UINT_WORD <= n % UINT_WORD && NeverSeenToWrap(n / 10))
  }

  /** What the parser makes of the numeral at i: its value and its end. */
  function ParsedInt(s: string, i: nat): (r: Option<(nat, nat)>)
    requires i <= |s|
    ensures r.Some? ==> i <= r.value.1 <= |s|
  {
    var end := DigitsEnd(s, i);
    var n := Value(s[i..end], 10);
    if NeverSeenToWrap(n) && n % UINT_WORD <= INT_MAX then Some((n % UINT_WORD, end)) else None
  }

  lemma {:induction false} SmallIsNeverSeenToWrap(n: nat)
    requires n < UINT_WORD
    ensures NeverSeenToWrap(n) && n % UINT_WORD == n
  {
    if n > 0 {
      SmallIsNeverSeenToWrap(n / 10);
    }
  }

  /** The promise, exact numbers up to INT_MAX and an error beyond, is kept exactly
      for the numerals up to INT_MAX and those whose wrap-around shows. */
  lemma ParsedIntIsExactIff(s: string, i: nat)
    requires i <= |s|
    ensures var end := DigitsEnd(s, i); var n := Value(s[i..end], 10);
            ParsedInt(s, i) == (if n <= INT_MAX then Some((n, end)) else None)
            <==> (n <= INT_MAX || !NeverSeenToWrap(n) || n % UINT_WORD > INT_MAX)
  {
    var n := Value(s[i..DigitsEnd(s, i)], 10);
    if n < UINT_WORD {
      SmallIsNeverSeenToWrap(n);
    }
  }

  const FIRST_MISREAD: nat := 4772185884

  /** Below 4772185884 no numeral is misread; that one is. */
  lemma ExactBelowFirstMisread(s: string, i: nat)
    requires i <= |s|
    ensures var end := DigitsEnd(s, i); var n := Value(s[i..end], 10);
            && (n < FIRST_MISREAD ==> ParsedInt(s, i) == if n <= INT_MAX then Some((n, end)) else None)
            && (n == FIRST_MISREAD ==> ParsedInt(s, i) == Some((477218588, end)))
  {
    hide Value, DigitsEnd, NeverSeenToWrap;
    WrapShowsBelow(Value(s[i..DigitsEnd(s, i)], 10));
  }

  lemma WrapShowsBelow(n: nat)
    ensures n < UINT_WORD ==> NeverSeenToWrap(n) && n % UINT_WORD == n
    ensures UINT_WORD <= n < FIRST_MISREAD ==> !NeverSeenToWrap(n)
    ensures n == FIRST_MISREAD ==> NeverSeenToWrap(n) && n % UINT_WORD == 477218588
  {
    if n < UINT_WORD {
      SmallIsNeverSeenToWrap(n);
    } else if n <= FIRST_MISREAD {
      RemainderIsUnique(n, UINT_WORD, 1, n - UINT_WORD);
      SmallIsNeverSeenToWrap(n / 10);
    }
  }

  /** A numeral beyond INT_MAX that the parser takes for a small number. */
  lemma FiveBillionIsAccepted()
    ensures ParsedInt("5000000000", 0) == Some((705032704, 10))
  {
    var s := "5000000000";
    assert s[0..10] == s;
    FiveAndZeros(s, 9);
    assert DigitsEnd(s, 10) == 10;
    assert forall k | 0 <= k < 10 :: IsDigit(s[k]);
    RunOfDigits(s, 0, 10);
    assert s[..10] == s;
    SmallIsNeverSeenToWrap(500000000);
    assert NeverSeenToWrap(5000000000);
  }

  lemma {:induction false} FiveAndZeros(s: string, k: nat)
    requires k < |s| && s[0] == '5' && forall j | 1 <= j < |s| :: s[j] == '0'
    ensures Value(s[..k + 1], 10) == 5 * Power(10, k)
  {
    var t := s[..k + 1];
    assert t[..k] == s[..k];
    if k == 0 {
      assert Value(t[..0], 10) == 0;
    } else {
      FiveAndZeros(s, k - 1);
    }
  }

  lemma {:induction false} RunOfDigits(s: string, i: nat, end: nat)
    requires i <= end <= |s| && (forall k | i <= k < end :: IsDigit(s[k])) && !IsDigit(At(s, end))
    ensures DigitsEnd(s, i) == end
    decreases end - i
  {
    if i < end {
      RunOfDigits(s, i + 1, end);
    }
  }

  /** A printed number is read back, whatever follows it. */
  lemma PrintedIntIsParsed(s: string, i: nat, n: nat)
    requires n <= INT_MAX && i + |Decimal(n)| <= |s| && s[i..i + |Decimal(n)|] == Decimal(n)
    requires !IsDigit(At(s, i + |Decimal(n)|))
    ensures ParsedInt(s, i) == Some((n, i + |Decimal(n)|))
  {
    var end := i + |Decimal(n)|;
    forall k | i <= k < end
      ensures IsDigit(s[k])
    {
      assert s[k] == s[i..end][k - i];
    }
    RunOfDigits(s, i, end);
    ValueOfNumeral(n, 10, false);
    ParsedIntIsExactIff(s, i);
  }

  /** Wrap-around, once seen, is seen whatever digits follow. */
  lemma {:induction false} WrapStaysSeen(s: string, k: nat)
    requires k <= |s| && !NeverSeenToWrap(Value(s[..k], 10))
    requires forall j | 0 <= j < |s| :: IsDigit(s[j])
    ensures !NeverSeenToWrap(Value(s, 10))
  {
    if k < |s| {
      var front := s[..|s| - 1];
      assert front[..k] == s[..k];
      WrapStaysSeen(front, k);
      ValueStep(front, s[|s| - 1]);
      assert front + [s[|s| - 1]] == s;
    } else {
      assert s[..k] == s;
    }
  }

  lemma ValueStep(front: string, c: char)
    requires IsDigit(c)
    ensures Value(front + [c], 10) == Value(front, 10) * 10 + DigitValue(c)
    ensures Value(front + [c], 10) / 10 == Value(front, 10)
    ensures NeverSeenToWrap(Value(front + [c], 10)) ==> NeverSeenToWrap(Value(front, 10))
  {
    assert (front + [c])[..|front|] == front;
  }

  lemma WrappedStep(n: nat, d: nat)
    requires d < 10
    ensures (n % UINT_WORD * 10 + d) % UINT_WORD == (n * 10 + d) % UINT_WORD
  {
    var q, r := n / UINT_WORD, n % UINT_WORD;
    var q', r' := (r * 10 + d) / UINT_WORD, (r * 10 + d) % UINT_WORD;
    assert n * 10 + d == (q * 10 + q') * UINT_WORD + r';
    RemainderIsUnique(n * 10 + d, UINT_WORD, q * 10 + q', r');
  }

  /** The value read up to `at`, wrapped, no wrap-around seen so far. */
  ghost predicate ReadSoFar(s: string, i: nat, at: nat, value: nat) {
    && i <= at <= |s|
    && value == Value(s[i..at], 10) % UINT_WORD
    && NeverSeenToWrap(Value(s[i..at], 10))
  }

  lemma ReadStep(s: string, i: nat, at: nat, value: nat, newValue: nat)
    requires ReadSoFar(s, i, at, value) && at < DigitsEnd(s, i) <= |s|
    requires newValue == (value * 10 + DigitValue(s[at])) % UINT_WORD
    ensures newValue >= value ==> ReadSoFar(s, i, at + 1, newValue)
    ensures newValue < value ==> !NeverSeenToWrap(Value(s[i..at + 1], 10))
  {
    assert IsDigit(At(s, at));
    ValueStep(s[i..at], s[at]);
    WrappedStep(Value(s[i..at], 10), DigitValue(s[at]));
    assert s[i..at] + [s[at]] == s[i..at + 1];
  }

  lemma ReadStopped(s: string, i: nat, at: nat)
    requires i <= at <= DigitsEnd(s, i) <= |s| && !NeverSeenToWrap(Value(s[i..at], 10))
    ensures ParsedInt(s, i) == None
  {
    var digits := s[i..DigitsEnd(s, i)];
    assert digits[..at - i] == s[i..at];
    forall j | 0 <= j < |digits|
      ensures IsDigit(digits[j])
    {
      assert IsDigit(At(s, i + j));
    }
    WrapStaysSeen(digits, at - i);
  }

  lemma EndIsFirstNonDigit(s: string, i: nat, at: nat)
    requires i <= at <= DigitsEnd(s, i)
    ensures at < DigitsEnd(s, i) <==> IsDigit(At(s, at))
  {
  }

  method ParseNonnegativeInt(s: string, i: nat) returns (r: Option<(nat, nat)>)
    requires IsDigit(At(s, i))
    ensures i <= |s| && r == ParsedInt(s, i)
  {
    var value: nat, at: nat := 0, i;
    while true
      invariant i <= at < DigitsEnd(s, i) <= |s| && IsDigit(At(s, at))
      invariant ReadSoFar(s, i, at, value)
      decreases |s| - at
    {
      var newValue := (value * 10 + DigitValue(s[at])) % UINT_WORD;
      ReadStep(s, i, at, value, newValue);
      at := at + 1;
      if newValue < value {
        ReadStopped(s, i, at);
        value := UINT_WORD - 1;
        break;
      }
      value := newValue;
      EndIsFirstNonDigit(s, i, at);
      if !IsDigit(At(s, at)) {
        break;
      }
    }
    if value > INT_MAX {
      return None;
    }
    return Some((value, at));
  }
}
