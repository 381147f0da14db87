/** The decimal writer: digits two at a time and backward from the end, separators
    interleaved in place. */
module DecimalWriter {
  import opened DigitTable
  import opened IntegerText
  import opened Numerals

  lemma {:induction false} TailGrows(digits: string, j: nat, k: nat, sep: string)
    requires j <= k <= |digits|
    ensures |Tail(digits, j, sep)| <= |Tail(digits, k, sep)|
  {
    if j < k {
      TailGrows(digits, j, k - 1, sep);
    }
  }

  /** The digits not yet written are those of what is left of the value. */
  ghost predicate Remaining(digits: string, k: nat, value: nat) {
    k < |digits| && Decimal(value) == digits[..|digits| - k]
  }

  lemma NextDigit(digits: string, k: nat, value: nat)
    requires Remaining(digits, k, value) && value >= 10
    ensures k + 1 < |digits|
    ensures digits[|digits| - (k + 1)] == DigitChar(value % 10, false)
    ensures Remaining(digits, k + 1, value / 10)
  {
    assert Decimal(value) == Decimal(value / 10) + [DigitChar(value % 10, false)];
    var front := digits[..|digits| - k];
    assert front[..|front| - 1] == Decimal(value / 10);
    assert front[..|front| - 1] == digits[..|digits| - (k + 1)];
  }

  lemma LastDigit(digits: string, k: nat, value: nat)
    requires Remaining(digits, k, value) && value < 10
    ensures k == |digits| - 1 && digits[0] == DigitChar(value, false)
  {
    assert Decimal(value) == [DigitChar(value, false)];
  }

  lemma HundredthPart(value: nat)
    ensures value % 100 / 10 == value / 10 % 10 && value % 100 % 10 == value % 10
    ensures value / 10 / 10 == value / 100
  {
    var q, r := value / 100, value % 100;
    assert value == q * 100 + r;
    assert value / 10 == q * 10 + r / 10 && value % 10 == r % 10;
  }

  /** Puts a separator in front of every third digit; the empty separator is the
      functor that adds none. */
  class ThousandsSep {
    const sep: string
    var digitIndex: nat

    constructor (sep: string)
      ensures this.sep == sep && digitIndex == 0
    {
      this.sep := sep;
      digitIndex := 0;
    }

    method Apply(a: array<char>, buffer: nat) returns (buffer': nat)
      requires buffer <= a.Length
      requires (digitIndex + 1) % 3 == 0 ==> |sep| <= buffer
      modifies this`digitIndex, a
      ensures digitIndex == old(digitIndex) + 1
      ensures buffer' <= buffer
      ensures a[..] == old(a[..buffer']) + (if digitIndex % 3 == 0 then sep else "") + old(a[buffer..])
    {
      digitIndex := digitIndex + 1;
      if digitIndex % 3 != 0 {
        return buffer;
      }
      buffer' := buffer - |sep|;
      forall i | 0 <= i < |sep| {
        a[buffer' + i] := sep[i];
      }
      assert a[..] == old(a[..buffer']) + sep + old(a[buffer..]);
    }
  }

  /** The part written so far, and nothing else changed. */
  ghost predicate Progress(start: string, now: string, at: nat, end: nat, tail: string) {
    && at + |tail| == end <= |start| == |now|
    && now == start[..at] + tail + start[end..]
  }

  lemma ProgressStep(start: string, now: string, put: string, after: string, at: nat, end: nat,
                     tail: string, c: char, mark: string)
    requires Progress(start, now, at, end, tail) && at >= 1 + |mark|
    requires put == now[at - 1 := c]
    requires after == put[..at - 1 - |mark|] + mark + put[at - 1..]
    ensures Progress(start, after, at - 1 - |mark|, end, mark + [c] + tail)
  {
    assert put[at - 1..] == [c] + tail + start[end..];
    assert put[..at - 1 - |mark|] == start[..at - 1 - |mark|];
  }

  lemma OneMoreDigit(digits: string, k: nat, sep: string, c: char)
    requires k + 1 < |digits| && digits[|digits| - (k + 1)] == c
    ensures Tail(digits, k + 1, sep) == (if (k + 1) % 3 == 0 then sep else "") + [c] + Tail(digits, k, sep)
    ensures |Tail(digits, k + 1, sep)| < |Written(digits, sep)|
  {
    TailGrows(digits, k + 1, |digits| - 1, sep);
  }

  lemma ProgressEnds(start: string, now: string, at: nat, end: nat, tail: string)
    requires Progress(start, now, at, end, tail)
    ensures at + |tail| == end <= |now|
  {
  }

  /** `*--buffer = c` followed by the separator functor: one more digit of the tail. */
  method PutDigit(a: array<char>, buffer: nat, end: nat, functor: ThousandsSep, c: char,
                  ghost digits: string, ghost start: string) returns (buffer': nat)
    requires functor.digitIndex + 1 < |digits| && |Written(digits, functor.sep)| <= end
    requires digits[|digits| - (functor.digitIndex + 1)] == c
    requires Progress(start, a[..], buffer, end, Tail(digits, functor.digitIndex, functor.sep))
    modifies functor`digitIndex, a
    ensures functor.digitIndex == old(functor.digitIndex) + 1
    ensures Progress(start, a[..], buffer', end, Tail(digits, functor.digitIndex, functor.sep))
  {
    hide Written, Tail, Progress;
    ghost var k, now := functor.digitIndex, a[..];
    ghost var mark := if (k + 1) % 3 == 0 then functor.sep else "";
    OneMoreDigit(digits, k, functor.sep, c);
    ProgressEnds(start, now, buffer, end, Tail(digits, k, functor.sep));
    a[buffer - 1] := c;
    ghost var put := a[..];
    assert put == now[buffer - 1 := c];
    buffer' := functor.Apply(a, buffer - 1);
    assert buffer' == buffer - 1 - |mark|;
    ProgressStep(start, now, put, a[..], buffer, end, Tail(digits, k, functor.sep), c, mark);
  }

  /** `*--buffer = c` alone. */
  method PutChar(a: array<char>, buffer: nat, end: nat, c: char, ghost tail: string, ghost start: string)
    requires buffer >= 1 && Progress(start, a[..], buffer, end, tail)
    modifies a
    ensures Progress(start, a[..], buffer - 1, end, [c] + tail)
  {
    ghost var now := a[..];
    a[buffer - 1] := c;
    assert a[..] == now[buffer - 1 := c];
    assert a[..] == a[..buffer - 1] + "" + a[buffer - 1..];
    ProgressStep(start, now, a[..], a[..], buffer, end, tail, c, "");
    assert "" + [c] + tail == [c] + tail;
  }

  /** The leading digit, which no separator follows. */
  method PutLeadingDigit(a: array<char>, buffer: nat, end: nat, c: char,
                         ghost digits: string, ghost sep: string, ghost start: string)
    requires |digits| >= 1 && digits[0] == c && |Grouped(digits, sep)| <= end
    requires Progress(start, a[..], buffer, end, Tail(digits, |digits| - 1, sep))
    modifies a
    ensures buffer - 1 == end - |Grouped(digits, sep)|
    ensures Progress(start, a[..], buffer - 1, end, Grouped(digits, sep))
  {
    WrittenIsGrouped(digits, sep);
    PutChar(a, buffer, end, c, Tail(digits, |digits| - 1, sep), start);
  }

  /** The last two digits of what is left, from the table. */
  method PutPair(a: array<char>, buffer: nat, end: nat, functor: ThousandsSep, value: nat,
                 ghost digits: string, ghost start: string) returns (buffer': nat)
    requires value >= 100 && functor.digitIndex < |digits| && Remaining(digits, functor.digitIndex, value)
    requires |Written(digits, functor.sep)| <= end
    requires Progress(start, a[..], buffer, end, Tail(digits, functor.digitIndex, functor.sep))
    modifies functor`digitIndex, a
    ensures functor.digitIndex < |digits| && Remaining(digits, functor.digitIndex, value / 100)
    ensures Progress(start, a[..], buffer', end, Tail(digits, functor.digitIndex, functor.sep))
  {
    hide Tail, Progress, Remaining, Written;
    var index := (value % 100) * 2;
    DigitPairs(value % 100);
    HundredthPart(value);
    NextDigit(digits, functor.digitIndex, value);
    buffer' := PutDigit(a, buffer, end, functor, DIGITS[index + 1], digits, start);
    NextDigit(digits, functor.digitIndex, value / 10);
    buffer' := PutDigit(a, buffer', end, functor, DIGITS[index], digits, start);
  }

  /** Writes the digits so that they end at `buffer + numDigits`; the result is where
      they start. */
  method FormatDecimal(a: array<char>, buffer: nat, value0: nat, numDigits: nat, sep: string)
    returns (first: nat)
    requires buffer + numDigits <= a.Length
    requires |Grouped(Decimal(value0), sep)| <= buffer + numDigits
    modifies a
    ensures var end := buffer + numDigits; var text := Grouped(Decimal(value0), sep);
            first == end - |text| && a[..] == old(a[..first]) + text + old(a[end..])
  {
    hide Grouped, Written, Tail, Remaining, Progress;
    ghost var digits, start := Decimal(value0), a[..];
    NothingWritten(digits, value0, sep, start, buffer + numDigits);
    WrittenIsGrouped(digits, sep);
    var functor := new ThousandsSep(sep);
    var end := buffer + numDigits;
    var at: nat, value: nat := end, value0;
    while value >= 100
      invariant functor.digitIndex < |digits| && Remaining(digits, functor.digitIndex, value)
      invariant Progress(start, a[..], at, end, Tail(digits, functor.digitIndex, sep))
    {
      at := PutPair(a, at, end, functor, value, digits, start);
      value := value / 100;
    }
    if value < 10 {
      LastDigit(digits, functor.digitIndex, value);
      PutLeadingDigit(a, at, end, ('0' as int + value) as char, digits, sep, start);
      AllWritten(digits, sep, start, a[..], at - 1, end);
      return at - 1;
    }
    var index := value * 2;
    DigitPairs(value);
    NextDigit(digits, functor.digitIndex, value);
    at := PutDigit(a, at, end, functor, DIGITS[index + 1], digits, start);
    LastDigit(digits, functor.digitIndex, value / 10);
    PutLeadingDigit(a, at, end, DIGITS[index], digits, sep, start);
    AllWritten(digits, sep, start, a[..], at - 1, end);
    return at - 1;
  }

  lemma NothingWritten(digits: string, value: nat, sep: string, start: string, end: nat)
    requires digits == Decimal(value) && end <= |start|
    ensures Remaining(digits, 0, value) && Progress(start, start, end, end, Tail(digits, 0, sep))
  {
    assert start[..end] + "" + start[end..] == start;
  }

  lemma AllWritten(digits: string, sep: string, start: string, now: string, at: nat, end: nat)
    requires Progress(start, now, at, end, Grouped(digits, sep))
    ensures at == end - |Grouped(digits, sep)| && end <= |start|
    ensures now == start[..at] + Grouped(digits, sep) + start[end..]
  {
  }
}
