/** What the integer formatter is meant to produce, and how to read it back. */
module IntegerText {
  import opened Numerals

  datatype Alignment = DefaultAlign | AlignLeft | AlignRight | AlignCenter | AlignNumeric

  datatype IntSpec = IntSpec(width: nat, fill: char, align: Alignment,
                             signFlag: bool, plusFlag: bool, minusFlag: bool, hashFlag: bool, typ: char)

  // ----- grouping

  /** The last k digits of a numeral, right to left, with a separator in front of
      every third one: what the writer has written after k digits, the separator
      functor having run after each. */
  function Tail(digits: string, k: nat, sep: string): string
    requires k <= |digits|
  {
    if k == 0 then ""
    else (if k % 3 == 0 then sep else "") + [digits[|digits| - k]] + Tail(digits, k - 1, sep)
  }

  /** The whole numeral: no separator in front of the leading digit. */
  function Written(digits: string, sep: string): string
    requires |digits| >= 1
  {
    [digits[0]] + Tail(digits, |digits| - 1, sep)
  }

  /** Grouping by threes, from the right. */
  function Grouped(digits: string, sep: string): string {
    if |digits| <= 3 then digits
    else Grouped(digits[..|digits| - 3], sep) + sep + digits[|digits| - 3..]
  }

  /** Take the separators out again, knowing only their length. */
  function Ungrouped(s: string, n: nat): string {
    if |s| <= 3 + n then s
    else Ungrouped(s[..|s| - 3 - n], n) + s[|s| - 3..]
  }

  lemma {:induction false} TailOfFront(digits: string, k: nat, sep: string)
    requires 3 <= k <= |digits|
    ensures Tail(digits, k, sep) ==
            Tail(digits[..|digits| - 3], k - 3, sep) + (sep + digits[|digits| - 3..])
  {
    var front := digits[..|digits| - 3];
    if k == 3 {
      TailOfThree(digits, sep);
      assert Tail(front, 0, sep) == "";
    } else {
      TailOfFront(digits, k - 1, sep);
      TailTogether(digits, k, sep, Tail(front, k - 4, sep), sep + digits[|digits| - 3..]);
    }
  }

  lemma TailOfThree(digits: string, sep: string)
    requires 3 <= |digits|
    ensures Tail(digits, 2, sep) == digits[|digits| - 2..]
    ensures Tail(digits, 3, sep) == sep + digits[|digits| - 3..]
  {
    var n := |digits|;
    assert Tail(digits, 0, sep) == "";
    assert Tail(digits, 1, sep) == [digits[n - 1]];
    assert digits[n - 2..] == [digits[n - 2]] + [digits[n - 1]];
    assert digits[n - 3..] == [digits[n - 3]] + digits[n - 2..];
  }

  lemma TailTogether(digits: string, k: nat, sep: string, left: string, right: string)
    requires 4 <= k <= |digits| && Tail(digits, k - 1, sep) == left + right
    requires left == Tail(digits[..|digits| - 3], k - 4, sep)
    ensures Tail(digits, k, sep) == Tail(digits[..|digits| - 3], k - 3, sep) + right
  {
    hide Tail;
    var front := digits[..|digits| - 3];
    TailStep(digits, k, sep);
    TailStep(front, k - 3, sep);
    assert front[|front| - (k - 3)] == digits[|digits| - k];
    var mark := Mark(digits[|digits| - k], k, sep);
    assert mark == Mark(front[|front| - (k - 3)], k - 3, sep);
    assert mark + (left + right) == (mark + left) + right;
  }

  function Mark(c: char, k: nat, sep: string): string {
    (if k % 3 == 0 then sep else "") + [c]
  }

  lemma TailStep(digits: string, k: nat, sep: string)
    requires 1 <= k <= |digits|
    ensures Tail(digits, k, sep) == Mark(digits[|digits| - k], k, sep) + Tail(digits, k - 1, sep)
  {
  }

  /** Writing digit by digit groups by threes from the right. */
  lemma {:induction false} WrittenIsGrouped(digits: string, sep: string)
    requires |digits| >= 1
    ensures Written(digits, sep) == Grouped(digits, sep)
  {
    var n := |digits|;
    if n == 1 {
      assert Tail(digits, 0, sep) == "";
    } else if n == 2 {
      assert Tail(digits, 1, sep) == [digits[1]];
    } else if n == 3 {
      TailOfThree(digits, sep);
    } else {
      hide Tail, Grouped;
      var front := digits[..n - 3];
      TailOfFront(digits, n - 1, sep);
      WrittenIsGrouped(front, sep);
      GroupedStep(digits, sep);
      Associate([digits[0]], Tail(front, n - 4, sep), sep + digits[n - 3..]);
      Associate(Grouped(front, sep), sep, digits[n - 3..]);
    }
  }

  lemma Associate(s: string, t: string, u: string)
    ensures s + (t + u) == s + t + u
  {
  }

  lemma {:induction false} GroupedLength(digits: string, sep: string)
    requires |digits| >= 1
    ensures |Grouped(digits, sep)| == |digits| + |sep| * ((|digits| - 1) / 3)
  {
    var n, k := |digits|, |sep|;
    if n > 3 {
      GroupedLength(digits[..n - 3], sep);
      OneMore(k, n - 4);
      assert |Grouped(digits, sep)| == |Grouped(digits[..n - 3], sep)| + k + 3;
    } else {
      assert (n - 1) / 3 == 0;
    }
  }

  lemma OneMore(k: nat, i: nat)
    ensures (i + 3) / 3 == i / 3 + 1
    ensures k * ((i + 3) / 3) == k * (i / 3) + k
    ensures k * (i / 3) >= 0
  {
    assert (i + 3) / 3 == i / 3 + 1;
  }

  /** Erasing the separators gives the plain digits. */
  lemma {:induction false} UngroupedUndoesGrouped(digits: string, sep: string)
    requires |digits| >= 1
    ensures Ungrouped(Grouped(digits, sep), |sep|) == digits
  {
    if |digits| > 3 {
      var front := digits[..|digits| - 3];
      UngroupedUndoesGrouped(front, sep);
      GroupedLength(front, sep);
      GapsAreNonNegative(sep, |front| - 1);
      UngroupedStep(Grouped(front, sep), sep, digits[|digits| - 3..]);
      assert digits == front + digits[|digits| - 3..];
    }
  }

  lemma GapsAreNonNegative(sep: string, i: nat)
    ensures |sep| * (i / 3) >= 0
  {
  }

  lemma UngroupedStep(g: string, sep: string, last: string)
    requires |g| >= 1 && |last| == 3
    ensures Ungrouped(g + sep + last, |sep|) == Ungrouped(g, |sep|) + last
  {
    hide Ungrouped;
    var s := g + sep + last;
    UngroupedLast(s, |sep|);
    assert s[..|s| - 3 - |sep|] == g && s[|s| - 3..] == last;
  }

  lemma UngroupedLast(s: string, n: nat)
    requires |s| > 3 + n
    ensures Ungrouped(s, n) == Ungrouped(s[..|s| - 3 - n], n) + s[|s| - 3..]
  {
  }

  /** The separators to the right of digit i from the right, in characters. */
  function Gaps(sep: string, i: nat): nat {
    |sep| * (i / 3)
  }

  /** Digit i from the right stands i digits and i / 3 separators from the right,
      and a separator stands immediately in front of each third digit but the
      leading one. */
  lemma {:induction false} GroupedPositions(digits: string, sep: string, i: nat)
    requires i < |digits|
    ensures var s := Grouped(digits, sep); var at := |s| - 1 - i - Gaps(sep, i);
            && 0 <= at < |s|
            && s[at] == digits[|digits| - 1 - i]
            && (i % 3 == 2 && i < |digits| - 1 ==> at >= |sep| && s[at - |sep|..at] == sep)
  {
    hide Grouped, Gaps;
    var n := |digits|;
    if n <= 3 || i < 3 {
      LastGroup(digits, sep, i);
    } else {
      var front := digits[..n - 3];
      GroupedPositions(front, sep, i - 3);
      GapsStep(sep, i);
      GroupedStep(digits, sep);
      InFront(Grouped(front, sep), sep, digits[n - 3..], Gaps(sep, i - 3), Gaps(sep, i), i);
    }
  }

  lemma GapsStep(sep: string, i: nat)
    requires i >= 3
    ensures Gaps(sep, i) == Gaps(sep, i - 3) + |sep| && i % 3 == (i - 3) % 3
  {
    OneMore(|sep|, i - 3);
  }

  lemma GroupedStep(digits: string, sep: string)
    requires |digits| > 3
    ensures Grouped(digits, sep) == Grouped(digits[..|digits| - 3], sep) + sep + digits[|digits| - 3..]
  {
  }

  lemma InFront(g: string, sep: string, last: string, gaps: nat, gaps': nat, i: nat)
    requires gaps' == gaps + |sep| && |last| == 3 && i >= 3
    ensures var s := g + sep + last; var at := |s| - 1 - i - gaps';
            && at == |g| - 1 - (i - 3) - gaps
            && (0 <= at < |g| ==> s[at] == g[at])
            && (|sep| <= at < |g| ==> s[at - |sep|..at] == g[at - |sep|..at])
  {
  }

  lemma LastGroup(digits: string, sep: string, i: nat)
    requires i < |digits| && i < 3
    ensures Gaps(sep, i) == 0
    ensures var s := Grouped(digits, sep); var at := |s| - 1 - i;
            && 0 <= at < |s|
            && s[at] == digits[|digits| - 1 - i]
            && (i == 2 && i < |digits| - 1 ==> at >= |sep| && s[at - |sep|..at] == sep)
  {
    assert i / 3 == 0;
    if |digits| > 3 {
      var g := Grouped(digits[..|digits| - 3], sep);
      assert (g + sep + digits[|digits| - 3..])[|g|..|g| + |sep|] == sep;
    }
  }

  // ----- the number: sign, base prefix, digits

  function Base(typ: char): (b: nat)
    ensures 2 <= b <= 16
  {
    if typ == 'x' || typ == 'X' then 16
    else if typ == 'b' || typ == 'B' then 2
    else if typ == 'o' then 8
    else 10
  }

  predicate IsIntegerType(typ: char) {
    typ in ['\0', 'd', 'x', 'X', 'b', 'B', 'o', 'n']
  }

  function SignPart(negative: bool, spec: IntSpec): string {
    if negative then "-" else if spec.signFlag then (if spec.plusFlag then "+" else " ") else ""
  }

  function BasePart(spec: IntSpec): string {
    if !spec.hashFlag then ""
    else if Base(spec.typ) == 16 || Base(spec.typ) == 2 then ['0', spec.typ]
    else if spec.typ == 'o' then "0"
    else ""
  }

  function Prefix(value: int, spec: IntSpec): string {
    SignPart(value < 0, spec) + BasePart(spec)
  }

  function Magnitude(value: int): nat {
    if value < 0 then -value else value
  }

  function Digits(value: int, spec: IntSpec, sep: string): (s: string) {
    var digits := Numeral(Magnitude(value), Base(spec.typ), spec.typ == 'X');
    if spec.typ == 'n' then Grouped(digits, sep) else digits
  }

  // ----- the field

  function Repeat(c: char, n: nat): (s: string)
    ensures |s| == n
  {
    seq(n, _ => c)
  }

  function Padding(spec: IntSpec, size: nat): nat {
    if spec.width <= size then 0 else spec.width - size
  }

  /** What stands in front of the digits, the number having `size` characters. */
  function Before(spec: IntSpec, prefix: string, size: nat): string {
    var pad := Padding(spec, size);
    match spec.align
    case AlignLeft => prefix
    case AlignCenter => Repeat(spec.fill, pad / 2) + prefix
    case AlignNumeric => prefix + Repeat(spec.fill, pad)
    case _ => Repeat(spec.fill, pad) + prefix
  }

  function After(spec: IntSpec, size: nat): string {
    var pad := Padding(spec, size);
    match spec.align
    case AlignLeft => Repeat(spec.fill, pad)
    case AlignCenter => Repeat(spec.fill, pad - pad / 2)
    case _ => ""
  }

  function Field(prefix: string, digits: string, spec: IntSpec): string {
    var size := |prefix| + |digits|;
    Before(spec, prefix, size) + digits + After(spec, size)
  }

  function IntField(value: int, spec: IntSpec, sep: string): string {
    Field(Prefix(value, spec), Digits(value, spec, sep), spec)
  }

  /** The field has the width asked for, or the number's own if that is more. */
  lemma FieldLength(value: int, spec: IntSpec, sep: string)
    ensures var n := |Prefix(value, spec)| + |Digits(value, spec, sep)|;
            |IntField(value, spec, sep)| == if spec.width > n then spec.width else n
  {
  }

  // ----- reading a field back

  /** A number as a person reads it: a sign, the base's prefix, the digits. */
  function Read(s: string, spec: IntSpec): int {
    var signed := s != "" && s[0] in "-+ ";
    var unsigned := if signed then s[1..] else s;
    var n := if SkipOf(spec) <= |unsigned| then Value(unsigned[SkipOf(spec)..], Base(spec.typ)) else 0;
    if signed && s[0] == '-' then -n else n
  }

  /** Every occurrence of c removed. */
  function Without(s: string, c: char): string {
    if s == "" then ""
    else if s[0] == c then Without(s[1..], c)
    else [s[0]] + Without(s[1..], c)
  }

  lemma {:induction false} WithoutOfSum(s: string, t: string, c: char)
    ensures Without(s + t, c) == Without(s, c) + Without(t, c)
  {
    if s == "" {
      assert s + t == t;
    } else {
      WithoutOfSum(s[1..], t, c);
      WithoutFirst(s[0], s[1..], c);
      WithoutFirst(s[0], s[1..] + t, c);
      assert s == [s[0]] + s[1..] && s + t == [s[0]] + (s[1..] + t);
    }
  }

  lemma WithoutFirst(first: char, rest: string, c: char)
    ensures Without([first] + rest, c) == (if first == c then "" else [first]) + Without(rest, c)
  {
    assert ([first] + rest)[1..] == rest;
  }

  lemma {:induction false} WithoutOfRepeat(c: char, n: nat)
    ensures Without(Repeat(c, n), c) == ""
  {
    if n > 0 {
      WithoutOfRepeat(c, n - 1);
      assert Repeat(c, n)[1..] == Repeat(c, n - 1);
    }
  }

  lemma {:induction false} WithoutOfOthers(s: string, c: char)
    requires c !in s
    ensures Without(s, c) == s
  {
    if s != "" {
      WithoutOfOthers(s[1..], c);
    }
  }

  predicate IsDigitOf(c: char, base: nat, upper: bool) {
    || (IsDigit(c) && DigitValue(c) < base)
    || (base > 10 && if upper then 'A' <= c <= 'F' else 'a' <= c <= 'f')
  }

  /** What a number of this specification can contain besides its sign: a digit of its
      base or, if the base is marked, its letter. */
  predicate IsSignificant(c: char, spec: IntSpec) {
    || IsDigitOf(c, Base(spec.typ), spec.typ == 'X')
    || (spec.hashFlag && spec.typ in "xXbB" && c == spec.typ)
  }

  lemma {:induction false} NumeralIsSignificant(n: nat, base: nat, upper: bool)
    requires 2 <= base <= 10 || base == 16
    ensures forall i | 0 <= i < |Numeral(n, base, upper)| ::
              IsDigitOf(Numeral(n, base, upper)[i], base, upper) && Numeral(n, base, upper)[i] !in "+- "
  {
    if n >= base {
      SmallerQuotient(n, base);
      NumeralIsSignificant(n / base, base, upper);
    }
  }

  function SkipOf(spec: IntSpec): nat {
    if !spec.hashFlag then 0 else if Base(spec.typ) == 10 then 0 else if spec.typ == 'o' then 1 else 2
  }

  lemma BasePartLength(spec: IntSpec)
    requires IsIntegerType(spec.typ)
    ensures |BasePart(spec)| == SkipOf(spec)
    ensures |BasePart(spec)| > 0 ==> BasePart(spec)[0] == '0'
  {
  }

  lemma ReadParts(sign: string, base: string, number: string, spec: IntSpec)
    requires sign in ["", "-", "+", " "] && |base| == SkipOf(spec)
    requires |base| > 0 ==> base[0] == '0'
    requires number != "" && number[0] !in "-+ "
    ensures var v: int := Value(number, Base(spec.typ));
            Read(sign + (base + number), spec) == if sign == "-" then -v else v
  {
    hide Value;
    var s := sign + (base + number);
    assert s[|sign|..] == base + number;
    assert (base + number)[|base|..] == number;
    assert (base + number)[0] !in "-+ ";
  }

  lemma ReadNumber(value: int, spec: IntSpec, zeros: nat)
    requires IsIntegerType(spec.typ) && spec.typ != 'n'
    ensures var number := Repeat('0', zeros) + Digits(value, spec, "");
            && Read(Prefix(value, spec) + number, spec) == value
            && Read(BasePart(spec) + number, spec) == Magnitude(value)
  {
    var base, number := BasePart(spec), Repeat('0', zeros) + Digits(value, spec, "");
    BasePartLength(spec);
    NumeralReads(value, spec, zeros);
    ReadParts(SignPart(value < 0, spec), base, number, spec);
    PrefixFirst(SignPart(value < 0, spec), base, number);
    ReadParts("", base, number, spec);
    PrefixFirst("", base, number);
  }

  lemma PrefixFirst(sign: string, base: string, number: string)
    ensures sign + base + number == sign + (base + number)
    ensures sign == "" ==> sign + (base + number) == base + number
  {
  }

  lemma NumeralReads(value: int, spec: IntSpec, zeros: nat)
    requires IsIntegerType(spec.typ) && spec.typ != 'n'
    ensures var number := Repeat('0', zeros) + Digits(value, spec, "");
            && number != "" && number[0] !in "-+ "
            && Value(number, Base(spec.typ)) == Magnitude(value)
    ensures Digits(value, spec, "") != "" && Digits(value, spec, "")[0] !in "-+ "
    ensures Value(Digits(value, spec, ""), Base(spec.typ)) == Magnitude(value)
  {
    NumeralIsSignificant(Magnitude(value), Base(spec.typ), spec.typ == 'X');
    ValueOfNumeral(Magnitude(value), Base(spec.typ), spec.typ == 'X');
    LeadingZeros(Digits(value, spec, ""), zeros, Base(spec.typ));
    assert IsDigitOf(Digits(value, spec, "")[0], Base(spec.typ), spec.typ == 'X');
  }

  lemma {:induction false} LeadingZeros(s: string, n: nat, base: nat)
    ensures Value(Repeat('0', n) + s, base) == Value(s, base)
    decreases n + |s|
  {
    var t := Repeat('0', n) + s;
    if s != "" {
      LeadingZeros(s[..|s| - 1], n, base);
      assert t[..|t| - 1] == Repeat('0', n) + s[..|s| - 1];
    } else if n > 0 {
      LeadingZeros(s, n - 1, base);
      assert t[..|t| - 1] == Repeat('0', n - 1) + s;
    }
  }

  lemma FieldWithout(prefix: string, digits: string, spec: IntSpec)
    requires spec.fill !in digits
    ensures Without(Field(prefix, digits, spec), spec.fill) == Without(prefix, spec.fill) + digits
  {
    hide Without, Before, After;
    var size, c := |prefix| + |digits|, spec.fill;
    var before, after := Before(spec, prefix, size), After(spec, size);
    WithoutOfOthers(digits, c);
    BeforeWithout(prefix, size, spec);
    WithoutOfSum(before, digits, c);
    WithoutOfSum(before + digits, after, c);
  }

  lemma BeforeWithout(prefix: string, size: nat, spec: IntSpec)
    ensures Without(Before(spec, prefix, size), spec.fill) == Without(prefix, spec.fill)
    ensures Without(After(spec, size), spec.fill) == ""
  {
    var pad, c := Padding(spec, size), spec.fill;
    WithoutOfRepeat(c, pad);
    WithoutOfRepeat(c, pad / 2);
    WithoutOfRepeat(c, pad - pad / 2);
    WithoutOfSum(prefix, Repeat(c, pad), c);
    WithoutOfSum(Repeat(c, pad), prefix, c);
    WithoutOfSum(Repeat(c, pad / 2), prefix, c);
  }

  /** Removing the fill and reading what is left gives the value, for every alignment
      and every fill that is not a digit or mark of the number, with one exception: a
      minus sign as fill takes the sign of a negative number with it. */
  lemma FieldReadsBack(value: int, spec: IntSpec)
    requires IsIntegerType(spec.typ) && spec.typ != 'n' && !IsSignificant(spec.fill, spec)
    ensures Read(Without(IntField(value, spec, ""), spec.fill), spec) == value <==> !(spec.fill == '-' && value < 0)
  {
    hide Read, Without, Field;
    ZerosReadBack(value, spec, 0, spec);
    assert Prefix(value, spec) + Repeat('0', 0) == Prefix(value, spec);
  }

  /** So it does with zeros in front of the digits, whatever the alignment. */
  lemma ZerosReadBack(value: int, spec: IntSpec, zeros: nat, aligned: IntSpec)
    requires IsIntegerType(spec.typ) && spec.typ != 'n' && !IsSignificant(spec.fill, spec)
    requires aligned.fill == spec.fill
    ensures Read(Without(Field(Prefix(value, spec) + Repeat('0', zeros), Digits(value, spec, ""), aligned),
                         spec.fill), spec) == if spec.fill == '-' then Magnitude(value) else value
  {
    hide Read, Without, Field;
    var prefix, digits := Prefix(value, spec), Digits(value, spec, "");
    NumeralIsSignificant(Magnitude(value), Base(spec.typ), spec.typ == 'X');
    assert spec.fill !in digits;
    FieldWithout(prefix + Repeat('0', zeros), digits, aligned);
    ZeroIsSignificant(spec);
    WithoutOfSum(prefix, Repeat('0', zeros), spec.fill);
    WithoutOfOthers(Repeat('0', zeros), spec.fill);
    ReadNumber(value, spec, zeros);
    PrefixWithout(value, spec);
    PrefixFirst(Without(prefix, spec.fill), Repeat('0', zeros), digits);
  }

  lemma ZeroIsSignificant(spec: IntSpec)
    ensures IsSignificant('0', spec)
  {
  }

  /** The sign as a character, or NUL if there is none. */
  function SignOf(value: int, spec: IntSpec): char {
    var sign := SignPart(value < 0, spec);
    if sign == "" then '\0' else sign[0]
  }

  lemma PrefixWithout(value: int, spec: IntSpec)
    requires IsIntegerType(spec.typ) && !IsSignificant(spec.fill, spec)
    ensures var kept := Without(Prefix(value, spec), spec.fill);
            if spec.fill == SignOf(value, spec) then kept == BasePart(spec) else kept == Prefix(value, spec)
  {
    var sign, base, c := SignPart(value < 0, spec), BasePart(spec), spec.fill;
    WithoutOfSum(sign, base, c);
    if c !in base {
      WithoutOfOthers(base, c);
    }
    if c !in sign {
      WithoutOfOthers(sign, c);
    }
  }

  /** Zero fill between prefix and digits needs no removing. */
  lemma ZeroPaddedReadsBack(value: int, spec: IntSpec)
    requires IsIntegerType(spec.typ) && spec.typ != 'n' && spec.fill == '0' && spec.align == AlignNumeric
    ensures Read(IntField(value, spec, ""), spec) == value
  {
    var prefix, digits := Prefix(value, spec), Digits(value, spec, "");
    var pad := Padding(spec, |prefix| + |digits|);
    ReadNumber(value, spec, pad);
    ZerosInside(prefix, digits, spec);
  }

  lemma ZerosInside(prefix: string, digits: string, spec: IntSpec)
    requires spec.align == AlignNumeric
    ensures Field(prefix, digits, spec) ==
            prefix + (Repeat(spec.fill, Padding(spec, |prefix| + |digits|)) + digits)
  {
    assert After(spec, |prefix| + |digits|) == "";
  }

  /** An unadorned decimal field is what the plain decimal writer produces. */
  lemma PlainFieldIsSignedDecimal(value: int, spec: IntSpec)
    requires spec.typ == 'd' && !spec.signFlag
    requires spec.width <= |SignedDecimal(value)|
    ensures IntField(value, spec, "") == SignedDecimal(value)
  {
    var prefix, digits := Prefix(value, spec), Digits(value, spec, "");
    assert prefix == if value < 0 then "-" else "";
    assert prefix + digits == SignedDecimal(value);
    Unpadded(prefix, digits, spec);
  }

  /** A width that the number reaches leaves nothing to fill. */
  lemma Unpadded(prefix: string, digits: string, spec: IntSpec)
    requires spec.width <= |prefix| + |digits|
    ensures Field(prefix, digits, spec) == prefix + digits
  {
    assert Repeat(spec.fill, 0) == "";
  }
}
