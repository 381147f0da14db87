/** The integer formatter on top of the output buffer: sign and base prefix, the
    field laid out around the digits, and the stand-alone fast formatter. */
module IntegerWriter {
  import opened CountDigits
  import opened DecimalWriter
  import opened IntegerText
  import opened MachineWords
  import opened Numerals

  // ----- the unsigned magnitude

  function Modulus(bits: nat): nat {
    if bits == 32 then 0x1_0000_0000 else WORD
  }

  /** Values a 32- or 64-bit integer type, signed or not, can hold. */
  predicate Fits(value: int, bits: nat) {
    bits in [32, 64] && -(Modulus(bits) / 2) <= value < Modulus(bits)
  }

  /** The cast to the unsigned type, and `0 - value` in it for negative values. */
  function AbsValue(value: int, bits: nat): nat {
    var unsigned := value % Modulus(bits);
    if value < 0 then (0 - unsigned) % Modulus(bits) else unsigned
  }

  /** No magnitude is lost, not even that of the minimum value. */
  lemma AbsValueIsMagnitude(value: int, bits: nat)
    requires Fits(value, bits)
    ensures AbsValue(value, bits) == Magnitude(value)
  {
    var m := Modulus(bits);
    if value < 0 {
      RemainderIsUnique(value, m, -1, value + m);
      RemainderIsUnique(-(value + m), m, -1, -value);
    } else {
      RemainderIsUnique(value, m, 0, value);
    }
  }

  method Absolute(value: int, bits: nat) returns (absValue: nat)
    requires Fits(value, bits)
    ensures absValue == Magnitude(value) < Modulus(bits)
  {
    AbsValueIsMagnitude(value, bits);
    absValue := AbsValue(value, bits);
  }

  function CountDigitsOf(value: nat, bits: nat): nat
    requires value < Modulus(bits)
  {
    if bits == 32 then CountDigits32(value) else CountDigits64(value)
  }

  lemma {:induction false} GroupedByNothing(digits: string)
    ensures Grouped(digits, "") == digits
  {
    if |digits| > 3 {
      GroupedByNothing(digits[..|digits| - 3]);
    }
  }

  lemma DecimalOfWordIsShort(value: nat)
    ensures value < WORD ==> |Decimal(value)| <= 20
    ensures value <= HALF ==> |Decimal(value)| <= 19
  {
    NumeralLength(value, 10, false);
    PowersOfTen();
    var k := |Decimal(value)|;
    if k > 20 {
      PowerIsMonotone(10, 20, k - 1);
    }
    if k > 19 {
      PowerIsMonotone(10, 19, k - 1);
    }
  }

  // ----- the fast formatter

  class FormatInt {
    const buffer: array<char>
    var str: nat

    ghost predicate Valid()
      reads this
    {
      buffer.Length == 22 && str <= 21
    }

    ghost function Text(): string
      requires Valid()
      reads this, buffer
    {
      buffer[str..21]
    }

    /** Never steps in front of the buffer, sign included. */
    constructor Signed(value: int)
      requires -HALF <= value < HALF
      ensures Valid() && Text() == SignedDecimal(value)
    {
      buffer := new char[22];
      str := 21;
      new;
      AbsValueIsMagnitude(value, 64);
      var absValue := AbsValue(value, 64);
      DecimalOfWordIsShort(absValue);
      GroupedByNothing(Decimal(absValue));
      str := FormatDecimal(buffer, 21, absValue, 0, "");
      assert buffer[str..21] == Decimal(absValue);
      if value < 0 {
        str := str - 1;
        buffer[str] := '-';
        assert buffer[str..21] == "-" + Decimal(absValue);
      }
    }

    constructor Unsigned(value: nat)
      requires value < WORD
      ensures Valid() && Text() == Decimal(value)
    {
      buffer := new char[22];
      str := 21;
      new;
      DecimalOfWordIsShort(value);
      GroupedByNothing(Decimal(value));
      str := FormatDecimal(buffer, 21, value, 0, "");
      assert buffer[str..21] == Decimal(value);
    }

    method Size() returns (n: nat)
      requires Valid()
      ensures n == |Text()|
    {
      n := 21 - str;
    }

    /** The text up to the terminating null character. */
    method CStr() returns (s: nat)
      requires Valid()
      modifies buffer
      ensures s == str && Text() == old(Text()) && buffer[s + |Text()|] == '\0'
    {
      buffer[21] := '\0';
      s := str;
    }
  }

  // ----- filling and copying

  /** The same but for s, put at `at`. */
  ghost predicate Pasted(was: string, now: string, at: nat, s: string) {
    at + |s| <= |was| && now == was[..at] + s + was[at + |s|..]
  }

  method Fill(a: array<char>, from: nat, to: nat, fill: char)
    requires from <= to <= a.Length
    modifies a
    ensures Pasted(old(a[..]), a[..], from, Repeat(fill, to - from))
  {
    ghost var was := a[..];
    forall i | from <= i < to {
      a[i] := fill;
    }
    assert a[..] == was[..from] + Repeat(fill, to - from) + was[to..];
  }

  method Copy(a: array<char>, at: nat, s: string)
    requires at + |s| <= a.Length
    modifies a
    ensures Pasted(old(a[..]), a[..], at, s)
  {
    ghost var was := a[..];
    forall i | 0 <= i < |s| {
      a[at + i] := s[i];
    }
    assert a[..] == was[..at] + s + was[at + |s|..];
  }

  // ----- digits in a base that is a power of two

  function ShiftOf(typ: char): nat {
    if typ == 'x' || typ == 'X' then 4 else if typ == 'o' then 3 else 1
  }

  lemma ShiftIsBase(typ: char)
    requires typ in "xXbBo"
    ensures Pow2(ShiftOf(typ)) == Base(typ)
  {
    assert Pow2(1) == 2 && Pow2(3) == 8 && Pow2(4) == 16;
  }

  /** The number of digits, counted by shifting the value out. */
  method CountShifts(value: nat, typ: char) returns (numDigits: nat)
    requires typ in "xXbBo"
    ensures numDigits == |Numeral(value, Base(typ), typ == 'X')|
  {
    ShiftIsBase(typ);
    var n: nat := value;
    numDigits := 0;
    while true
      invariant numDigits + |Numeral(n, Base(typ), typ == 'X')| == |Numeral(value, Base(typ), typ == 'X')|
      decreases n
    {
      numDigits := numDigits + 1;
      if n >= Base(typ) {
        SmallerQuotient(n, Base(typ));
      }
      n := n / Pow2(ShiftOf(typ));
      if n == 0 {
        break;
      }
    }
  }

  /** `n & mask`, the last digit. */
  function LowDigit(n: nat, typ: char): (d: nat)
    requires typ in "xXbBo"
    ensures d == n % Base(typ)
  {
    ShiftIsBase(typ);
    MaskIsMod(n, ShiftOf(typ));
    BitAnd(n, Pow2(ShiftOf(typ)) - 1)
  }

  lemma NumeralStep(n: nat, base: nat, upper: bool, tail: string)
    requires 2 <= base <= 16
    ensures n >= base ==> 0 < n / base < n
    ensures n < base ==> n / base == 0
    ensures n % base < 16
    ensures Numeral(n, base, upper) + tail ==
            (if n / base == 0 then "" else Numeral(n / base, base, upper)) + ([DigitChar(n % base, upper)] + tail)
  {
    if n >= base {
      SmallerQuotient(n, base);
    } else {
      RemainderIsUnique(n, base, 0, n);
    }
  }

  /** Writes the digits so that the last of them is at p. */
  method WriteShifted(a: array<char>, p: nat, value: nat, typ: char)
    requires typ in "xXbBo"
    requires |Numeral(value, Base(typ), typ == 'X')| <= p + 1 <= a.Length
    modifies a
    ensures var text := Numeral(value, Base(typ), typ == 'X');
            a[..] == old(a[..p + 1 - |text|]) + text + old(a[p + 1..])
  {
    ghost var text, start, tail := Numeral(value, Base(typ), typ == 'X'), a[..], "";
    var n: nat, at: int := value, p;
    while true
      invariant 0 <= at && Progress(start, a[..], at + 1, p + 1, tail)
      invariant text == Numeral(n, Base(typ), typ == 'X') + tail
      decreases n
    {
      ShiftIsBase(typ);
      NumeralStep(n, Base(typ), typ == 'X', tail);
      var c := DigitChar(LowDigit(n, typ), typ == 'X');
      PutChar(a, at + 1, p + 1, c, tail, start);
      tail := [c] + tail;
      at := at - 1;
      n := n / Pow2(ShiftOf(typ));
      if n == 0 {
        break;
      }
    }
    assert text == tail;
  }
}
