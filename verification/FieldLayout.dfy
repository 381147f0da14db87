/** Where everything stands in an integer field, written out. */
module FieldLayout {
  import opened IntegerPrecision
  import opened IntegerText
  import opened Numerals

  /** The sign and the mark of the base, by value, flags and type. */
  lemma PrefixIs(value: int, spec: IntSpec)
    requires IsIntegerType(spec.typ)
    ensures Prefix(value, spec) ==
            (if value < 0 then "-" else if spec.signFlag && spec.plusFlag then "+" else if spec.signFlag then " " else "") +
            (if !spec.hashFlag then ""
             else match spec.typ
                  case 'x' => "0x" case 'X' => "0X" case 'b' => "0b" case 'B' => "0B" case 'o' => "0" case _ => "")
  {
  }

  /** The digits: the magnitude in the base of the type, its letters small for x and
      capital for X. */
  lemma DigitsAre(value: int, spec: IntSpec)
    requires IsIntegerType(spec.typ) && spec.typ != 'n'
    ensures var digits := Digits(value, spec, "");
            var base := if spec.typ == 'x' || spec.typ == 'X' then 16 else if spec.typ == 'o' then 8
                        else if spec.typ == 'b' || spec.typ == 'B' then 2 else 10;
            && digits != "" && Value(digits, base) == Magnitude(value)
            && (forall i | 0 <= i < |digits| ::
                  '0' <= digits[i] <= '9' || (if spec.typ == 'X' then 'A' <= digits[i] <= 'F' else 'a' <= digits[i] <= 'f'))
            && (digits[0] == '0' ==> digits == "0")
  {
    var base := Base(spec.typ);
    NumeralIsSignificant(Magnitude(value), base, spec.typ == 'X');
    ValueOfNumeral(Magnitude(value), base, spec.typ == 'X');
    if Magnitude(value) > 0 {
      NoLeadingZero(Magnitude(value), base, spec.typ == 'X');
    }
  }

  /** Default and right alignment put the fill in front of the number, left behind it,
      centre on both sides, the greater half behind, and numeric between the prefix
      and the digits. */
  lemma FieldIsLaidOut(value: int, spec: IntSpec, sep: string)
    ensures var prefix, digits := Prefix(value, spec), Digits(value, spec, sep);
            var size := |prefix| + |digits|;
            var pad := if spec.width > size then spec.width - size else 0;
            IntField(value, spec, sep) ==
            match spec.align
            case DefaultAlign => Repeat(spec.fill, pad) + prefix + digits
            case AlignRight => Repeat(spec.fill, pad) + prefix + digits
            case AlignLeft => prefix + digits + Repeat(spec.fill, pad)
            case AlignCenter => Repeat(spec.fill, pad / 2) + prefix + digits + Repeat(spec.fill, pad - pad / 2)
            case AlignNumeric => prefix + Repeat(spec.fill, pad) + digits
  {
    hide Prefix, Digits, Repeat;
    var prefix, digits := Prefix(value, spec), Digits(value, spec, sep);
    NothingAround(Before(spec, prefix, |prefix| + |digits|) + digits);
  }

  lemma NothingAround(s: string)
    ensures s + "" == s
  {
  }

  /** With a precision that takes effect: sign and mark, but not the octal one, zeros,
      digits, and the fill in front of it all unless the field is left-aligned. */
  lemma PreciseFieldIsLaidOut(value: int, spec: IntSpec, precision: int, sep: string)
    requires IsIntegerType(spec.typ) && precision > |Digits(value, spec, sep)|
    ensures var digits := Digits(value, spec, sep);
            var prefix := Prefix(value, if spec.typ == 'o' then spec.(hashFlag := false) else spec);
            var number := prefix + Repeat('0', precision - |digits|) + digits;
            var fill := Repeat(spec.fill, if spec.width > |number| then spec.width - |number| else 0);
            PreciseIntField(value, spec, precision, sep) ==
            if spec.align == AlignLeft then number + fill else fill + number
  {
    hide Digits, Prefix, PrecisePrefix, Repeat, Field, WithoutMark;
    var digits := Digits(value, spec, sep);
    var plain := if spec.typ == 'o' then spec.(hashFlag := false) else spec;
    var number := Prefix(value, plain) + Repeat('0', precision - |digits|);
    assert PrecisePrefix(Prefix(value, spec), |digits|, precision) == number by {
      MarkIsLeftOut(value, spec);
      PreciseIs(Prefix(value, spec), |digits|, precision);
    }
    OneSidedField(number, digits, PreciseSpec(spec, |digits|, precision));
  }

  lemma PreciseIs(prefix: string, numDigits: nat, precision: int)
    requires precision > numDigits
    ensures PrecisePrefix(prefix, numDigits, precision) == WithoutMark(prefix) + Repeat('0', precision - numDigits)
  {
  }

  lemma OneSidedField(prefix: string, digits: string, spec: IntSpec)
    requires spec.align == AlignLeft || spec.align == AlignRight
    ensures var number := prefix + digits;
            var fill := Repeat(spec.fill, if spec.width > |number| then spec.width - |number| else 0);
            Field(prefix, digits, spec) == if spec.align == AlignLeft then number + fill else fill + number
  {
    hide Repeat;
    var fill := Repeat(spec.fill, Padding(spec, |prefix| + |digits|));
    if spec.align == AlignRight {
      Reassociated(fill, prefix, digits);
    }
  }

  lemma MarkIsLeftOut(value: int, spec: IntSpec)
    requires IsIntegerType(spec.typ)
    ensures WithoutMark(Prefix(value, spec)) == Prefix(value, if spec.typ == 'o' then spec.(hashFlag := false) else spec)
  {
    hide SignPart;
    var sign, mark := SignPart(value < 0, spec), BasePart(spec);
    SignHasNoZero(value < 0, spec);
    assert SignPart(value < 0, spec.(hashFlag := false)) == sign by {
      SignOfPlain(value < 0, spec);
    }
    WithoutMarkOf(sign, mark);
  }

  lemma SignHasNoZero(negative: bool, spec: IntSpec)
    ensures '0' !in SignPart(negative, spec)
  {
  }

  lemma SignOfPlain(negative: bool, spec: IntSpec)
    ensures SignPart(negative, spec.(hashFlag := false)) == SignPart(negative, spec)
  {
  }

  lemma WithoutMarkOf(sign: string, mark: string)
    requires '0' !in sign && mark in ["", "0", "0x", "0X", "0b", "0B"]
    ensures WithoutMark(sign + mark) == sign + if mark == "0" then "" else mark
    ensures sign + "" == sign
  {
    if mark != "" {
      LastOfSum(sign, mark);
    } else {
      assert sign + mark == sign && (sign != "" ==> sign[|sign| - 1] in sign);
    }
  }

  lemma LastOfSum(sign: string, mark: string)
    requires mark != ""
    ensures (sign + mark)[|sign + mark| - 1] == mark[|mark| - 1]
  {
  }

  lemma Reassociated(fill: string, before: string, digits: string)
    ensures fill + before + digits + "" == fill + (before + digits)
  {
  }

  function Plain(width: nat, fill: char, typ: char): IntSpec {
    IntSpec(width, fill, DefaultAlign, false, false, false, false, typ)
  }

  /** Instances: a width alone, and the two-digit hour of a log line. */
  lemma FilledFields()
    ensures IntField(42, Plain(5, ' ', '\0'), "") == "   42"
    ensures IntField(7, Plain(2, '0', '\0'), "") == "07"
  {
    hide IntField;
    NumberIs(42, Plain(5, ' ', '\0'), "", "42");
    NumberIs(7, Plain(2, '0', '\0'), "", "7");
    FieldIsLaidOut(42, Plain(5, ' ', '\0'), "");
    FieldIsLaidOut(7, Plain(2, '0', '\0'), "");
    assert Repeat(' ', 3) == "   " && Repeat('0', 1) == "0";
  }

  /** A marked hexadecimal number in both cases. */
  lemma MarkedFields()
    ensures IntField(255, Plain(0, ' ', 'x').(hashFlag := true), "") == "0xff"
    ensures IntField(255, Plain(0, ' ', 'X').(hashFlag := true), "") == "0XFF"
  {
    hide IntField;
    NumberIs(255, Plain(0, ' ', 'x').(hashFlag := true), "0x", "ff");
    NumberIs(255, Plain(0, ' ', 'X').(hashFlag := true), "0X", "FF");
    FieldIsLaidOut(255, Plain(0, ' ', 'x').(hashFlag := true), "");
    FieldIsLaidOut(255, Plain(0, ' ', 'X').(hashFlag := true), "");
    assert Repeat(' ', 0) == "";
  }

  /** A plus sign, and a centred number. */
  lemma SignedFields()
    ensures IntField(42, Plain(0, ' ', 'd').(signFlag := true, plusFlag := true), "") == "+42"
    ensures IntField(-42, Plain(6, '*', 'd').(align := AlignCenter), "") == "*-42**"
  {
    hide IntField;
    NumberIs(42, Plain(0, ' ', 'd').(signFlag := true, plusFlag := true), "+", "42");
    NumberIs(-42, Plain(6, '*', 'd').(align := AlignCenter), "-", "42");
    FieldIsLaidOut(42, Plain(0, ' ', 'd').(signFlag := true, plusFlag := true), "");
    FieldIsLaidOut(-42, Plain(6, '*', 'd').(align := AlignCenter), "");
    assert Repeat(' ', 0) == "" && Repeat('*', 1) == "*" && Repeat('*', 2) == "**";
  }

  lemma NumberIs(value: int, spec: IntSpec, prefix: string, digits: string)
    requires prefix == Prefix(value, spec) && digits == Digits(value, spec, "")
    ensures Prefix(value, spec) + Digits(value, spec, "") == prefix + digits
  {
  }
}
