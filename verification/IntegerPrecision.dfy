/** An integer with a precision: at least so many digits, zeros in front of its own. */
module IntegerPrecision {
  import opened IntegerText

  /** The octal mark counts as a digit and gives way to the zeros. */
  function WithoutMark(prefix: string): string {
    if prefix != "" && prefix[|prefix| - 1] == '0' then prefix[..|prefix| - 1] else prefix
  }

  /** What stands in front of the digits, fill aside. */
  function PrecisePrefix(prefix: string, numDigits: nat, precision: int): string {
    if precision > numDigits then WithoutMark(prefix) + Repeat('0', precision - numDigits) else prefix
  }

  /** Once a precision takes effect, every alignment but left is right. */
  function PreciseSpec(spec: IntSpec, numDigits: nat, precision: int): IntSpec {
    if precision > numDigits && spec.align != AlignLeft then spec.(align := AlignRight) else spec
  }

  function PreciseField(prefix: string, digits: string, spec: IntSpec, precision: int): string {
    Field(PrecisePrefix(prefix, |digits|, precision), digits, PreciseSpec(spec, |digits|, precision))
  }

  function PreciseIntField(value: int, spec: IntSpec, precision: int, sep: string): string {
    PreciseField(Prefix(value, spec), Digits(value, spec, sep), spec, precision)
  }

  /** The zeros come after the sign and the base's mark, the octal mark being one of
      them. */
  lemma PreciseIsZeros(value: int, spec: IntSpec, numDigits: nat, precision: int)
    requires IsIntegerType(spec.typ) && precision > numDigits
    ensures var mark := if spec.hashFlag && spec.typ == 'o' then 1 else 0;
            PrecisePrefix(Prefix(value, spec), numDigits, precision)
              == Prefix(value, spec) + Repeat('0', precision - numDigits - mark)
  {
    var zeros := precision - numDigits;
    if spec.hashFlag && spec.typ == 'o' {
      var sign := SignPart(value < 0, spec);
      assert Prefix(value, spec) == sign + "0" && WithoutMark(sign + "0") == sign;
      assert sign + Repeat('0', zeros) == sign + "0" + Repeat('0', zeros - 1);
    }
  }

  /** As wide as asked for, with as many digits as asked for, or as wide as the number
      is anyway. */
  lemma PreciseFieldLength(value: int, spec: IntSpec, precision: int, sep: string)
    requires IsIntegerType(spec.typ)
    ensures var digits := |Digits(value, spec, sep)|;
            var mark := if spec.hashFlag && spec.typ == 'o' then 1 else 0;
            var number := |Prefix(value, spec)| + if precision > digits then precision - mark else digits;
            |PreciseIntField(value, spec, precision, sep)| == if spec.width > number then spec.width else number
  {
    hide Field, Prefix, Digits, PrecisePrefix;
    var prefix, digits := Prefix(value, spec), Digits(value, spec, sep);
    if precision > |digits| {
      PreciseIsZeros(value, spec, |digits|, precision);
    } else {
      NoPrecision(prefix, |digits|, precision);
    }
    FieldSize(PrecisePrefix(prefix, |digits|, precision), digits, PreciseSpec(spec, |digits|, precision));
  }

  lemma NoPrecision(prefix: string, numDigits: nat, precision: int)
    requires precision <= numDigits
    ensures PrecisePrefix(prefix, numDigits, precision) == prefix
  {
  }

  lemma FieldSize(prefix: string, digits: string, spec: IntSpec)
    ensures var number := |prefix| + |digits|;
            |Field(prefix, digits, spec)| == if spec.width > number then spec.width else number
  {
  }

  /** Removing the fill and reading what is left gives the value, with every
      precision; the one exception is the same. */
  lemma PreciseFieldReadsBack(value: int, spec: IntSpec, precision: int)
    requires IsIntegerType(spec.typ) && spec.typ != 'n' && !IsSignificant(spec.fill, spec)
    ensures Read(Without(PreciseIntField(value, spec, precision, ""), spec.fill), spec) == value
            <==> !(spec.fill == '-' && value < 0)
  {
    hide Read, Without, Field, Prefix, Digits;
    var digits := Digits(value, spec, "");
    if precision > |digits| {
      var mark := if spec.hashFlag && spec.typ == 'o' then 1 else 0;
      PreciseIsZeros(value, spec, |digits|, precision);
      ZerosReadBack(value, spec, precision - |digits| - mark, PreciseSpec(spec, |digits|, precision));
    } else {
      FieldReadsBack(value, spec);
    }
  }

  /** Numeric zero fill reads as part of the number unless a precision takes effect in
      a wider field: then it stands in front of the sign, and a negative number is
      not read back. */
  lemma ZeroPaddedWithPrecision(value: int, spec: IntSpec, precision: int)
    requires IsIntegerType(spec.typ) && spec.typ != 'n' && spec.fill == '0' && spec.align == AlignNumeric
    requires value < 0
    ensures var digits := |Digits(value, spec, "")|;
            var mark := if spec.hashFlag && spec.typ == 'o' then 1 else 0;
            Read(PreciseIntField(value, spec, precision, ""), spec) == value <==>
            precision <= digits || spec.width <= |Prefix(value, spec)| + precision - mark
  {
    hide Read, Field, Prefix, Digits, PrecisePrefix;
    var digits := Digits(value, spec, "");
    if precision <= |digits| {
      NoPrecision(Prefix(value, spec), |digits|, precision);
      ZeroPaddedReadsBack(value, spec);
    } else {
      var mark := if spec.hashFlag && spec.typ == 'o' then 1 else 0;
      PreciseIsZeros(value, spec, |digits|, precision);
      ZerosReadIff(value, spec, precision - |digits| - mark, PreciseSpec(spec, |digits|, precision));
    }
  }

  lemma ZerosReadIff(value: int, spec: IntSpec, zeros: nat, aligned: IntSpec)
    requires IsIntegerType(spec.typ) && spec.typ != 'n' && value < 0
    requires aligned.fill == '0' && aligned.align == AlignRight
    ensures var prefix, digits := Prefix(value, spec) + Repeat('0', zeros), Digits(value, spec, "");
            Read(Field(prefix, digits, aligned), spec) == value <==> aligned.width <= |prefix| + |digits|
  {
    hide Read, Field, Prefix, Digits;
    var prefix, digits := Prefix(value, spec) + Repeat('0', zeros), Digits(value, spec, "");
    if aligned.width <= |prefix| + |digits| {
      Unpadded(prefix, digits, aligned);
      ReadNumber(value, spec, zeros);
      PrefixFirst(Prefix(value, spec), Repeat('0', zeros), digits);
    } else {
      StartsWithFill(prefix, digits, aligned);
      NotNegative(Field(prefix, digits, aligned), spec);
    }
  }

  lemma StartsWithFill(prefix: string, digits: string, spec: IntSpec)
    requires spec.align == AlignRight && spec.width > |prefix| + |digits|
    ensures var field := Field(prefix, digits, spec); field != "" && field[0] == spec.fill
  {
  }

  lemma NotNegative(s: string, spec: IntSpec)
    requires s != "" && s[0] == '0'
    ensures Read(s, spec) >= 0
  {
  }

  /** An instance, "%08.3d" of -5: the zeros of the field stand in front of the sign. */
  lemma ZerosBeforeTheSign()
    ensures PreciseIntField(-5, IntSpec(8, '0', AlignNumeric, false, false, false, false, 'd'), 3, "") == "0000-005"
  {
    var spec := IntSpec(8, '0', AlignNumeric, false, false, false, false, 'd');
    assert Prefix(-5, spec) == "-" && Digits(-5, spec, "") == "5";
    assert PrecisePrefix("-", 1, 3) == "-" + Repeat('0', 2) == "-00";
    assert Repeat('0', 4) == "0000";
  }
}
