/** The format-specification parser, `[[fill]align][sign][#][0][width][type]`, and
    the printer it undoes. Arguments are integers, signed or not. */
module SpecParser {
  import opened FormatSpec
  import opened IntegerText
  import opened Numerals

  datatype Parsed =
    | Parsed(spec: IntSpec, next: nat)
    | Malformed
    | NestedWidth(spec: IntSpec, next: nat)   // up to behind the brace that opens the width

  const DEFAULT_SPEC: IntSpec := IntSpec(0, ' ', DefaultAlign, false, false, false, false, '\0')

  function AlignmentOf(c: char): Alignment {
    match c
    case '<' => AlignLeft
    case '>' => AlignRight
    case '=' => AlignNumeric
    case '^' => AlignCenter
    case _ => DefaultAlign
  }

  // ----- the stages, each from where the one before it stopped

  /** Fill and alignment. A closing brace in the fill's place is left alone, but an
      alignment character behind it still counts. */
  function ParsedAlign(s: string, i: nat): Parsed {
    var c := At(s, i);
    var ahead := AlignmentOf(At(s, i + 1));
    if c == '\0' then Parsed(DEFAULT_SPEC, i)
    else if ahead != DefaultAlign then
      if c == '}' then Parsed(DEFAULT_SPEC.(align := ahead), i)
      else if c == '{' then Malformed
      else Parsed(DEFAULT_SPEC.(align := ahead, fill := c), i + 2)
    else if AlignmentOf(c) != DefaultAlign then Parsed(DEFAULT_SPEC.(align := AlignmentOf(c)), i + 1)
    else Parsed(DEFAULT_SPEC, i)
  }

  function ParsedSign(s: string, i: nat, spec: IntSpec, signed: bool): Parsed {
    var c := At(s, i);
    if c !in "+- " then Parsed(spec, i)
    else if !signed then Malformed
    else Parsed(spec.(signFlag := c != '-', plusFlag := c == '+', minusFlag := c == '-'), i + 1)
  }

  function ParsedHash(s: string, i: nat, spec: IntSpec): Parsed {
    if At(s, i) == '#' then Parsed(spec.(hashFlag := true), i + 1) else Parsed(spec, i)
  }

  function ParsedZero(s: string, i: nat, spec: IntSpec): Parsed {
    if At(s, i) == '0' then Parsed(spec.(align := AlignNumeric, fill := '0'), i + 1) else Parsed(spec, i)
  }

  function ParsedWidth(s: string, i: nat, spec: IntSpec): Parsed {
    if IsDigit(At(s, i)) then
      match ParsedInt(s, i)
      case None => Malformed
      case Some((n, next)) => Parsed(spec.(width := n), next)
    else if At(s, i) == '{' then NestedWidth(spec, i + 1)
    else Parsed(spec, i)
  }

  /** An integer takes no precision, so a point is an error whatever follows. */
  function ParsedType(s: string, i: nat, spec: IntSpec): Parsed {
    var c := At(s, i);
    if c == '.' then Malformed
    else if c != '}' && c != '\0' then Parsed(spec.(typ := c), i + 1)
    else Parsed(spec, i)
  }

  function ParsedEnd(s: string, i: nat, spec: IntSpec): Parsed {
    if At(s, i) == '}' then Parsed(spec, i + 1) else Malformed
  }

  function ParsedFlags(s: string, i: nat, spec: IntSpec, signed: bool): Parsed {
    match ParsedSign(s, i, spec, signed)
    case Parsed(spec1, i1) =>
      var hash := ParsedHash(s, i1, spec1);
      ParsedZero(s, hash.next, hash.spec)
    case other => other
  }

  function ParsedTypeAndEnd(s: string, i: nat, spec: IntSpec): Parsed {
    match ParsedType(s, i, spec)
    case Parsed(spec1, i1) => ParsedEnd(s, i1, spec1)
    case other => other
  }

  function ParsedRest(s: string, i: nat, spec: IntSpec): Parsed {
    match ParsedWidth(s, i, spec)
    case Parsed(spec1, i1) => ParsedTypeAndEnd(s, i1, spec1)
    case other => other
  }

  /** The specification that starts behind the colon. */
  function ParsedSpec(s: string, i: nat, signed: bool): Parsed {
    match ParsedAlign(s, i)
    case Parsed(spec1, i1) =>
      (match ParsedFlags(s, i1, spec1, signed)
       case Parsed(spec2, i2) => ParsedRest(s, i2, spec2)
       case other => other)
    case other => other
  }

  /** A replacement field from behind its argument to behind its closing brace. */
  function ParsedField(s: string, i: nat, signed: bool): (r: Parsed) {
    if At(s, i) == ':' then ParsedSpec(s, i + 1, signed) else ParsedEnd(s, i, DEFAULT_SPEC)
  }

  lemma FieldEndsInside(s: string, i: nat, signed: bool)
    ensures !ParsedField(s, i, signed).Malformed? ==> i < ParsedField(s, i, signed).next <= |s|
  {
  }

  lemma TypeEndsInside(s: string, i: nat, spec: IntSpec)
    ensures !ParsedTypeAndEnd(s, i, spec).NestedWidth?
    ensures ParsedTypeAndEnd(s, i, spec).Parsed? ==> i < ParsedTypeAndEnd(s, i, spec).next <= |s|
  {
  }

  // ----- the printer

  function AlignChar(align: Alignment): char {
    match align
    case AlignLeft => '<'
    case AlignRight => '>'
    case AlignNumeric => '='
    case _ => '^'
  }

  function PrintedAlign(spec: IntSpec): string {
    if spec.align == DefaultAlign then "" else [spec.fill, AlignChar(spec.align)]
  }

  function PrintedSign(spec: IntSpec): string {
    if spec.minusFlag then "-" else if !spec.signFlag then "" else if spec.plusFlag then "+" else " "
  }

  function PrintedHash(spec: IntSpec): string {
    if spec.hashFlag then "#" else ""
  }

  function PrintedWidth(spec: IntSpec): string {
    if spec.width == 0 then "" else Decimal(spec.width)
  }

  function PrintedType(spec: IntSpec): string {
    if spec.typ == '\0' then "" else [spec.typ]
  }

  function Printed(spec: IntSpec): string {
    PrintedAlign(spec) + PrintedSign(spec) + PrintedHash(spec) + PrintedWidth(spec) + PrintedType(spec)
  }

  /** Specifications the mini-language can express for an integer. */
  predicate Printable(spec: IntSpec) {
    && spec.fill !in "\0{}"
    && (spec.align == DefaultAlign ==> spec.fill == ' ')
    && (spec.plusFlag ==> spec.signFlag)
    && !(spec.minusFlag && spec.signFlag)
    && spec.width <= INT_MAX
    && IsIntegerType(spec.typ)
  }

  predicate NeedsSigned(spec: IntSpec) {
    spec.signFlag || spec.minusFlag
  }

  /** Text t stands at i. */
  predicate Here(s: string, i: nat, t: string) {
    i + |t| <= |s| && s[i..i + |t|] == t
  }

  lemma HereTwo(s: string, i: nat, t: string, u: string)
    ensures Here(s, i, t + u) <==> Here(s, i, t) && Here(s, i + |t|, u)
  {
    if i + |t| + |u| <= |s| {
      var both := s[i..i + |t| + |u|];
      assert both[..|t|] == s[i..i + |t|] && both[|t|..] == s[i + |t|..i + |t| + |u|];
      assert both == both[..|t|] + both[|t|..];
      assert (t + u)[..|t|] == t && (t + u)[|t|..] == u;
    }
  }

  lemma HereFirst(s: string, i: nat, t: string)
    requires Here(s, i, t) && t != ""
    ensures At(s, i) == t[0]
    ensures |t| > 1 ==> At(s, i + 1) == t[1]
  {
    assert s[i..i + |t|][0] == s[i];
    assert |t| > 1 ==> s[i..i + |t|][1] == s[i + 1];
  }

  lemma WidthIsParsed(s: string, i: nat, spec: IntSpec, rest: string)
    requires spec.width <= INT_MAX && Here(s, i, PrintedWidth(spec) + rest)
    requires rest != "" && !IsDigit(rest[0]) && rest[0] != '{'
    ensures ParsedWidth(s, i, spec.(width := 0)) == Parsed(spec, i + |PrintedWidth(spec)|)
    ensures At(s, i) != '0'
  {
    var width := PrintedWidth(spec);
    HereTwo(s, i, width, rest);
    HereFirst(s, i + |width|, rest);
    if spec.width > 0 {
      HereFirst(s, i, width);
      NoLeadingZero(spec.width, 10, false);
      PrintedIntIsParsed(s, i, spec.width);
    }
  }

  lemma RestIsParsed(s: string, i: nat, spec: IntSpec)
    requires Printable(spec) && Here(s, i, PrintedRest(spec))
    ensures ParsedRest(s, i, Unsized(spec)) == Parsed(spec, i + |PrintedRest(spec)|)
    ensures At(s, i) != '0'
  {
    hide ParsedWidth, ParsedType, ParsedEnd, Decimal, PrintedType, IsIntegerType;
    var width, typ := PrintedWidth(spec), PrintedType(spec) + "}";
    TypeStart(spec);
    WidthIsParsed(s, i, spec.(typ := '\0'), typ);
    HereTwo(s, i, width, typ);
    TypeIsParsed(s, i + |width|, spec);
  }

  lemma TypeStart(spec: IntSpec)
    requires IsIntegerType(spec.typ)
    ensures var typ := PrintedType(spec) + "}"; !IsDigit(typ[0]) && typ[0] != '{'
  {
  }

  lemma TypeIsParsed(s: string, i: nat, spec: IntSpec)
    requires IsIntegerType(spec.typ) && Here(s, i, PrintedType(spec) + "}")
    ensures ParsedType(s, i, spec.(typ := '\0')) == Parsed(spec, i + |PrintedType(spec)|)
    ensures ParsedEnd(s, i + |PrintedType(spec)|, spec) == Parsed(spec, i + |PrintedType(spec)| + 1)
  {
    HereTwo(s, i, PrintedType(spec), "}");
    HereFirst(s, i, PrintedType(spec) + "}");
    HereFirst(s, i + |PrintedType(spec)|, "}");
  }

  function PrintedRest(spec: IntSpec): string {
    PrintedWidth(spec) + (PrintedType(spec) + "}")
  }

  function Unsized(spec: IntSpec): IntSpec {
    spec.(width := 0, typ := '\0')
  }

  lemma RestStart(spec: IntSpec)
    requires Printable(spec)
    ensures StartsPlainly(PrintedRest(spec)) && PrintedRest(spec)[0] !in "{\0"
    ensures PrintedRest(spec)[0] == '}' ==> |PrintedRest(spec)| == 1
  {
    if spec.width > 0 {
      NoLeadingZero(spec.width, 10, false);
    }
    var digits := PrintedWidth(spec);
    assert forall k | 0 <= k < |digits| :: IsDigit(digits[k]);
  }

  /** Text that can follow the flags: no flag, and nothing that looks like an
      alignment where the parser would look for one. */
  predicate StartsPlainly(rest: string) {
    && rest != ""
    && rest[0] !in "+- #<>=^" && rest[0] != '0'
    && (|rest| > 1 ==> AlignmentOf(rest[1]) == DefaultAlign)
  }

  function Unsigned(spec: IntSpec): IntSpec {
    spec.(signFlag := false, plusFlag := false, minusFlag := false)
  }

  lemma SignIsParsed(s: string, i: nat, spec: IntSpec, signed: bool, rest: string)
    requires (spec.plusFlag ==> spec.signFlag) && !(spec.minusFlag && spec.signFlag)
    requires (NeedsSigned(spec) ==> signed) && Here(s, i, PrintedSign(spec) + rest)
    requires rest != "" && rest[0] !in "+- "
    ensures ParsedSign(s, i, Unsigned(spec), signed) == Parsed(spec, i + |PrintedSign(spec)|)
    ensures Here(s, i + |PrintedSign(spec)|, rest)
  {
    HereTwo(s, i, PrintedSign(spec), rest);
    HereFirst(s, i, PrintedSign(spec) + rest);
  }

  lemma HashIsParsed(s: string, i: nat, spec: IntSpec, rest: string)
    requires Here(s, i, PrintedHash(spec) + rest)
    requires rest != "" && rest[0] != '#'
    ensures ParsedHash(s, i, spec.(hashFlag := false)) == Parsed(spec, i + |PrintedHash(spec)|)
    ensures Here(s, i + |PrintedHash(spec)|, rest)
  {
    HereTwo(s, i, PrintedHash(spec), rest);
    HereFirst(s, i, PrintedHash(spec) + rest);
  }

  function TailOf(spec: IntSpec, rest: string): string {
    PrintedSign(spec) + (PrintedHash(spec) + rest)
  }

  /** The sign and the hash are read, whatever follows that is neither. */
  lemma SignAndHash(s: string, i: nat, spec: IntSpec, signed: bool, rest: string)
    requires Printable(spec) && (NeedsSigned(spec) ==> signed)
    requires rest != "" && rest[0] !in "+- #" && Here(s, i, TailOf(spec, rest))
    ensures var hashless := Unsized(spec).(hashFlag := false);
            var at := i + |PrintedSign(spec)|;
            && ParsedSign(s, i, DEFAULT_SPEC.(fill := spec.fill, align := spec.align), signed) == Parsed(hashless, at)
            && ParsedHash(s, at, hashless) == Parsed(Unsized(spec), at + |PrintedHash(spec)|)
            && Here(s, at + |PrintedHash(spec)|, rest)
  {
    hide ParsedSign, ParsedHash;
    var sign, hash := PrintedSign(spec), PrintedHash(spec);
    var hashless := Unsized(spec).(hashFlag := false);
    assert PrintedSign(hashless) == sign && PrintedHash(Unsized(spec)) == hash;
    assert (hash + rest)[0] !in "+- ";
    assert Unsigned(hashless) == DEFAULT_SPEC.(fill := spec.fill, align := spec.align);
    SignIsParsed(s, i, hashless, signed, hash + rest);
    HashIsParsed(s, i + |sign|, Unsized(spec), rest);
  }

  lemma FlagsAreParsed(s: string, i: nat, spec: IntSpec, signed: bool, rest: string)
    requires Printable(spec) && (NeedsSigned(spec) ==> signed)
    requires StartsPlainly(rest) && Here(s, i, TailOf(spec, rest))
    ensures ParsedFlags(s, i, DEFAULT_SPEC.(fill := spec.fill, align := spec.align), signed) ==
            Parsed(Unsized(spec), i + |PrintedSign(spec)| + |PrintedHash(spec)|)
    ensures Here(s, i + |PrintedSign(spec)| + |PrintedHash(spec)|, rest)
  {
    hide ParsedFlags, ParsedSign, ParsedHash, PrintedSign, PrintedHash, Printable;
    var plain, hashless := DEFAULT_SPEC.(fill := spec.fill, align := spec.align), Unsized(spec).(hashFlag := false);
    var at := i + |PrintedSign(spec)|;
    SignAndHash(s, i, spec, signed, rest);
    HereFirst(s, at + |PrintedHash(spec)|, rest);
    FlagsCompose(s, i, plain, signed, hashless, at, Unsized(spec), at + |PrintedHash(spec)|);
  }

  lemma FlagsCompose(s: string, i: nat, plain: IntSpec, signed: bool, spec1: IntSpec, i1: nat, spec2: IntSpec, i2: nat)
    requires ParsedSign(s, i, plain, signed) == Parsed(spec1, i1)
    requires ParsedHash(s, i1, spec1) == Parsed(spec2, i2) && At(s, i2) != '0'
    ensures ParsedFlags(s, i, plain, signed) == Parsed(spec2, i2)
  {
  }

  function PrintedTail(spec: IntSpec): string {
    TailOf(spec, PrintedRest(spec))
  }

  /** Fill and alignment, unless all that follows is a closing brace. */
  lemma AlignIsParsed(s: string, i: nat, spec: IntSpec, rest: string)
    requires Printable(spec) && StartsPlainly(rest) && rest[0] != '\0'
    requires Here(s, i, PrintedAlign(spec) + TailOf(spec, rest))
    requires PrintedAlign(spec) == "" ==> |TailOf(spec, rest)| > 1
    ensures ParsedAlign(s, i) ==
            Parsed(DEFAULT_SPEC.(fill := spec.fill, align := spec.align), i + |PrintedAlign(spec)|)
  {
    HereFirst(s, i, PrintedAlign(spec) + TailOf(spec, rest));
  }

  lemma PrintedParts(spec: IntSpec)
    ensures Printed(spec) + "}" == PrintedAlign(spec) + PrintedTail(spec)
  {
    Reassociate(PrintedAlign(spec), PrintedSign(spec), PrintedHash(spec), PrintedWidth(spec), PrintedType(spec));
  }

  lemma Reassociate(a: string, b: string, c: string, d: string, e: string)
    ensures a + b + c + d + e + "}" == a + (b + (c + (d + (e + "}"))))
  {
  }

  lemma EmptyIsDefault(spec: IntSpec)
    requires Printable(spec)
    ensures Printed(spec) == "" <==> spec == DEFAULT_SPEC
    ensures Printed(spec) == "" <==> PrintedAlign(spec) == "" && PrintedTail(spec) == "}"
    ensures Printed(spec) != "" && PrintedAlign(spec) == "" ==> |PrintedTail(spec)| > 1
  {
    PrintedParts(spec);
  }

  /** The parser undoes the printer for every specification and whatever follows,
      but for one case: an empty specification whose closing brace is followed by an
      alignment character, which is then taken for the alignment. */
  lemma ParserUndoesPrinter(s: string, i: nat, spec: IntSpec, signed: bool)
    requires Printable(spec) && (NeedsSigned(spec) ==> signed)
    requires Here(s, i, Printed(spec) + "}")
    ensures ParsedSpec(s, i, signed) == Parsed(spec, i + |Printed(spec)| + 1)
            <==> Printed(spec) != "" || AlignmentOf(At(s, i + 1)) == DefaultAlign
    ensures Printed(spec) == "" ==>
            ParsedSpec(s, i, signed) == Parsed(spec.(align := AlignmentOf(At(s, i + 1))), i + 1)
  {
    hide ParsedAlign, ParsedFlags, ParsedRest, ParsedSpec, Printed, PrintedTail;
    PrintedParts(spec);
    EmptyIsDefault(spec);
    var align, tail := PrintedAlign(spec), PrintedTail(spec);
    HereTwo(s, i, align, tail);
    if Printed(spec) == "" {
      HereFirst(s, i, tail);
      var found := spec.(align := AlignmentOf(At(s, i + 1)));
      BraceIsParsed(s, i, found, signed);
      SpecCompose(s, i, signed, found, i, found, i);
    } else {
      RestStart(spec);
      TailIsTail(spec);
      AlignIsParsed(s, i, spec, PrintedRest(spec));
      var plain := DEFAULT_SPEC.(fill := spec.fill, align := spec.align);
      TailIsParsed(s, i + |align|, spec, signed);
      var flags := ParsedFlags(s, i + |align|, plain, signed);
      SpecCompose(s, i, signed, plain, i + |align|, flags.spec, flags.next);
      assert |Printed(spec)| + 1 == |align| + |tail|;
    }
  }

  lemma SpecCompose(s: string, i: nat, signed: bool, spec1: IntSpec, i1: nat, spec2: IntSpec, i2: nat)
    requires ParsedAlign(s, i) == Parsed(spec1, i1) && ParsedFlags(s, i1, spec1, signed) == Parsed(spec2, i2)
    ensures ParsedSpec(s, i, signed) == ParsedRest(s, i2, spec2)
  {
  }

  lemma BraceIsParsed(s: string, i: nat, spec: IntSpec, signed: bool)
    requires At(s, i) == '}'
    ensures ParsedAlign(s, i) == Parsed(DEFAULT_SPEC.(align := AlignmentOf(At(s, i + 1))), i)
    ensures ParsedFlags(s, i, spec, signed) == Parsed(spec, i)
    ensures ParsedRest(s, i, spec) == Parsed(spec, i + 1)
  {
  }

  lemma TailIsTail(spec: IntSpec)
    ensures PrintedTail(spec) == TailOf(spec, PrintedRest(spec))
  {
  }

  lemma TailIsParsed(s: string, i: nat, spec: IntSpec, signed: bool)
    requires Printable(spec) && (NeedsSigned(spec) ==> signed) && Here(s, i, PrintedTail(spec))
    ensures var plain := DEFAULT_SPEC.(fill := spec.fill, align := spec.align);
            && ParsedFlags(s, i, plain, signed).Parsed?
            && ParsedRest(s, ParsedFlags(s, i, plain, signed).next, ParsedFlags(s, i, plain, signed).spec) ==
               Parsed(spec, i + |PrintedTail(spec)|)
  {
    hide ParsedFlags, ParsedRest, PrintedRest, PrintedSign, PrintedHash;
    RestStart(spec);
    FlagsAreParsed(s, i, spec, signed, PrintedRest(spec));
    RestIsParsed(s, i + |PrintedSign(spec)| + |PrintedHash(spec)|, spec);
  }

  /** A width to be taken from an argument: the parser comes to its opening brace with
      everything before it read. */
  lemma NestedWidthIsReached(s: string, i: nat, spec: IntSpec, signed: bool, more: string)
    requires Printable(spec) && (NeedsSigned(spec) ==> signed)
    requires Here(s, i, PrintedAlign(spec) + TailOf(spec, "{" + more))
    requires more != "" && AlignmentOf(more[0]) == DefaultAlign
    ensures var before := |PrintedAlign(spec)| + |PrintedSign(spec)| + |PrintedHash(spec)|;
            && ParsedSpec(s, i, signed) == NestedWidth(Unsized(spec), i + before + 1)
            && Here(s, i + before + 1, more)
  {
    hide ParsedAlign, ParsedFlags, ParsedSpec, TailOf;
    var align, rest := PrintedAlign(spec), "{" + more;
    var plain := DEFAULT_SPEC.(fill := spec.fill, align := spec.align);
    TailIsLong(spec, more);
    AlignIsParsed(s, i, spec, rest);
    HereTwo(s, i, align, TailOf(spec, rest));
    FlagsAreParsed(s, i + |align|, spec, signed, rest);
    var at := i + |align| + |PrintedSign(spec)| + |PrintedHash(spec)|;
    HereTwo(s, at, "{", more);
    HereFirst(s, at, "{");
    SpecCompose(s, i, signed, plain, i + |align|, Unsized(spec), at);
  }

  lemma TailIsLong(spec: IntSpec, more: string)
    requires more != ""
    ensures |TailOf(spec, "{" + more)| > 1
  {
  }

  /** An instance of the look-ahead: in `{:}<` the character behind the brace is taken
      for the alignment. */
  lemma LookAheadPastTheBrace(signed: bool)
    ensures ParsedSpec("{:}<", 2, signed) == Parsed(DEFAULT_SPEC.(align := AlignLeft), 3)
  {
    var s := "{:}<";
    assert At(s, 2) == '}' && At(s, 3) == '<';
    BraceIsParsed(s, 2, DEFAULT_SPEC.(align := AlignLeft), signed);
    SpecCompose(s, 2, signed, DEFAULT_SPEC.(align := AlignLeft), 2, DEFAULT_SPEC.(align := AlignLeft), 2);
  }

  /** A sign is refused where the argument has none. */
  lemma SignIsRefused(s: string, i: nat, spec: IntSpec, rest: string)
    requires Printable(spec) && NeedsSigned(spec) && StartsPlainly(rest) && rest[0] != '\0'
    requires Here(s, i, PrintedAlign(spec) + TailOf(spec, rest))
    ensures ParsedSpec(s, i, false) == Malformed
  {
    hide ParsedAlign, ParsedFlags, PrintedAlign, Printable;
    AlignIsParsed(s, i, spec, rest);
    HereTwo(s, i, PrintedAlign(spec), TailOf(spec, rest));
    SignStops(s, i + |PrintedAlign(spec)|, spec, DEFAULT_SPEC.(fill := spec.fill, align := spec.align), rest);
  }

  lemma SignStops(s: string, i: nat, spec: IntSpec, plain: IntSpec, rest: string)
    requires NeedsSigned(spec) && Here(s, i, TailOf(spec, rest))
    ensures ParsedFlags(s, i, plain, false) == Malformed
  {
    hide ParsedHash, ParsedZero;
    HereFirst(s, i, TailOf(spec, rest));
  }

  // ----- other ways to write a specification

  /** No specification at all; an alignment without its fill; the zero flag. */
  datatype Form = Bare | Unfilled | ZeroFlag

  /** What stands behind the argument, up to the closing brace. */
  function PrintedShort(spec: IntSpec, form: Form): string {
    match form
    case Bare => "}"
    case Unfilled => ":" + ([AlignChar(spec.align)] + PrintedTail(spec))
    case ZeroFlag => ":" + (PrintedAlign(spec) + TailOf(spec, "0" + PrintedRest(spec)))
  }

  /** Bare is decimal without a width; a fill that is not given is a space; the zero
      flag is numeric alignment with zeros, whatever was said before it. */
  function Meant(spec: IntSpec, form: Form): IntSpec {
    match form
    case Bare => IntSpec(0, ' ', DefaultAlign, false, false, false, false, '\0')
    case Unfilled => spec.(fill := ' ')
    case ZeroFlag => spec.(fill := '0', align := AlignNumeric)
  }

  predicate PrintableAs(spec: IntSpec, form: Form) {
    Printable(spec) && (form.Unfilled? ==> spec.align != DefaultAlign)
  }

  lemma TailBegins(spec: IntSpec, rest: string)
    requires rest != "" && AlignmentOf(rest[0]) == DefaultAlign
    ensures TailOf(spec, rest) != "" && AlignmentOf(TailOf(spec, rest)[0]) == DefaultAlign
  {
  }

  lemma UnfilledAlign(s: string, i: nat, spec: IntSpec)
    requires Printable(spec) && spec.align != DefaultAlign
    requires Here(s, i, [AlignChar(spec.align)] + PrintedTail(spec))
    ensures ParsedAlign(s, i) == Parsed(DEFAULT_SPEC.(align := spec.align), i + 1)
    ensures Here(s, i + 1, PrintedTail(spec))
  {
    hide TailOf, PrintedRest, PrintedTail;
    RestStart(spec);
    TailIsTail(spec);
    TailBegins(spec, PrintedRest(spec));
    var t := [AlignChar(spec.align)] + PrintedTail(spec);
    HereFirst(s, i, t);
    assert PrintedTail(spec) != "" && t[1] == PrintedTail(spec)[0] && AlignmentOf(t[0]) == spec.align;
    HereTwo(s, i, [AlignChar(spec.align)], PrintedTail(spec));
  }

  lemma UnfilledIsParsed(s: string, i: nat, spec: IntSpec, signed: bool)
    requires PrintableAs(spec, Unfilled) && (NeedsSigned(spec) ==> signed)
    requires Here(s, i, [AlignChar(spec.align)] + PrintedTail(spec))
    ensures ParsedSpec(s, i, signed) == Parsed(spec.(fill := ' '), i + 1 + |PrintedTail(spec)|)
  {
    hide ParsedAlign, ParsedFlags, ParsedRest, ParsedSpec;
    UnfilledAlign(s, i, spec);
    var meant := spec.(fill := ' ');
    assert PrintedTail(meant) == PrintedTail(spec);
    TailIsParsed(s, i + 1, meant, signed);
    var plain := DEFAULT_SPEC.(align := spec.align);
    var flags := ParsedFlags(s, i + 1, plain, signed);
    SpecCompose(s, i, signed, plain, i + 1, flags.spec, flags.next);
  }

  lemma ZeroAlign(s: string, i: nat, spec: IntSpec)
    requires Printable(spec) && Here(s, i, PrintedAlign(spec) + TailOf(spec, "0" + PrintedRest(spec)))
    ensures ParsedAlign(s, i) == Parsed(DEFAULT_SPEC.(fill := spec.fill, align := spec.align), i + |PrintedAlign(spec)|)
    ensures Here(s, i + |PrintedAlign(spec)|, TailOf(spec, "0" + PrintedRest(spec)))
  {
    var align, tail := PrintedAlign(spec), TailOf(spec, "0" + PrintedRest(spec));
    ZeroTailBegins(spec);
    HereTwo(s, i, align, tail);
    HereFirst(s, i, align + tail);
  }

  lemma ZeroTailBegins(spec: IntSpec)
    requires Printable(spec)
    ensures var tail := TailOf(spec, "0" + PrintedRest(spec));
            |tail| > 1 && AlignmentOf(tail[0]) == DefaultAlign && AlignmentOf(tail[1]) == DefaultAlign && tail[0] !in "\0{}"
  {
    hide PrintedRest;
    RestStart(spec);
  }

  lemma ZeroFlags(s: string, i: nat, spec: IntSpec, signed: bool)
    requires Printable(spec) && (NeedsSigned(spec) ==> signed) && Here(s, i, TailOf(spec, "0" + PrintedRest(spec)))
    ensures var at := i + |PrintedSign(spec)| + |PrintedHash(spec)| + 1;
            && ParsedFlags(s, i, DEFAULT_SPEC.(fill := spec.fill, align := spec.align), signed) ==
               Parsed(Unsized(Meant(spec, ZeroFlag)), at)
            && Here(s, at, PrintedRest(spec))
  {
    hide ParsedFlags, ParsedSign, ParsedHash, ParsedZero, PrintedRest, PrintedSign, PrintedHash, Printable;
    var plain, hashless := DEFAULT_SPEC.(fill := spec.fill, align := spec.align), Unsized(spec).(hashFlag := false);
    var at := i + |PrintedSign(spec)|;
    SignAndHash(s, i, spec, signed, "0" + PrintedRest(spec));
    ZeroIsParsed(s, at + |PrintedHash(spec)|, Unsized(spec), PrintedRest(spec));
    ZeroFlagsCompose(s, i, plain, signed, hashless, at, Unsized(spec), at + |PrintedHash(spec)|, Unsized(Meant(spec, ZeroFlag)));
  }

  lemma ZeroIsParsed(s: string, i: nat, spec: IntSpec, rest: string)
    requires Here(s, i, "0" + rest)
    ensures ParsedZero(s, i, spec) == Parsed(spec.(fill := '0', align := AlignNumeric), i + 1)
    ensures Here(s, i + 1, rest)
  {
    HereFirst(s, i, "0" + rest);
    HereTwo(s, i, "0", rest);
  }

  lemma ZeroFlagsCompose(s: string, i: nat, plain: IntSpec, signed: bool, spec1: IntSpec, i1: nat,
                         spec2: IntSpec, i2: nat, spec3: IntSpec)
    requires ParsedSign(s, i, plain, signed) == Parsed(spec1, i1)
    requires ParsedHash(s, i1, spec1) == Parsed(spec2, i2) && ParsedZero(s, i2, spec2) == Parsed(spec3, i2 + 1)
    ensures ParsedFlags(s, i, plain, signed) == Parsed(spec3, i2 + 1)
  {
    hide ParsedSign, ParsedHash, ParsedZero;
  }

  lemma ZeroFlagIsParsed(s: string, i: nat, spec: IntSpec, signed: bool)
    requires Printable(spec) && (NeedsSigned(spec) ==> signed)
    requires Here(s, i, PrintedAlign(spec) + TailOf(spec, "0" + PrintedRest(spec)))
    ensures ParsedSpec(s, i, signed) ==
            Parsed(Meant(spec, ZeroFlag), i + |PrintedAlign(spec)| + |TailOf(spec, "0" + PrintedRest(spec))|)
  {
    hide ParsedAlign, ParsedFlags, ParsedRest, ParsedSpec, PrintedRest;
    var meant, plain := Meant(spec, ZeroFlag), DEFAULT_SPEC.(fill := spec.fill, align := spec.align);
    ZeroAlign(s, i, spec);
    var at := i + |PrintedAlign(spec)|;
    ZeroFlags(s, at, spec, signed);
    var behind := at + |PrintedSign(spec)| + |PrintedHash(spec)| + 1;
    SameRest(spec, meant);
    RestIsParsed(s, behind, meant);
    SpecCompose(s, i, signed, plain, at, Unsized(meant), behind);
  }

  lemma SameRest(spec: IntSpec, other: IntSpec)
    requires spec.width == other.width && spec.typ == other.typ
    ensures PrintedRest(spec) == PrintedRest(other)
  {
  }

  /** Each of these is read as what it means. */
  lemma ShortIsParsed(s: string, i: nat, spec: IntSpec, form: Form, signed: bool)
    requires PrintableAs(spec, form) && (NeedsSigned(Meant(spec, form)) ==> signed)
    requires Here(s, i, PrintedShort(spec, form))
    ensures ParsedField(s, i, signed) == Parsed(Meant(spec, form), i + |PrintedShort(spec, form)|)
  {
    hide ParsedSpec, PrintedTail, TailOf, PrintedRest;
    match form
    case Bare => HereFirst(s, i, "}");
    case Unfilled =>
      HereTwo(s, i, ":", [AlignChar(spec.align)] + PrintedTail(spec));
      HereFirst(s, i, ":");
      UnfilledIsParsed(s, i + 1, spec, signed);
    case ZeroFlag =>
      HereTwo(s, i, ":", PrintedAlign(spec) + TailOf(spec, "0" + PrintedRest(spec)));
      HereFirst(s, i, ":");
      ZeroFlagIsParsed(s, i + 1, spec, signed);
  }

  lemma UnfilledSign(s: string, i: nat, spec: IntSpec)
    requires PrintableAs(spec, Unfilled) && NeedsSigned(spec) && Here(s, i, [AlignChar(spec.align)] + PrintedTail(spec))
    ensures ParsedSpec(s, i, false) == Malformed
  {
    hide ParsedAlign, ParsedFlags, PrintedTail, TailOf, Here, Printable;
    UnfilledAlign(s, i, spec);
    TailIsTail(spec);
    SignStops(s, i + 1, spec, DEFAULT_SPEC.(align := spec.align), PrintedRest(spec));
  }

  lemma ZeroFlagSign(s: string, i: nat, spec: IntSpec)
    requires Printable(spec) && NeedsSigned(spec)
    requires Here(s, i, PrintedAlign(spec) + TailOf(spec, "0" + PrintedRest(spec)))
    ensures ParsedSpec(s, i, false) == Malformed
  {
    hide ParsedAlign, ParsedFlags, PrintedAlign, TailOf, PrintedRest, Here, Printable;
    ZeroAlign(s, i, spec);
    var plain := DEFAULT_SPEC.(fill := spec.fill, align := spec.align);
    SignStops(s, i + |PrintedAlign(spec)|, spec, plain, "0" + PrintedRest(spec));
  }

  /** A sign in them is refused where the argument has none. */
  lemma ShortSignIsRefused(s: string, i: nat, spec: IntSpec, form: Form)
    requires PrintableAs(spec, form) && NeedsSigned(Meant(spec, form)) && Here(s, i, PrintedShort(spec, form))
    ensures ParsedField(s, i, false) == Malformed
  {
    hide ParsedSpec, PrintedTail, TailOf, PrintedRest, PrintedAlign;
    if form.Unfilled? {
      HereTwo(s, i, ":", [AlignChar(spec.align)] + PrintedTail(spec));
      HereFirst(s, i, ":");
      UnfilledSign(s, i + 1, spec);
    } else {
      HereTwo(s, i, ":", PrintedAlign(spec) + TailOf(spec, "0" + PrintedRest(spec)));
      HereFirst(s, i, ":");
      ZeroFlagSign(s, i + 1, spec);
    }
  }
}
