/** What a whole format string produces for integer arguments, and the printer of
    format strings it undoes. */
module FormatText {
  import opened FormatSpec
  import opened IntegerText
  import opened Numerals
  import opened Options
  import opened SpecParser

  /** An integer argument; its name is empty unless it was given one. */
  datatype Arg = Arg(value: int, bits: nat, signed: bool, name: string)

  /** Formatted: the whole string; Failed: an error is thrown. */
  datatype Outcome = Formatted | Failed

  datatype Result = Result(text: string, outcome: Outcome)

  // ----- which argument

  datatype Choice = Choice(arg: nat, nextIndex: int, next: nat) | BadArgument

  predicate IsNameStart(c: char) {
    'a' <= c <= 'z' || 'A' <= c <= 'Z' || c == '_'
  }

  predicate IsNameChar(c: char) {
    IsNameStart(c) || IsDigit(c)
  }

  function NameEnd(s: string, i: nat): (end: nat)
    ensures i <= end && (i <= |s| ==> end <= |s|)
    ensures forall k | i <= k < end :: IsNameChar(At(s, k))
    ensures !IsNameChar(At(s, end))
    decreases |s| - i
  {
    if IsNameChar(At(s, i)) then NameEnd(s, i + 1) else i
  }

  /** The first argument of that name; |args| if there is none. */
  function ArgNamed(name: string, args: seq<Arg>): (k: nat)
    ensures k <= |args| && (k < |args| ==> args[k].name == name)
    ensures forall j | 0 <= j < k :: args[j].name != name
    decreases |args|
  {
    if args == [] || args[0].name == name then 0 else 1 + ArgNamed(name, args[1..])
  }

  /** A reference in a format string: the next argument, one by its index, one by its
      name. Automatic numbering counts from 0; any other reference turns it off for
      good, as -1, and cannot follow it. */
  datatype Ref = Next | Index(k: nat) | Named(name: string)

  function Taken(ref: Ref, nextIndex: int, args: seq<Arg>): (r: Option<(nat, int)>)
    ensures r.Some? ==> r.value.0 < |args|
  {
    match ref
    case Next => if 0 <= nextIndex < |args| then Some((nextIndex, nextIndex + 1)) else None
    case Index(k) => if nextIndex <= 0 && k < |args| then Some((k, -1)) else None
    case Named(name) =>
      var k := ArgNamed(name, args);
      if nextIndex <= 0 && k < |args| then Some((k, -1)) else None
  }

  function ChoiceOf(taken: Option<(nat, int)>, next: nat): Choice {
    match taken
    case None => BadArgument
    case Some((k, nextIndex)) => Choice(k, nextIndex, next)
  }

  /** The argument the reference at i means. */
  function Chosen(s: string, i: nat, nextIndex: int, args: seq<Arg>): (r: Choice)
    requires i <= |s|
    ensures r.Choice? ==> r.arg < |args| && i <= r.next <= |s|
  {
    if IsNameStart(At(s, i)) then
      var end := NameEnd(s, i + 1);
      ChoiceOf(Taken(Named(s[i..end]), nextIndex, args), end)
    else if !IsDigit(At(s, i)) then ChoiceOf(Taken(Next, nextIndex, args), i)
    else
      match ParsedInt(s, i)
      case None => BadArgument
      case Some((k, next)) => ChoiceOf(Taken(Index(k), nextIndex, args), next)
  }

  // ----- a field, its width perhaps taken from an argument

  datatype Resolved = Resolved(spec: IntSpec, next: nat, nextIndex: int) | Unresolved

  predicate IsWidth(value: int) {
    0 <= value <= FormatSpec.INT_MAX
  }

  function ResolvedField(s: string, i: nat, signed: bool, nextIndex: int, args: seq<Arg>): (r: Resolved)
    ensures r.Resolved? ==> i < r.next <= |s|
  {
    FieldEndsInside(s, i, signed);
    match ParsedField(s, i, signed)
    case Malformed => Unresolved
    case Parsed(spec, next) => Resolved(spec, next, nextIndex)
    case NestedWidth(spec, at) => ResolvedWidth(s, at, spec, nextIndex, args)
  }

  function ResolvedWidth(s: string, i: nat, spec: IntSpec, nextIndex: int, args: seq<Arg>): (r: Resolved)
    requires i <= |s|
    ensures r.Resolved? ==> i < r.next <= |s|
  {
    match Chosen(s, i, nextIndex, args)
    case BadArgument => Unresolved
    case Choice(k, nextIndex', j) =>
      if At(s, j) != '}' || !IsWidth(args[k].value) then Unresolved
      else
        TypeEndsInside(s, j + 1, spec.(width := args[k].value));
        match ParsedTypeAndEnd(s, j + 1, spec.(width := args[k].value))
        case Parsed(spec', next) => Resolved(spec', next, nextIndex')
        case _ => Unresolved
  }

  // ----- the whole string

  function Prepend(text: string, r: Result): Result {
    Result(text + r.text, r.outcome)
  }

  /** The text written from i on, the literal text from `start` still pending. */
  function Expand(s: string, start: nat, i: nat, nextIndex: int, args: seq<Arg>, sep: string): Result
    requires start <= i <= |s|
    decreases |s| - i
  {
    var c := At(s, i);
    if c == '\0' then Result(s[start..i], Formatted)
    else if c != '{' && c != '}' then Expand(s, start, i + 1, nextIndex, args, sep)
    else if At(s, i + 1) == c then Prepend(s[start..i + 1], Expand(s, i + 2, i + 2, nextIndex, args, sep))
    else if c == '}' then Result("", Failed)
    else Prepend(s[start..i], ExpandField(s, i + 1, nextIndex, args, sep))
  }

  function ExpandField(s: string, i: nat, nextIndex: int, args: seq<Arg>, sep: string): Result
    requires i <= |s|
    decreases |s| - i
  {
    match Chosen(s, i, nextIndex, args)
    case BadArgument => Result("", Failed)
    case Choice(k, nextIndex', j) =>
      match ResolvedField(s, j, args[k].signed, nextIndex', args)
      case Unresolved => Result("", Failed)
      case Resolved(spec, next, nextIndex'') =>
        if !IsIntegerType(spec.typ) then Result("", Failed)
        else Prepend(IntField(args[k].value, spec, sep), Expand(s, next, next, nextIndex'', args, sep))
  }

  // ----- printing format strings

  function Doubled(t: string): string {
    if t == "" then ""
    else (if t[0] == '{' || t[0] == '}' then [t[0], t[0]] else [t[0]]) + Doubled(t[1..])
  }

  /** Literal text; an argument with its specification, the width given there or taken
      from another argument; or an argument with a specification in one of the shorter
      forms. */
  datatype Piece =
    | Text(t: string)
    | Place(ref: Ref, spec: IntSpec, width: Option<Ref>)
    | Short(ref: Ref, spec: IntSpec, form: Form)

  function PrintedRef(ref: Ref): string {
    match ref
    case Next => ""
    case Index(k) => Decimal(k)
    case Named(name) => name
  }

  function WidthAndEnd(spec: IntSpec, width: Ref): string {
    PrintedRef(width) + ("}" + (PrintedType(spec) + "}"))
  }

  function PrintedBody(spec: IntSpec, width: Option<Ref>): string {
    match width
    case None => Printed(spec) + "}"
    case Some(ref) => PrintedAlign(spec) + TailOf(spec, "{" + WidthAndEnd(spec, ref))
  }

  function PrintedPiece(p: Piece): string {
    match p
    case Text(t) => Doubled(t)
    case Place(ref, spec, width) => "{" + (PrintedRef(ref) + (":" + PrintedBody(spec, width)))
    case Short(ref, spec, form) => "{" + (PrintedRef(ref) + PrintedShort(spec, form))
  }

  function PrintedPieces(ps: seq<Piece>): string {
    if ps == [] then "" else PrintedPiece(ps[0]) + PrintedPieces(ps[1..])
  }

  predicate ProperRef(ref: Ref) {
    match ref
    case Next => true
    case Index(k) => k <= FormatSpec.INT_MAX
    case Named(name) => name != "" && IsNameStart(name[0]) && forall i | 0 <= i < |name| :: IsNameChar(name[i])
  }

  predicate Proper(p: Piece) {
    match p
    case Text(t) => '\0' !in t
    case Place(ref, spec, width) => ProperRef(ref) && Printable(spec) && (width.Some? ==> ProperRef(width.value))
    case Short(ref, spec, form) => ProperRef(ref) && PrintableAs(spec, form)
  }

  // ----- what the pieces stand for

  function SpecTaken(spec: IntSpec, width: Option<Ref>, nextIndex: int, args: seq<Arg>): Option<(IntSpec, int)> {
    match width
    case None => Some((spec, nextIndex))
    case Some(ref) =>
      match Taken(ref, nextIndex, args)
      case None => None
      case Some((k, nextIndex')) =>
        if IsWidth(args[k].value) then Some((spec.(width := args[k].value), nextIndex')) else None
  }

  /** The text of a piece and the numbering after it; None if an argument is missing,
      a sign is asked of an unsigned one or a width is out of range. */
  function PieceText(p: Piece, nextIndex: int, args: seq<Arg>, sep: string): Option<(string, int)> {
    match p
    case Text(t) => Some((t, nextIndex))
    case Short(ref, spec, form) =>
      (match Taken(ref, nextIndex, args)
       case None => None
       case Some((k, nextIndex')) =>
         if NeedsSigned(Meant(spec, form)) && !args[k].signed then None
         else Some((IntField(args[k].value, Meant(spec, form), sep), nextIndex')))
    case Place(ref, spec, width) =>
      match Taken(ref, nextIndex, args)
      case None => None
      case Some((k, nextIndex')) =>
        if NeedsSigned(spec) && !args[k].signed then None
        else
          match SpecTaken(spec, width, nextIndex', args)
          case None => None
          case Some((spec', nextIndex'')) => Some((IntField(args[k].value, spec', sep), nextIndex''))
  }

  function Rendered(ps: seq<Piece>, nextIndex: int, args: seq<Arg>, sep: string): Option<string> {
    if ps == [] then Some("")
    else
      match PieceText(ps[0], nextIndex, args, sep)
      case None => None
      case Some((text, nextIndex')) =>
        match Rendered(ps[1..], nextIndex', args, sep)
        case None => None
        case Some(more) => Some(text + more)
  }

  /** Pending literal text is written in front of whatever follows. */
  lemma {:induction false} PendingText(s: string, start: nat, mid: nat, i: nat, nextIndex: int,
                                       args: seq<Arg>, sep: string)
    requires start <= mid <= i <= |s| && Expand(s, mid, i, nextIndex, args, sep).outcome == Formatted
    ensures Expand(s, start, i, nextIndex, args, sep) == Prepend(s[start..mid], Expand(s, mid, i, nextIndex, args, sep))
    decreases |s| - i
  {
    var c := At(s, i);
    SplitSlice(s, start, mid, i);
    if c != '\0' && c != '{' && c != '}' {
      PendingText(s, start, mid, i + 1, nextIndex, args, sep);
    } else if c != '\0' && At(s, i + 1) == c {
      SplitSlice(s, start, mid, i + 1);
      PrependTwice(s[start..mid], s[mid..i + 1], Expand(s, i + 2, i + 2, nextIndex, args, sep));
    } else if c == '{' {
      PrependTwice(s[start..mid], s[mid..i], ExpandField(s, i + 1, nextIndex, args, sep));
    }
  }

  lemma SplitSlice(s: string, start: nat, mid: nat, i: nat)
    requires start <= mid <= i <= |s|
    ensures s[start..i] == s[start..mid] + s[mid..i]
  {
  }

  lemma PrependTwice(t: string, u: string, r: Result)
    ensures Prepend(t + u, r) == Prepend(t, Prepend(u, r))
  {
  }

  /** Doubled braces come out as written, before whatever follows. */
  lemma {:induction false} TextIsExpanded(s: string, i: nat, t: string, nextIndex: int, args: seq<Arg>, sep: string)
    requires '\0' !in t && Here(s, i, Doubled(t))
    requires Expand(s, i + |Doubled(t)|, i + |Doubled(t)|, nextIndex, args, sep).outcome == Formatted
    ensures i + |Doubled(t)| <= |s|
    ensures Expand(s, i, i, nextIndex, args, sep) ==
            Prepend(t, Expand(s, i + |Doubled(t)|, i + |Doubled(t)|, nextIndex, args, sep))
    decreases t
  {
    if t == "" {
      assert Doubled(t) == "";
    } else {
      var first := if t[0] == '{' || t[0] == '}' then [t[0], t[0]] else [t[0]];
      HereTwo(s, i, first, Doubled(t[1..]));
      HereFirst(s, i, first);
      assert '\0' !in t[1..];
      TextIsExpanded(s, i + |first|, t[1..], nextIndex, args, sep);
      if |first| == 1 {
        PendingFirst(s, i, nextIndex, args, sep);
      }
      assert s[i..i + 1] == [t[0]];
      assert t == [t[0]] + t[1..];
      PrependTwice([t[0]], t[1..], Expand(s, i + |Doubled(t)|, i + |Doubled(t)|, nextIndex, args, sep));
    }
  }

  lemma PendingFirst(s: string, i: nat, nextIndex: int, args: seq<Arg>, sep: string)
    requires i < |s| && At(s, i) !in "\0{}" && Expand(s, i + 1, i + 1, nextIndex, args, sep).outcome == Formatted
    ensures Expand(s, i, i, nextIndex, args, sep) ==
            Prepend(s[i..i + 1], Expand(s, i + 1, i + 1, nextIndex, args, sep))
  {
    PendingText(s, i, i + 1, i + 1, nextIndex, args, sep);
  }

  /** Without a width there is nothing to align. */
  lemma AlignmentNeedsWidth(value: int, spec: IntSpec, align: Alignment, sep: string)
    requires spec.width == 0
    ensures IntField(value, spec.(align := align), sep) == IntField(value, spec, sep)
  {
    var spec' := spec.(align := align);
    var prefix, digits := Prefix(value, spec), Digits(value, spec, sep);
    assert Prefix(value, spec') == prefix && Digits(value, spec', sep) == digits;
    Unpadded(prefix, digits, spec);
    Unpadded(prefix, digits, spec');
  }

  // ----- references

  lemma {:induction false} RunOfNameChars(s: string, i: nat, end: nat)
    requires i <= end <= |s| && (forall k | i <= k < end :: IsNameChar(s[k])) && !IsNameChar(At(s, end))
    ensures NameEnd(s, i) == end
    decreases end - i
  {
    if i < end {
      RunOfNameChars(s, i + 1, end);
    }
  }

  /** A printed reference is read back as the argument it stands for. */
  lemma RefIsChosen(s: string, i: nat, ref: Ref, nextIndex: int, args: seq<Arg>, rest: string)
    requires ProperRef(ref) && Here(s, i, PrintedRef(ref) + rest) && rest != "" && rest[0] in ":}"
    ensures Chosen(s, i, nextIndex, args) == ChoiceOf(Taken(ref, nextIndex, args), i + |PrintedRef(ref)|)
    ensures Here(s, i + |PrintedRef(ref)|, rest)
  {
    hide Taken;
    var text := PrintedRef(ref);
    HereTwo(s, i, text, rest);
    HereFirst(s, i + |text|, rest);
    match ref
    case Next =>
    case Index(k) =>
      HereFirst(s, i, text);
      PrintedIntIsParsed(s, i, k);
    case Named(name) =>
      HereFirst(s, i, text);
      forall k | i <= k < i + |name|
        ensures IsNameChar(s[k])
      {
        assert s[k] == s[i..i + |name|][k - i];
      }
      RunOfNameChars(s, i + 1, i + |name|);
  }

  // ----- fields

  /** A specification with its width in place: the parsed one is the printed one, or
      writes the same. */
  lemma PlainFieldIsResolved(s: string, i: nat, spec: IntSpec, value: int, signed: bool, nextIndex: int,
                             args: seq<Arg>, sep: string)
    requires Printable(spec) && (NeedsSigned(spec) ==> signed)
    requires Here(s, i, ":" + (Printed(spec) + "}"))
    ensures var r := ResolvedField(s, i, signed, nextIndex, args);
            && r.Resolved? && r.next == i + |Printed(spec)| + 2 && r.nextIndex == nextIndex
            && r.spec.typ == spec.typ
            && IntField(value, r.spec, sep) == IntField(value, spec, sep)
  {
    HereTwo(s, i, ":", Printed(spec) + "}");
    HereFirst(s, i, ":");
    ParserUndoesPrinter(s, i + 1, spec, signed);
    EmptyIsDefault(spec);
    AlignmentNeedsWidth(value, DEFAULT_SPEC, AlignmentOf(At(s, i + 2)), sep);
  }

  /** A width from an argument: the specification has the argument's value, if that is
      a width. */
  lemma SizedFieldIsResolved(s: string, i: nat, spec: IntSpec, width: Ref, signed: bool, nextIndex: int, args: seq<Arg>)
    requires Printable(spec) && (NeedsSigned(spec) ==> signed) && ProperRef(width)
    requires Here(s, i, ":" + PrintedBody(spec, Some(width)))
    ensures ResolvedField(s, i, signed, nextIndex, args) ==
            match SpecTaken(spec, Some(width), nextIndex, args)
            case None => Unresolved
            case Some((spec', nextIndex')) => Resolved(spec', i + 1 + |PrintedBody(spec, Some(width))|, nextIndex')
  {
    hide ParsedSpec, ResolvedWidth, SpecTaken, TailOf, WidthAndEnd;
    var more := WidthAndEnd(spec, width);
    HereTwo(s, i, ":", PrintedBody(spec, Some(width)));
    HereFirst(s, i, ":");
    MoreStarts(spec, width);
    NestedWidthIsReached(s, i + 1, spec, signed, more);
    BodyLength(spec, width);
    WidthIsResolved(s, i + 1 + |PrintedBody(spec, Some(width))| - |more|, spec, width, nextIndex, args);
  }

  lemma WidthIsResolved(s: string, at: nat, spec: IntSpec, width: Ref, nextIndex: int, args: seq<Arg>)
    requires Printable(spec) && ProperRef(width) && Here(s, at, WidthAndEnd(spec, width))
    ensures ResolvedWidth(s, at, Unsized(spec), nextIndex, args) ==
            match SpecTaken(spec, Some(width), nextIndex, args)
            case None => Unresolved
            case Some((spec', nextIndex')) => Resolved(spec', at + |WidthAndEnd(spec, width)|, nextIndex')
  {
    hide Chosen, Taken, ParsedTypeAndEnd, PrintedRef, PrintedType;
    var j := at + |PrintedRef(width)|;
    RefIsChosen(s, at, width, nextIndex, args, "}" + (PrintedType(spec) + "}"));
    HereTwo(s, j, "}", PrintedType(spec) + "}");
    HereFirst(s, j, "}");
    var taken := Taken(width, nextIndex, args);
    if taken.Some? && IsWidth(args[taken.value.0].value) {
      TypeAndEndAreParsed(s, j + 1, spec, args[taken.value.0].value);
    }
  }

  lemma MoreStarts(spec: IntSpec, width: Ref)
    requires ProperRef(width)
    ensures var more := WidthAndEnd(spec, width); more != "" && AlignmentOf(more[0]) == DefaultAlign
  {
    assert width.Index? ==> IsDigit(PrintedRef(width)[0]);
  }

  lemma BodyLength(spec: IntSpec, width: Ref)
    ensures |PrintedBody(spec, Some(width))| ==
            |PrintedAlign(spec)| + |PrintedSign(spec)| + |PrintedHash(spec)| + 1 + |WidthAndEnd(spec, width)|
  {
  }

  lemma TypeAndEndAreParsed(s: string, i: nat, spec: IntSpec, width: nat)
    requires IsIntegerType(spec.typ) && Here(s, i, PrintedType(spec) + "}")
    ensures ParsedTypeAndEnd(s, i, Unsized(spec).(width := width)) ==
            Parsed(spec.(width := width), i + |PrintedType(spec)| + 1)
  {
    TypeIsParsed(s, i, spec.(width := width));
  }

  /** A sign asked of an unsigned argument is refused. */
  lemma UnsignedIsRefused(s: string, i: nat, spec: IntSpec, width: Option<Ref>, nextIndex: int, args: seq<Arg>)
    requires Printable(spec) && NeedsSigned(spec) && (width.Some? ==> ProperRef(width.value))
    requires Here(s, i, ":" + PrintedBody(spec, width))
    ensures ResolvedField(s, i, false, nextIndex, args) == Unresolved
  {
    HereTwo(s, i, ":", PrintedBody(spec, width));
    HereFirst(s, i, ":");
    BodyIsAlignAndTail(spec, width);
    var rest := if width.None? then PrintedRest(spec) else "{" + WidthAndEnd(spec, width.value);
    SignIsRefused(s, i + 1, spec, rest);
  }

  lemma BodyIsAlignAndTail(spec: IntSpec, width: Option<Ref>)
    requires Printable(spec) && (width.Some? ==> ProperRef(width.value))
    ensures var rest := if width.None? then PrintedRest(spec) else "{" + WidthAndEnd(spec, width.value);
            PrintedBody(spec, width) == PrintedAlign(spec) + TailOf(spec, rest) && StartsPlainly(rest) && rest[0] != '\0'
  {
    hide TailOf, PrintedRest, Printed;
    if width.None? {
      PrintedParts(spec);
      TailIsTail(spec);
      RestStart(spec);
    } else {
      MoreStarts(spec, width.value);
    }
  }

  // ----- pieces

  lemma FieldIsReached(s: string, i: nat, nextIndex: int, args: seq<Arg>, sep: string, more: string)
    requires Here(s, i, "{" + more) && more != "" && more[0] != '{'
    ensures i + 1 <= |s| && Expand(s, i, i, nextIndex, args, sep) == ExpandField(s, i + 1, nextIndex, args, sep)
    ensures Here(s, i + 1, more)
  {
    HereFirst(s, i, "{" + more);
    HereTwo(s, i, "{", more);
    NothingPending(s[i..i], ExpandField(s, i + 1, nextIndex, args, sep));
  }

  lemma NothingPending(t: string, r: Result)
    requires t == ""
    ensures Prepend(t, r) == r
  {
  }

  lemma FieldStep(s: string, i: nat, nextIndex: int, args: seq<Arg>, sep: string,
                  k: nat, nextIndex': int, j: nat, r: Resolved)
    requires i <= |s| && Chosen(s, i, nextIndex, args) == Choice(k, nextIndex', j) && k < |args|
    requires r == ResolvedField(s, j, args[k].signed, nextIndex', args)
    requires r.Resolved? ==> IsIntegerType(r.spec.typ)
    ensures ExpandField(s, i, nextIndex, args, sep) ==
            match r
            case Unresolved => Result("", Failed)
            case Resolved(spec, next, nextIndex'') =>
              Prepend(IntField(args[k].value, spec, sep), Expand(s, next, next, nextIndex'', args, sep))
  {
  }

  /** Behind the opening brace the argument is chosen; without one the field fails. */
  lemma RefIsReached(s: string, i: nat, ref: Ref, rest: string, nextIndex: int, args: seq<Arg>, sep: string)
    requires ProperRef(ref) && rest != "" && rest[0] in ":}" && Here(s, i, "{" + (PrintedRef(ref) + rest))
    ensures var j := i + 1 + |PrintedRef(ref)|;
            && j + |rest| <= |s| && Here(s, j, rest)
            && Expand(s, i, i, nextIndex, args, sep) == ExpandField(s, i + 1, nextIndex, args, sep)
            && Chosen(s, i + 1, nextIndex, args) == ChoiceOf(Taken(ref, nextIndex, args), j)
            && (Taken(ref, nextIndex, args).None? ==> Expand(s, i, i, nextIndex, args, sep) == Result("", Failed))
  {
    hide Expand, ExpandField, Chosen, Taken, PrintedRef;
    RefStart(ref, rest);
    FieldIsReached(s, i, nextIndex, args, sep, PrintedRef(ref) + rest);
    RefIsChosen(s, i + 1, ref, nextIndex, args, rest);
    if Taken(ref, nextIndex, args).None? {
      BadRefFails(s, i + 1, nextIndex, args, sep);
    }
  }

  /** A printed field is replaced by the argument it takes, even where an empty
      specification picks up an alignment from the text behind it, or it fails. */
  lemma FieldIsExpanded(s: string, i: nat, ref: Ref, spec: IntSpec, width: Option<Ref>, nextIndex: int,
                        args: seq<Arg>, sep: string)
    requires Proper(Place(ref, spec, width)) && Here(s, i, PrintedPiece(Place(ref, spec, width)))
    ensures var next := i + |PrintedPiece(Place(ref, spec, width))|;
            && next <= |s|
            && Expand(s, i, i, nextIndex, args, sep) ==
               match PieceText(Place(ref, spec, width), nextIndex, args, sep)
               case None => Result("", Failed)
               case Some((text, nextIndex')) => Prepend(text, Expand(s, next, next, nextIndex', args, sep))
  {
    hide Expand, ExpandField, Chosen, ResolvedField, Taken, SpecTaken, IntField, PrintedBody, PieceText, PrintedRef, Printable, Here;
    PlaceText(ref, spec, width, nextIndex, args, sep);
    RefIsReached(s, i, ref, ":" + PrintedBody(spec, width), nextIndex, args, sep);
    var j := i + 1 + |PrintedRef(ref)|;
    var taken := Taken(ref, nextIndex, args);
    if taken.Some? {
      var k, nextIndex' := taken.value.0, taken.value.1;
      var r := BodyIsResolved(s, j, spec, width, k, nextIndex', args, sep);
      FieldStep(s, i + 1, nextIndex, args, sep, k, nextIndex', j, r);
    }
  }

  /** The same for the shorter forms. */
  lemma ShortIsExpanded(s: string, i: nat, ref: Ref, spec: IntSpec, form: Form, nextIndex: int, args: seq<Arg>, sep: string)
    requires Proper(Short(ref, spec, form)) && Here(s, i, PrintedPiece(Short(ref, spec, form)))
    ensures var next := i + |PrintedPiece(Short(ref, spec, form))|;
            && next <= |s|
            && Expand(s, i, i, nextIndex, args, sep) ==
               match PieceText(Short(ref, spec, form), nextIndex, args, sep)
               case None => Result("", Failed)
               case Some((text, nextIndex')) => Prepend(text, Expand(s, next, next, nextIndex', args, sep))
  {
    hide Expand, ExpandField, Chosen, ResolvedField, Taken, IntField, PrintedShort, PrintedRef, Meant, Printable, Here;
    ShortStart(spec, form);
    RefIsReached(s, i, ref, PrintedShort(spec, form), nextIndex, args, sep);
    var j := i + 1 + |PrintedRef(ref)|;
    var taken := Taken(ref, nextIndex, args);
    if taken.Some? {
      var k, nextIndex' := taken.value.0, taken.value.1;
      var r := ShortIsResolved(s, j, spec, form, args[k].signed, nextIndex', args);
      FieldStep(s, i + 1, nextIndex, args, sep, k, nextIndex', j, r);
    }
  }

  lemma ShortStart(spec: IntSpec, form: Form)
    ensures PrintedShort(spec, form) != "" && PrintedShort(spec, form)[0] in ":}"
    ensures Printable(spec) ==> IsIntegerType(Meant(spec, form).typ)
  {
  }

  lemma ShortIsResolved(s: string, j: nat, spec: IntSpec, form: Form, signed: bool, nextIndex: int, args: seq<Arg>)
    returns (r: Resolved)
    requires PrintableAs(spec, form) && Here(s, j, PrintedShort(spec, form))
    ensures r == ResolvedField(s, j, signed, nextIndex, args)
    ensures r == if NeedsSigned(Meant(spec, form)) && !signed then Unresolved
                 else Resolved(Meant(spec, form), j + |PrintedShort(spec, form)|, nextIndex)
  {
    hide ParsedField, PrintedShort, Meant;
    r := ResolvedField(s, j, signed, nextIndex, args);
    if NeedsSigned(Meant(spec, form)) && !signed {
      ShortSignIsRefused(s, j, spec, form);
    } else {
      ShortIsParsed(s, j, spec, form, signed);
    }
  }

  lemma RefStart(ref: Ref, more: string)
    requires ProperRef(ref) && more != "" && more[0] in ":}"
    ensures (PrintedRef(ref) + more)[0] != '{'
  {
  }

  lemma PlaceText(ref: Ref, spec: IntSpec, width: Option<Ref>, nextIndex: int, args: seq<Arg>, sep: string)
    ensures PieceText(Place(ref, spec, width), nextIndex, args, sep) ==
            match Taken(ref, nextIndex, args)
            case None => None
            case Some((k, nextIndex')) =>
              var taken := SpecTaken(spec, width, nextIndex', args);
              if (NeedsSigned(spec) && !args[k].signed) || taken.None? then None
              else Some((IntField(args[k].value, taken.value.0, sep), taken.value.1))
  {
    hide Taken, SpecTaken, IntField;
  }

  lemma BadRefFails(s: string, i: nat, nextIndex: int, args: seq<Arg>, sep: string)
    requires i <= |s| && Chosen(s, i, nextIndex, args) == BadArgument
    ensures ExpandField(s, i, nextIndex, args, sep) == Result("", Failed)
  {
  }

  lemma BodyIsResolved(s: string, j: nat, spec: IntSpec, width: Option<Ref>, k: nat, nextIndex: int,
                       args: seq<Arg>, sep: string) returns (r: Resolved)
    requires Printable(spec) && (width.Some? ==> ProperRef(width.value)) && k < |args|
    requires Here(s, j, ":" + PrintedBody(spec, width))
    ensures r == ResolvedField(s, j, args[k].signed, nextIndex, args)
    ensures var taken := SpecTaken(spec, width, nextIndex, args);
            if (NeedsSigned(spec) && !args[k].signed) || taken.None? then r == Unresolved
            else
              && r.Resolved? && r.next == j + 1 + |PrintedBody(spec, width)| && r.nextIndex == taken.value.1
              && IsIntegerType(r.spec.typ)
              && IntField(args[k].value, r.spec, sep) == IntField(args[k].value, taken.value.0, sep)
  {
    hide ResolvedField, Taken, IntField, TailOf, Printed;
    r := ResolvedField(s, j, args[k].signed, nextIndex, args);
    if NeedsSigned(spec) && !args[k].signed {
      UnsignedIsRefused(s, j, spec, width, nextIndex, args);
    } else if width.None? {
      PlainFieldIsResolved(s, j, spec, args[k].value, args[k].signed, nextIndex, args, sep);
    } else {
      SizedFieldIsResolved(s, j, spec, width.value, args[k].signed, nextIndex, args);
    }
  }

  /** Text, doubled, and what follows it. */
  lemma TextPieceIsFormatted(s: string, i: nat, t: string, nextIndex: int, args: seq<Arg>, sep: string)
    requires '\0' !in t && Here(s, i, Doubled(t))
    ensures var next := i + |Doubled(t)|; var after := Expand(s, next, next, nextIndex, args, sep);
            && Expand(s, i, i, nextIndex, args, sep).outcome == after.outcome
            && (after.outcome == Formatted ==> Expand(s, i, i, nextIndex, args, sep) == Prepend(t, after))
  {
    hide Expand;
    TextKeepsOutcome(s, i, t, nextIndex, args, sep);
    if Expand(s, i + |Doubled(t)|, i + |Doubled(t)|, nextIndex, args, sep).outcome == Formatted {
      TextIsExpanded(s, i, t, nextIndex, args, sep);
    }
  }

  /** Whether it fails does not depend on the pending text. */
  lemma {:induction false} PendingKeepsOutcome(s: string, start: nat, mid: nat, i: nat, nextIndex: int, args: seq<Arg>, sep: string)
    requires start <= mid <= i <= |s|
    ensures Expand(s, start, i, nextIndex, args, sep).outcome == Expand(s, mid, i, nextIndex, args, sep).outcome
    decreases |s| - i
  {
    var c := At(s, i);
    if c != '\0' && c != '{' && c != '}' {
      PendingKeepsOutcome(s, start, mid, i + 1, nextIndex, args, sep);
    }
  }

  lemma {:induction false} TextKeepsOutcome(s: string, i: nat, t: string, nextIndex: int, args: seq<Arg>, sep: string)
    requires '\0' !in t && Here(s, i, Doubled(t))
    ensures Expand(s, i, i, nextIndex, args, sep).outcome ==
            Expand(s, i + |Doubled(t)|, i + |Doubled(t)|, nextIndex, args, sep).outcome
    decreases t
  {
    if t != "" {
      var first := if t[0] == '{' || t[0] == '}' then [t[0], t[0]] else [t[0]];
      HereTwo(s, i, first, Doubled(t[1..]));
      HereFirst(s, i, first);
      assert '\0' !in t[1..];
      TextKeepsOutcome(s, i + |first|, t[1..], nextIndex, args, sep);
      if |first| == 1 {
        PendingKeepsOutcome(s, i, i + 1, i + 1, nextIndex, args, sep);
      }
    }
  }

  ghost predicate Matches(r: Result, rendered: Option<string>) {
    match rendered
    case None => r.outcome == Failed
    case Some(text) => r == Result(text, Formatted)
  }

  /** Formatting undoes printing a format string: the text comes back with its braces
      single and each field's place holds the argument it takes, in order, with the
      width it takes; and it fails exactly if one of them cannot be had. */
  lemma {:induction false} PrintedPiecesAreFormatted(s: string, i: nat, ps: seq<Piece>, nextIndex: int, args: seq<Arg>, sep: string)
    requires forall k | 0 <= k < |ps| :: Proper(ps[k])
    requires Here(s, i, PrintedPieces(ps)) && i + |PrintedPieces(ps)| == |s|
    ensures Matches(Expand(s, i, i, nextIndex, args, sep), Rendered(ps, nextIndex, args, sep))
    decreases |ps|
  {
    hide Expand, ExpandField, PieceText, PrintedPiece, Proper;
    if ps == [] {
      NothingLeft(s, nextIndex, args, sep);
    } else {
      PiecesHere(s, i, ps[0], PrintedPieces(ps[1..]));
      var next := i + |PrintedPiece(ps[0])|;
      var first := PieceText(ps[0], nextIndex, args, sep);
      FirstPieceIsFormatted(s, i, ps[0], nextIndex, args, sep);
      if first.Some? {
        PrintedPiecesAreFormatted(s, next, ps[1..], first.value.1, args, sep);
      }
    }
  }

  lemma PiecesHere(s: string, i: nat, p: Piece, rest: string)
    requires Here(s, i, PrintedPiece(p) + rest)
    ensures Here(s, i, PrintedPiece(p)) && Here(s, i + |PrintedPiece(p)|, rest)
  {
    HereTwo(s, i, PrintedPiece(p), rest);
  }

  lemma NothingLeft(s: string, nextIndex: int, args: seq<Arg>, sep: string)
    ensures Expand(s, |s|, |s|, nextIndex, args, sep) == Result("", Formatted)
  {
  }

  /** The piece at i is written, or fails, and the rest follows. */
  ghost predicate PieceThen(s: string, i: nat, p: Piece, nextIndex: int, args: seq<Arg>, sep: string)
    requires i + |PrintedPiece(p)| <= |s|
  {
    var next, r := i + |PrintedPiece(p)|, Expand(s, i, i, nextIndex, args, sep);
    match PieceText(p, nextIndex, args, sep)
    case None => r.outcome == Failed
    case Some((text, nextIndex')) =>
      var after := Expand(s, next, next, nextIndex', args, sep);
      r.outcome == after.outcome && (after.outcome == Formatted ==> r == Prepend(text, after))
  }

  lemma FirstPieceIsFormatted(s: string, i: nat, p: Piece, nextIndex: int, args: seq<Arg>, sep: string)
    requires Proper(p) && Here(s, i, PrintedPiece(p))
    ensures PieceThen(s, i, p, nextIndex, args, sep)
  {
    hide PieceThen, Proper, PrintedPiece;
    match p
    case Text(_) => FirstText(s, i, p, nextIndex, args, sep);
    case Place(_, _, _) => FirstPlace(s, i, p, nextIndex, args, sep);
    case Short(_, _, _) => FirstShort(s, i, p, nextIndex, args, sep);
  }

  lemma FirstShort(s: string, i: nat, p: Piece, nextIndex: int, args: seq<Arg>, sep: string)
    requires p.Short? && Proper(p) && Here(s, i, PrintedPiece(p))
    ensures PieceThen(s, i, p, nextIndex, args, sep)
  {
    hide Expand, PieceText, PrintedPiece;
    ShortIsExpanded(s, i, p.ref, p.spec, p.form, nextIndex, args, sep);
  }

  lemma FirstText(s: string, i: nat, p: Piece, nextIndex: int, args: seq<Arg>, sep: string)
    requires p.Text? && Proper(p) && Here(s, i, PrintedPiece(p))
    ensures PieceThen(s, i, p, nextIndex, args, sep)
  {
    hide Expand, Doubled;
    TextPieceIsFormatted(s, i, p.t, nextIndex, args, sep);
  }

  lemma FirstPlace(s: string, i: nat, p: Piece, nextIndex: int, args: seq<Arg>, sep: string)
    requires p.Place? && Proper(p) && Here(s, i, PrintedPiece(p))
    ensures PieceThen(s, i, p, nextIndex, args, sep)
  {
    hide Expand, PieceText, PrintedPiece;
    FieldIsExpanded(s, i, p.ref, p.spec, p.width, nextIndex, args, sep);
  }

  /** With no arguments at all, a string with every brace doubled comes back. */
  lemma DoubledBracesComeBack(t: string, sep: string)
    requires '\0' !in t
    ensures Expand(Doubled(t), 0, 0, 0, [], sep) == Result(t, Formatted)
  {
    var ps := [Text(t)];
    assert ps[1..] == [];
    assert PrintedPieces(ps) == Doubled(t) + "" == Doubled(t);
    assert t + "" == t;
    assert Rendered(ps, 0, [], sep) == Some(t + "");
    PrintedPiecesAreFormatted(Doubled(t), 0, ps, 0, [], sep);
  }

  /** `{}` is the argument in decimal, and in a sequence of them each takes the next. */
  lemma BareFieldIsDecimal(value: int, sep: string)
    ensures IntField(value, Meant(DEFAULT_SPEC, Bare), sep) == SignedDecimal(value)
  {
    hide Field, Numeral;
    var spec := Meant(DEFAULT_SPEC, Bare);
    var sign, digits := if value < 0 then "-" else "", Decimal(Magnitude(value));
    assert sign + "" == sign && (value >= 0 ==> "" + digits == digits);
    assert Prefix(value, spec) == sign && Digits(value, spec, sep) == digits;
    Unpadded(sign, digits, spec);
  }

  lemma BareFieldIsFormatted(arg: Arg, sep: string)
    ensures Expand("{}", 0, 0, 0, [arg], sep) == Result(SignedDecimal(arg.value), Formatted)
  {
    hide Expand, IntField;
    var p := Short(Next, DEFAULT_SPEC, Bare);
    var ps := [p];
    assert ps[1..] == [];
    assert "" + "}" == "}" && "{" + "}" == "{}";
    assert PrintedPiece(p) == "{}" && PrintedPieces(ps) == "{}" + "" == "{}";
    BareFieldIsDecimal(arg.value, sep);
    assert PieceText(p, 0, [arg], sep) == Some((SignedDecimal(arg.value), 1));
    assert SignedDecimal(arg.value) + "" == SignedDecimal(arg.value);
    assert Rendered([], 1, [arg], sep) == Some("");
    PrintedPiecesAreFormatted("{}", 0, ps, 0, [arg], sep);
  }
}
