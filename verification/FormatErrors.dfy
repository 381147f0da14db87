/** Format strings that are refused. */
module FormatErrors {
  import opened FormatSpec
  import opened FormatText
  import opened IntegerText
  import opened Numerals
  import opened Options
  import opened SpecParser

  predicate IsPlain(t: string) {
    forall i | 0 <= i < |t| :: t[i] !in "\0{}"
  }

  lemma {:induction false} PlainTextIsScanned(s: string, start: nat, i: nat, j: nat, nextIndex: int, args: seq<Arg>, sep: string)
    requires start <= i <= j <= |s| && IsPlain(s[i..j])
    ensures Expand(s, start, i, nextIndex, args, sep) == Expand(s, start, j, nextIndex, args, sep)
    decreases j - i
  {
    if i < j {
      assert s[i..j][0] == s[i];
      assert s[i + 1..j] == s[i..j][1..];
      PlainTextIsScanned(s, start, i + 1, j, nextIndex, args, sep);
    }
  }

  lemma BehindText(t: string, more: string, nextIndex: int, args: seq<Arg>, sep: string)
    requires IsPlain(t)
    ensures var s := t + more;
            && Expand(s, 0, 0, nextIndex, args, sep) == Expand(s, 0, |t|, nextIndex, args, sep)
            && Here(s, |t|, more) && s[0..|t|] == t
  {
    var s := t + more;
    assert s[0..|t|] == t && s[|t|..|t| + |more|] == more;
    PlainTextIsScanned(s, 0, 0, |t|, nextIndex, args, sep);
  }

  /** A closing brace that is not doubled, with no field open. */
  lemma LoneBraceIsRefused(t: string, rest: string, nextIndex: int, args: seq<Arg>, sep: string)
    requires IsPlain(t) && (rest == "" || rest[0] != '}')
    ensures Expand(t + ("}" + rest), 0, 0, nextIndex, args, sep) == Result("", Failed)
  {
    BehindText(t, "}" + rest, nextIndex, args, sep);
    HereFirst(t + ("}" + rest), |t|, "}" + rest);
  }

  /** A field ends with a closing brace. */
  lemma ResolvedEndsWithBrace(s: string, i: nat, signed: bool, nextIndex: int, args: seq<Arg>)
    ensures var r := ResolvedField(s, i, signed, nextIndex, args);
            r.Resolved? ==> s[r.next - 1] == '}'
  {
    hide ParsedAlign, ParsedFlags, ParsedWidth, ParsedType, Chosen;
  }

  /** An opening brace behind which no brace closes. The text in front of it has been
      written. */
  lemma UnclosedIsRefused(t: string, w: string, nextIndex: int, args: seq<Arg>, sep: string)
    requires IsPlain(t) && '}' !in w && (w == "" || w[0] != '{')
    ensures Expand(t + ("{" + w), 0, 0, nextIndex, args, sep) == Result(t, Failed)
  {
    hide ResolvedField, Chosen;
    var s := t + ("{" + w);
    BehindText(t, "{" + w, nextIndex, args, sep);
    HereFirst(s, |t|, "{" + w);
    assert t + "" == t;
    var i := |t| + 1;
    assert forall m: nat | i <= m < |s| :: s[m] == w[m - i];
    match Chosen(s, i, nextIndex, args)
    case BadArgument =>
    case Choice(k, nextIndex', j) =>
      ResolvedEndsWithBrace(s, j, args[k].signed, nextIndex', args);
  }

  predicate SpecIsBad(s: string, i: nat, signed: bool) {
    match ParsedSpec(s, i, signed)
    case Malformed => true
    case Parsed(found, _) => !IsIntegerType(found.typ)
    case NestedWidth(_, _) => false
  }

  lemma ColonTakesNext(s: string, i: nat, nextIndex: int, args: seq<Arg>)
    requires i <= |s| && At(s, i) == ':'
    ensures Chosen(s, i, nextIndex, args) == ChoiceOf(Taken(Next, nextIndex, args), i)
  {
  }

  lemma BadFieldIsRefused(s: string, i: nat, signed: bool, nextIndex: int, args: seq<Arg>)
    requires At(s, i) == ':' && SpecIsBad(s, i + 1, signed)
    ensures var r := ResolvedField(s, i, signed, nextIndex, args); r.Resolved? ==> !IsIntegerType(r.spec.typ)
  {
    hide ParsedSpec;
  }

  /** A field whose specification is bad for whatever argument. */
  lemma FieldFails(t: string, spec: string, nextIndex: int, args: seq<Arg>, sep: string)
    requires IsPlain(t) && spec != ""
    requires var s := t + ("{:" + spec); SpecIsBad(s, |t| + 2, true) && SpecIsBad(s, |t| + 2, false)
    ensures Expand(t + ("{:" + spec), 0, 0, nextIndex, args, sep) == Result(t, Failed)
  {
    hide ParsedSpec, SpecIsBad, ResolvedField, Chosen, Taken, IsIntegerType;
    var s, i := t + ("{:" + spec), |t| + 1;
    BehindText(t, "{:" + spec, nextIndex, args, sep);
    HereFirst(s, |t|, "{:" + spec);
    assert t + "" == t && At(s, i) == ':';
    ColonTakesNext(s, i, nextIndex, args);
    if Taken(Next, nextIndex, args).Some? {
      var k, nextIndex' := Taken(Next, nextIndex, args).value.0, Taken(Next, nextIndex, args).value.1;
      BadFieldIsRefused(s, i, args[k].signed, nextIndex', args);
    }
  }

  /** A character that can only be a type, and is none of an integer's. */
  predicate IsOtherType(c: char) {
    c !in "\0{}<>=^+- #." && c !in "dnxXbBo" && !IsDigit(c)
  }

  lemma UnknownTypeIsRefused(t: string, c: char, rest: string, nextIndex: int, args: seq<Arg>, sep: string)
    requires IsPlain(t) && IsOtherType(c)
    ensures Expand(t + ("{:" + ([c] + ("}" + rest))), 0, 0, nextIndex, args, sep) == Result(t, Failed)
  {
    var spec := [c] + ("}" + rest);
    var s := t + ("{:" + spec);
    assert s[|t| + 2] == c && s[|t| + 3] == '}';
    FieldFails(t, spec, nextIndex, args, sep);
  }

  /** An integer takes no precision. */
  lemma PrecisionIsRefused(t: string, rest: string, nextIndex: int, args: seq<Arg>, sep: string)
    requires IsPlain(t) && (rest == "" || AlignmentOf(rest[0]) == DefaultAlign)
    ensures Expand(t + ("{:" + ("." + rest)), 0, 0, nextIndex, args, sep) == Result(t, Failed)
  {
    var s := t + ("{:" + ("." + rest));
    assert s[|t| + 2] == '.' && (rest != "" ==> s[|t| + 3] == rest[0]);
    FieldFails(t, "." + rest, nextIndex, args, sep);
  }

  /** An opening brace is no fill. */
  lemma BraceIsNoFill(t: string, align: char, rest: string, nextIndex: int, args: seq<Arg>, sep: string)
    requires IsPlain(t) && AlignmentOf(align) != DefaultAlign
    ensures Expand(t + ("{:" + ("{" + ([align] + rest))), 0, 0, nextIndex, args, sep) == Result(t, Failed)
  {
    var s := t + ("{:" + ("{" + ([align] + rest)));
    assert s[|t| + 2] == '{' && s[|t| + 3] == align;
    FieldFails(t, "{" + ([align] + rest), nextIndex, args, sep);
  }

  /** Automatic numbering does not mix with indices or names, in either order. */
  lemma NumberingDoesNotMix(ref: Ref, a: Arg, b: Arg, sep: string)
    requires !ref.Next?
    ensures var auto, other := Short(Next, DEFAULT_SPEC, Bare), Short(ref, DEFAULT_SPEC, Bare);
            Rendered([auto, other], 0, [a, b], sep) == None && Rendered([other, auto], 0, [a, b], sep) == None
  {
    hide IntField, Meant;
    var auto, other := Short(Next, DEFAULT_SPEC, Bare), Short(ref, DEFAULT_SPEC, Bare);
    assert [auto, other][1..] == [other] && [other, auto][1..] == [auto];
  }

  /** The types of an integer are accepted, each for what FieldLayout says of it. */
  lemma KnownTypeIsFormatted(c: char, arg: Arg, sep: string)
    requires c in "dnxXbBo"
    ensures Expand("{:" + [c] + "}", 0, 0, 0, [arg], sep) ==
            Result(IntField(arg.value, IntSpec(0, ' ', DefaultAlign, false, false, false, false, c), sep), Formatted)
  {
    hide Expand, IntField, PrintedPieces, PieceText, Printable;
    var spec := IntSpec(0, ' ', DefaultAlign, false, false, false, false, c);
    var p := Place(Next, spec, None);
    var ps, text := [p], IntField(arg.value, spec, sep);
    TypePiece(c, spec, arg, sep);
    assert ps[1..] == [] && text + "" == text && Rendered([], 1, [arg], sep) == Some("");
    PrintedPiecesAreFormatted("{:" + [c] + "}", 0, ps, 0, [arg], sep);
  }

  lemma TypePiece(c: char, spec: IntSpec, arg: Arg, sep: string)
    requires c in "dnxXbBo" && spec == IntSpec(0, ' ', DefaultAlign, false, false, false, false, c)
    ensures var p := Place(Next, spec, None);
            && Proper(p) && PrintedPieces([p]) == "{:" + [c] + "}"
            && PieceText(p, 0, [arg], sep) == Some((IntField(arg.value, spec, sep), 1))
  {
    hide IntField;
    var p := Place(Next, spec, None);
    assert Printed(spec) == [c];
    assert "{" + ("" + (":" + ([c] + "}"))) == "{:" + [c] + "}";
    assert [p][1..] == [] && PrintedPieces([]) == "" && PrintedPiece(p) + "" == PrintedPiece(p);
  }

  /** A width from an argument must be an int that is not negative. */
  lemma WidthMustFit(spec: IntSpec, a: Arg, width: Arg, sep: string)
    requires Printable(spec) && (NeedsSigned(spec) ==> a.signed)
    ensures Rendered([Place(Next, spec, Some(Next))], 0, [a, width], sep).Some? <==> 0 <= width.value <= 0x7fff_ffff
  {
    hide IntField;
    var ps := [Place(Next, spec, Some(Next))];
    assert ps[1..] == [] && Rendered([], 2, [a, width], sep) == Some("");
  }
}
