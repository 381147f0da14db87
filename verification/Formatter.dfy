/** The formatter object: it walks a format string, copies the literal text, parses
    each replacement field and writes its argument. */
module Formatter {
  import opened BasicWriter
  import opened FormatSpec
  import opened FormatText
  import opened IntegerText
  import opened IntegerWriter
  import opened Numerals
  import opened SpecParser

  /** Looks for an alignment one character ahead first, then at the character itself. */
  method ParseAlign(s: string, i: nat) returns (r: Parsed)
    ensures r == ParsedAlign(s, i)
  {
    var c := At(s, i);
    if c == '\0' {
      return Parsed(DEFAULT_SPEC, i);
    }
    var p: int := i + 1;
    var spec := DEFAULT_SPEC;
    while true
      invariant i <= p <= i + 1 && spec == DEFAULT_SPEC
      invariant p == i ==> AlignmentOf(At(s, i + 1)) == DefaultAlign
      decreases p
    {
      spec := spec.(align := AlignmentOf(At(s, p)));
      if spec.align != DefaultAlign {
        if p != i {
          if c == '}' {
            return Parsed(spec, i);
          }
          if c == '{' {
            return Malformed;
          }
          return Parsed(spec.(fill := c), i + 2);
        }
        return Parsed(spec, i + 1);
      }
      p := p - 1;
      if p < i {
        break;
      }
    }
    return Parsed(spec, i);
  }

  method ParseFlags(s: string, i: nat, spec0: IntSpec, signed: bool) returns (r: Parsed)
    requires !spec0.signFlag && !spec0.plusFlag && !spec0.minusFlag
    ensures r == ParsedFlags(s, i, spec0, signed)
  {
    var spec, at := spec0, i;
    var c := At(s, at);
    if c == '+' || c == '-' || c == ' ' {
      if !signed {
        return Malformed;
      }
      at := at + 1;
      if c == '+' {
        spec := spec.(signFlag := true, plusFlag := true);
      } else if c == '-' {
        spec := spec.(minusFlag := true);
      } else {
        spec := spec.(signFlag := true);
      }
    }
    if At(s, at) == '#' {
      spec := spec.(hashFlag := true);
      at := at + 1;
    }
    if At(s, at) == '0' {
      spec := spec.(align := AlignNumeric, fill := '0');
      at := at + 1;
    }
    return Parsed(spec, at);
  }

  method ParseRest(s: string, i: nat, spec0: IntSpec) returns (r: Parsed)
    ensures r == ParsedRest(s, i, spec0)
  {
    var spec, at := spec0, i;
    if IsDigit(At(s, at)) {
      var width := ParseNonnegativeInt(s, at);
      if width.None? {
        return Malformed;
      }
      spec, at := spec.(width := width.value.0), width.value.1;
    } else if At(s, at) == '{' {
      return NestedWidth(spec, at + 1);
    }
    r := ParseTypeAndEnd(s, at, spec);
  }

  method ParseTypeAndEnd(s: string, i: nat, spec0: IntSpec) returns (r: Parsed)
    ensures r == ParsedTypeAndEnd(s, i, spec0)
  {
    var spec, at := spec0, i;
    if At(s, at) == '.' {
      return Malformed;
    }
    if At(s, at) != '}' && At(s, at) != '\0' {
      spec, at := spec.(typ := At(s, at)), at + 1;
    }
    if At(s, at) != '}' {
      return Malformed;
    }
    return Parsed(spec, at + 1);
  }

  method ParseField(s: string, i: nat, signed: bool) returns (r: Parsed)
    ensures r == ParsedField(s, i, signed)
  {
    if At(s, i) != ':' {
      if At(s, i) != '}' {
        return Malformed;
      }
      return Parsed(DEFAULT_SPEC, i + 1);
    }
    r := ParseAlign(s, i + 1);
    if r.Parsed? {
      r := ParseFlags(s, r.next, r.spec, signed);
      if r.Parsed? {
        r := ParseRest(s, r.next, r.spec);
      }
    }
  }

  class BasicFormatter {
    const writer: BasicWriter
    const args: seq<Arg>
    const sep: string
    var nextArgIndex: int

    ghost predicate Valid()
      reads writer, writer.buffer
    {
      writer.Valid() && forall a | a in args :: Fits(a.value, a.bits)
    }

    constructor (args: seq<Arg>, writer: BasicWriter, sep: string)
      requires writer.Valid() && forall a | a in args :: Fits(a.value, a.bits)
      ensures this.args == args && this.writer == writer && this.sep == sep && nextArgIndex == 0
      ensures Valid()
    {
      this.args := args;
      this.writer := writer;
      this.sep := sep;
      nextArgIndex := 0;
    }

    /** The next argument, one by its index or one by its name. */
    method ParseArg(s: string, i: nat) returns (c: Choice)
      requires i <= |s|
      modifies `nextArgIndex
      ensures c == Chosen(s, i, old(nextArgIndex), args)
      ensures c.Choice? ==> nextArgIndex == c.nextIndex
    {
      if IsNameStart(At(s, i)) {
        var end := ParseName(s, i);
        if nextArgIndex > 0 {
          return BadArgument;
        }
        nextArgIndex := -1;
        var k := FindName(s[i..end]);
        return if k < |args| then Choice(k, -1, end) else BadArgument;
      }
      if !IsDigit(At(s, i)) {
        if nextArgIndex < 0 {
          return BadArgument;
        }
        var k := nextArgIndex;
        nextArgIndex := nextArgIndex + 1;
        return if k < |args| then Choice(k, nextArgIndex, i) else BadArgument;
      }
      var index := ParseNonnegativeInt(s, i);
      if index.None? || nextArgIndex > 0 {
        return BadArgument;
      }
      nextArgIndex := -1;
      return if index.value.0 < |args| then Choice(index.value.0, -1, index.value.1) else BadArgument;
    }

    static method ParseName(s: string, i: nat) returns (end: nat)
      requires i < |s| && IsNameStart(At(s, i))
      ensures end == NameEnd(s, i + 1)
    {
      end := i + 1;
      while IsNameChar(At(s, end))
        invariant i < end <= |s| && NameEnd(s, end) == NameEnd(s, i + 1)
        decreases |s| - end
      {
        end := end + 1;
      }
    }

    /** The list is searched from the front: the first argument of that name. */
    method FindName(name: string) returns (k: nat)
      ensures k == ArgNamed(name, args)
    {
      k := 0;
      while k < |args| && args[k].name != name
        invariant k <= |args| && ArgNamed(name, args) == k + ArgNamed(name, args[k..])
      {
        assert args[k..][1..] == args[k + 1..];
        k := k + 1;
      }
    }

    /** A replacement field from behind its argument, its width perhaps taken from
        another argument. */
    method ResolveField(s: string, i: nat, signed: bool) returns (r: Resolved)
      requires i <= |s|
      modifies `nextArgIndex
      ensures r == ResolvedField(s, i, signed, old(nextArgIndex), args)
      ensures r.Resolved? ==> nextArgIndex == r.nextIndex
    {
      hide ParsedField, ParsedTypeAndEnd, Chosen;
      FieldEndsInside(s, i, signed);
      var parsed := ParseField(s, i, signed);
      if parsed.Malformed? {
        return Unresolved;
      }
      if parsed.Parsed? {
        return Resolved(parsed.spec, parsed.next, nextArgIndex);
      }
      var c := ParseArg(s, parsed.next);
      if c.BadArgument? || At(s, c.next) != '}' {
        return Unresolved;
      }
      var width := args[c.arg].value;
      if width < 0 || width > FormatSpec.INT_MAX {
        return Unresolved;
      }
      TypeEndsInside(s, c.next + 1, parsed.spec.(width := width));
      var rest := ParseTypeAndEnd(s, c.next + 1, parsed.spec.(width := width));
      return if rest.Parsed? then Resolved(rest.spec, rest.next, nextArgIndex) else Unresolved;
    }

    /** One replacement field, from behind its opening brace; `next` is behind its
        closing one. */
    method FormatField(s: string, i: nat) returns (next: nat, outcome: Outcome)
      requires Valid() && i <= |s|
      modifies `nextArgIndex, writer.buffer, writer.buffer.ptr
      ensures Valid() && (writer.buffer.ptr == old(writer.buffer.ptr) || fresh(writer.buffer.ptr))
      ensures outcome == Formatted ==>
              && i < next <= |s|
              && Stepped(old(writer.Written()), writer.Written(), ExpandField(s, i, old(nextArgIndex), args, sep),
                         Expand(s, next, next, nextArgIndex, args, sep))
      ensures outcome != Formatted ==>
              ExpandField(s, i, old(nextArgIndex), args, sep) == Result("", outcome) &&
              writer.Written() == old(writer.Written())
    {
      next := 0;
      var c := ParseArg(s, i);
      if c.BadArgument? {
        return 0, Failed;
      }
      var arg := args[c.arg];
      var resolved := ResolveField(s, c.next, arg.signed);
      if resolved.Unresolved? {
        return 0, Failed;
      }
      var known := writer.WriteInt(arg.value, arg.bits, resolved.spec, -1, sep);
      if !known {
        return 0, Failed;
      }
      next, outcome := resolved.next, Formatted;
    }

    /** Writes what the format string stands for; on an error, what precedes it. */
    method Format(s: string) returns (outcome: Outcome)
      requires Valid()
      modifies `nextArgIndex, writer.buffer, writer.buffer.ptr
      ensures Valid()
      ensures var r := Expand(s, 0, 0, old(nextArgIndex), args, sep);
              outcome == r.outcome && writer.Written() == old(writer.Written()) + r.text
    {
      hide Expand, ExpandField, Stepped;
      var start: nat, i: nat := 0, 0;
      ghost var all := Expand(s, 0, 0, nextArgIndex, args, sep);
      ghost var was := writer.Written();
      NoStep(was, all);
      while At(s, i) != '\0'
        invariant start <= i <= |s| && Valid()
        invariant writer.buffer.ptr == old(writer.buffer.ptr) || fresh(writer.buffer.ptr)
        invariant Stepped(was, writer.Written(), all, Expand(s, start, i, nextArgIndex, args, sep))
        decreases |s| - i
      {
        ghost var now := writer.Written();
        NextCharacter(s, start, i, nextArgIndex, args, sep);
        var c := At(s, i);
        i := i + 1;
        if c != '{' && c != '}' {
          continue;
        }
        if At(s, i) == c {
          writer.WriteStr(s[start..i]);
          i := i + 1;
          TextStep(was, now, writer.Written(), all, s[start..i - 1], Expand(s, i, i, nextArgIndex, args, sep));
          start := i;
          continue;
        }
        if c == '}' {
          LastStep(was, now, now, all, "", Failed);
          return Failed;
        }
        writer.WriteStr(s[start..i - 1]);
        ghost var field := ExpandField(s, i, nextArgIndex, args, sep);
        TextStep(was, now, writer.Written(), all, s[start..i - 1], field);
        now := writer.Written();
        i, outcome := FormatField(s, i);
        if outcome != Formatted {
          LastStep(was, now, now, all, "", outcome);
          return;
        }
        SteppedFurther(was, now, writer.Written(), all, field, Expand(s, i, i, nextArgIndex, args, sep));
        start := i;
      }
      ghost var now := writer.Written();
      NextCharacter(s, start, i, nextArgIndex, args, sep);
      writer.WriteStr(s[start..i]);
      LastStep(was, now, writer.Written(), all, s[start..i], Formatted);
      outcome := Formatted;
    }
  }

  lemma NextCharacter(s: string, start: nat, i: nat, nextIndex: int, args: seq<Arg>, sep: string)
    requires start <= i <= |s|
    ensures var c, r := At(s, i), Expand(s, start, i, nextIndex, args, sep);
            if c == '\0' then r == Result(s[start..i], Formatted)
            else if c != '{' && c != '}' then r == Expand(s, start, i + 1, nextIndex, args, sep)
            else if At(s, i + 1) == c then
              r == Prepend(s[start..i + 1], Expand(s, i + 2, i + 2, nextIndex, args, sep))
            else if c == '}' then r == Result("", Failed)
            else r == Prepend(s[start..i], ExpandField(s, i + 1, nextIndex, args, sep))
  {
  }

  /** Having gone from `was` to `now`, what was to come is what was written and then
      what is left to come. */
  ghost predicate Stepped(was: string, now: string, before: Result, after: Result) {
    && |was| <= |now| && now[..|was|] == was
    && before == Prepend(now[|was|..], after)
  }

  lemma NoStep(was: string, all: Result)
    ensures Stepped(was, was, all, all)
  {
    assert was[|was|..] == "" && "" + all.text == all.text;
  }

  lemma LastStep(was: string, now: string, now': string, all: Result, text: string, outcome: Outcome)
    requires Stepped(was, now, all, Result(text, outcome)) && now' == now + text
    ensures all.outcome == outcome && now' == was + all.text
  {
    assert now == was + now[|was|..];
  }

  lemma TextStep(was: string, now: string, now': string, all: Result, text: string, after: Result)
    requires Stepped(was, now, all, Prepend(text, after)) && now' == now + text
    ensures Stepped(was, now', all, after)
  {
    assert now'[|was|..] == now[|was|..] + text;
    PrependTwice(now[|was|..], text, after);
  }

  lemma SteppedFurther(was: string, now: string, now': string, all: Result, field: Result, after: Result)
    requires Stepped(was, now, all, field) && Stepped(now, now', field, after)
    ensures Stepped(was, now', all, after)
  {
    assert now' == now + now'[|now|..];
    TextStep(was, now, now', all, now'[|now|..], after);
  }
}
