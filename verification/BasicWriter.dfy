/** The writer: integer fields appended to a growing buffer. */
module BasicWriter {
  import opened CountDigits
  import opened DecimalWriter
  import opened GrowthAccount
  import opened IntegerPrecision
  import opened IntegerText
  import opened IntegerWriter
  import opened Numerals
  import opened OutputBuffer

  lemma PrefixOfSlice(whole: string, size: nat, from: nat, to: nat, middle: string, whole': string)
    requires from <= to <= size <= |whole| && |middle| == to - from
    requires whole' == whole[..from] + middle + whole[to..]
    ensures |whole'| == |whole|
    ensures whole'[..size] == whole[..size][..from] + middle + whole[..size][to..]
  {
  }

  lemma PastedInContents(whole: string, whole': string, at: nat, text: string, size: nat)
    requires Pasted(whole, whole', at, text) && at + |text| <= size <= |whole|
    ensures |whole'| == |whole| && Pasted(whole[..size], whole'[..size], at, text)
  {
    PrefixOfSlice(whole, size, at, at + |text|, text, whole');
  }

  /** An area of the given size at p holds `before` at its front and `after` at its
      end; nothing else has changed, neither between them nor outside the area. */
  ghost predicate Laid(start: string, now: string, p: nat, size: nat, before: string, after: string) {
    && p + size <= |start| && |before| + |after| <= size
    && now == start[..p] + before + start[p + |before|..p + size - |after|] + after + start[p + size..]
  }

  lemma LaidByTwo(start: string, first: string, now: string, p: nat, size: nat, before: string, after: string)
    requires p + size <= |start| && |before| + |after| <= size
    requires Pasted(start, first, p, before) && Pasted(first, now, p + size - |after|, after)
    ensures Laid(start, now, p, size, before, after)
  {
    assert first[..p + size - |after|] == start[..p] + before + start[p + |before|..p + size - |after|];
    assert first[p + size..] == start[p + size..];
  }

  lemma LaidOnce(start: string, now: string, p: nat, size: nat, before: string)
    requires p + size <= |start| && |before| <= size && Pasted(start, now, p, before)
    ensures Laid(start, now, p, size, before, "")
  {
    assert start[p + |before|..] == start[p + |before|..p + size] + start[p + size..];
  }

  lemma LaidPrefix(start: string, padded: string, now: string, p: nat, size: nat,
                   left: string, prefix: string, after: string)
    requires Laid(start, padded, p, size, left, after) && |left| + |prefix| + |after| <= size
    requires Pasted(padded, now, p + |left|, prefix)
    ensures Laid(start, now, p, size, left + prefix, after)
  {
    var middle := start[p + |left|..p + size - |after|];
    assert padded[..p + |left|] == start[..p] + left;
    assert padded[p + |left|..] == middle + after + start[p + size..];
    assert padded[p + |left| + |prefix|..] == padded[p + |left|..][|prefix|..];
    assert middle[|prefix|..] == start[p + |left + prefix|..p + size - |after|];
  }

  lemma LaidFrontBack(start: string, first: string, now: string, p: nat, size: nat, prefix: string, fill: string)
    requires p + size <= |start| && |prefix| + |fill| <= size
    requires Pasted(start, first, p, prefix) || (prefix == "" && first == start)
    requires Pasted(first, now, p + |prefix|, fill)
    ensures Laid(start, now, p, size, prefix + fill, "")
  {
    assert first[..p + |prefix|] == start[..p] + prefix;
    assert first[p + |prefix| + |fill|..] == start[p + |prefix| + |fill|..p + size] + start[p + size..];
  }

  lemma LaidBackFront(start: string, first: string, now: string, p: nat, size: nat, fill: string, prefix: string)
    requires p + size <= |start| && |prefix| + |fill| <= size
    requires Pasted(start, first, p + |fill|, prefix) && Pasted(first, now, p, fill)
    ensures Laid(start, now, p, size, fill + prefix, "")
  {
    assert first[..p] == start[..p];
    assert first[p + |fill|..] == prefix + start[p + |fill| + |prefix|..p + size] + start[p + size..];
  }

  lemma LaidContents(start: string, now: string, p: nat, size: nat, before: string, after: string)
    requires Laid(start, now, p, size, before, after)
    ensures p + size <= |now| == |start|
    ensures now[..p + size] == start[..p] + before + start[p + |before|..p + size - |after|] + after
  {
  }

  lemma NoPadding(spec: IntSpec, prefix: string, size: nat)
    requires spec.width <= size
    ensures Before(spec, prefix, size) == prefix && After(spec, size) == ""
  {
    assert Repeat(spec.fill, 0) == "";
  }

  lemma CenterLaid(start: string, padded: string, now: string, p: nat, spec: IntSpec, prefix: string, size: nat)
    requires spec.align == AlignCenter && |prefix| <= size <= spec.width
    requires var pad := spec.width - size;
             && Laid(start, padded, p, spec.width, Repeat(spec.fill, pad / 2), Repeat(spec.fill, pad - pad / 2))
             && Pasted(padded, now, p + pad / 2, prefix)
    ensures |Before(spec, prefix, size)| == (spec.width - size) / 2 + |prefix|
    ensures Laid(start, now, p, spec.width, Before(spec, prefix, size), After(spec, size))
  {
    hide Laid, Pasted, Repeat;
    var pad := spec.width - size;
    LaidPrefix(start, padded, now, p, spec.width, Repeat(spec.fill, pad / 2), prefix, Repeat(spec.fill, pad - pad / 2));
  }

  /** The field of the number alone: zeros between what stands in front and the digits. */
  function NumberSpec(size: nat): IntSpec {
    IntSpec(size, '0', AlignNumeric, false, false, false, false, '\0')
  }

  lemma NumberPlaced(prefix: string, numDigits: nat, precision: nat)
    requires precision > numDigits
    ensures var spec, size := NumberSpec(|prefix| + precision), |prefix| + numDigits;
            && Before(spec, prefix, size) == prefix + Repeat('0', precision - numDigits)
            && After(spec, size) == ""
  {
  }

  /** Where the fill goes once a precision takes effect. */
  lemma PrecisePlaced(spec: IntSpec, numDigits: nat, precision: nat, prefix: string, fill: string)
    requires precision > numDigits && fill == Repeat(spec.fill, Padding(spec, NumberSize(prefix, precision)))
    ensures var before := PrecisePrefix(prefix, numDigits, precision);
            var spec', size := PreciseSpec(spec, numDigits, precision), |before| + numDigits;
            && before == WithoutMark(prefix) + Repeat('0', precision - numDigits)
            && size == NumberSize(prefix, precision)
            && Before(spec', before, size) == (if spec.align == AlignLeft then before else fill + before)
            && After(spec', size) == (if spec.align == AlignLeft then fill else "")
            && (spec.width <= size ==> Before(spec', before, size) == before && After(spec', size) == "")
  {
  }

  /** The digits go where they were kept open. */
  lemma DigitsGoIn(was: string, before: string, held: string, after: string, last: nat, digits: string, now: string)
    requires |digits| == |held| && last + 1 == |was| + |before| + |held|
    requires Pasted(was + before + held + after, now, last + 1 - |digits|, digits)
    ensures now == was + before + digits + after
  {
    var prepared := was + before + held + after;
    assert prepared[..last + 1 - |digits|] == was + before && prepared[last + 1..] == after;
  }

  lemma FieldIs(was: string, prefix: string, digits: string, spec: IntSpec)
    ensures var size := |prefix| + |digits|;
            was + Before(spec, prefix, size) + digits + After(spec, size) == was + Field(prefix, digits, spec)
  {
  }

  // ----- digits that miss the field

  /** Left-aligned with a precision, the number is laid out first and its place
      remembered; the fill behind it may then make the buffer grow. */
  predicate FillMovesBuffer(room: Account, number: nat, width: nat) {
    var placed := room.Fit(width).Append(number);
    number < width && placed.size + (width - number) > placed.capacity
  }

  /** The size of the number, its zeros included. */
  function NumberSize(prefix: string, precision: nat): nat {
    |WithoutMark(prefix)| + precision
  }

  /** The digits are written where the buffer no longer is. */
  predicate DigitsAreLost(room: Account, prefix: string, numDigits: nat, spec: IntSpec, precision: int) {
    precision > numDigits && spec.align == AlignLeft && FillMovesBuffer(room, NumberSize(prefix, precision), spec.width)
  }

  /** Up to the fill, the buffer's storage is the one it had. */
  predicate StorageStays(room: Account, prefix: string, spec: IntSpec, precision: nat) {
    spec.width <= room.capacity && room.size + NumberSize(prefix, precision) <= room.capacity
  }

  function DigitPlace(was: string, prefix: string, numDigits: nat, precision: int): nat {
    |was| + |PrecisePrefix(prefix, numDigits, precision)|
  }

  /** What a writer that held `was`, in storage of this account and these contents,
      holds once the field is written. */
  ghost predicate FieldWritten(was: string, room: Account, storage: string, now: string,
                               prefix: string, digits: string, spec: IntSpec, precision: int) {
    if !DigitsAreLost(room, prefix, |digits|, spec, precision) then
      now == was + PreciseField(prefix, digits, spec, precision)
    else
      var at := DigitPlace(was, prefix, |digits|, precision);
      && at + |digits| <= |now|
      && now == was + PreciseField(prefix, now[at..at + |digits|], spec, precision)
      && (StorageStays(room, prefix, spec, precision) ==>
            at + |digits| <= |storage| && now[at..at + |digits|] == storage[at..at + |digits|])
  }

  lemma FillInFront(was: string, fill: string, kept: string, zeros: string, held: string)
    ensures was + fill + kept + zeros + held == was + (fill + (kept + zeros)) + held + ""
    ensures was + kept + zeros + held == was + (kept + zeros) + held + ""
  {
  }

  lemma FillBehind(was: string, kept: string, zeros: string, held: string)
    ensures was + kept + zeros + held == was + (kept + zeros) + held
  {
  }

  /** Without fill behind the number nothing is lost, nor if the field fits. */
  lemma NothingIsLost(room: Account, prefix: string, numDigits: nat, spec: IntSpec, precision: int)
    requires || precision <= numDigits || spec.align != AlignLeft || spec.width <= NumberSize(prefix, precision)
             || room.size + spec.width <= room.capacity || (room.size == 0 && precision >= 0)
    ensures !DigitsAreLost(room, prefix, numDigits, spec, precision)
  {
  }

  lemma LostIsFilledOver(room: Account, prefix: string, numDigits: nat, spec: IntSpec, precision: nat)
    requires precision > numDigits && spec.align == AlignLeft && NumberSize(prefix, precision) < spec.width
    ensures var number := NumberSize(prefix, precision); var placed := room.Fit(spec.width).Append(number);
            DigitsAreLost(room, prefix, numDigits, spec, precision) <==>
            placed.size + (spec.width - number) > placed.capacity
  {
  }

  /** Exactly when the digits are lost, in terms of size and capacity. */
  lemma LostIff(room: Account, prefix: string, numDigits: nat, spec: IntSpec, precision: nat)
    requires precision > numDigits && spec.align == AlignLeft && NumberSize(prefix, precision) < spec.width
    ensures var reserved := if spec.width > room.capacity then NextCapacity(room.capacity, spec.width) else room.capacity;
            var needed := room.size + NumberSize(prefix, precision);
            var capacity := if needed > reserved then NextCapacity(reserved, needed) else reserved;
            DigitsAreLost(room, prefix, numDigits, spec, precision) <==> room.size + spec.width > capacity
  {
  }

  /** And then the place is where the number was to stand, behind its prefix. */
  lemma LostIsLeft(room: Account, prefix: string, numDigits: nat, spec: IntSpec, precision: int, before: string)
    requires DigitsAreLost(room, prefix, numDigits, spec, precision)
    ensures Before(PreciseSpec(spec, numDigits, precision), before, |before| + numDigits) == before
  {
  }

  lemma FieldInPlace(was: string, room: Account, storage: string, now: string,
                     prefix: string, digits: string, spec: IntSpec, precision: int)
    requires !DigitsAreLost(room, prefix, |digits|, spec, precision)
    requires now == was + PreciseField(prefix, digits, spec, precision)
    ensures FieldWritten(was, room, storage, now, prefix, digits, spec, precision)
  {
  }

  lemma FieldMissed(was: string, room: Account, storage: string, now: string,
                    prefix: string, digits: string, spec: IntSpec, precision: int, held: string, last: nat)
    requires DigitsAreLost(room, prefix, |digits|, spec, precision) && |held| == |digits|
    requires now == was + PreciseField(prefix, held, spec, precision)
    requires |was| + |PrecisePrefix(prefix, |digits|, precision)| + |digits| == last + 1
    requires StorageStays(room, prefix, spec, precision) ==>
               last < |storage| && held == storage[last + 1 - |digits|..last + 1]
    ensures FieldWritten(was, room, storage, now, prefix, digits, spec, precision)
  {
    var at := DigitPlace(was, prefix, |digits|, precision);
    assert now[at..at + |digits|] == held;
  }

  /** The text is the field asked for if and only if the digits are not lost, or the
      storage happened to hold just these digits. */
  lemma FieldIsWrittenIff(was: string, room: Account, storage: string, now: string,
                          prefix: string, digits: string, spec: IntSpec, precision: int)
    requires FieldWritten(was, room, storage, now, prefix, digits, spec, precision)
    ensures var at := DigitPlace(was, prefix, |digits|, precision);
            var lost := DigitsAreLost(room, prefix, |digits|, spec, precision);
            && (lost ==> at + |digits| <= |now|)
            && (now == was + PreciseField(prefix, digits, spec, precision) <==> !lost || now[at..at + |digits|] == digits)
            && (lost && StorageStays(room, prefix, spec, precision) ==>
                  && at + |digits| <= |storage|
                  && (now == was + PreciseField(prefix, digits, spec, precision) <==> storage[at..at + |digits|] == digits))
  {
    hide Before, After, PrecisePrefix, StorageStays, FillMovesBuffer;
    if DigitsAreLost(room, prefix, |digits|, spec, precision) {
      var before := PrecisePrefix(prefix, |digits|, precision);
      LostIsLeft(room, prefix, |digits|, spec, precision, before);
      DigitsStand(was, before, digits, After(PreciseSpec(spec, |digits|, precision), |before| + |digits|));
      FieldIs(was, before, digits, PreciseSpec(spec, |digits|, precision));
    }
  }

  lemma DigitsStand(was: string, before: string, digits: string, after: string)
    ensures (was + before + digits + after)[|was| + |before|..|was| + |before| + |digits|] == digits
  {
  }

  /** The room a decimal number needs, separators included. */
  method GroupedSize(absValue: nat, bits: nat, sep: string) returns (size: nat)
    requires bits in [32, 64] && absValue < Modulus(bits)
    ensures size == |Grouped(Decimal(absValue), sep)| >= 1
  {
    CountDigitsIsLength(absValue);
    GroupedLength(Decimal(absValue), sep);
    var numDigits := CountDigitsOf(absValue, bits);
    size := numDigits + |sep| * ((numDigits - 1) / 3);
  }

  class BasicWriter {
    const buffer: MemoryBuffer<char>

    ghost predicate Valid()
      reads buffer
    {
      buffer.Valid()
    }

    ghost function Written(): string
      requires Valid()
      reads buffer, buffer.ptr
    {
      buffer.Contents()
    }

    constructor ()
      ensures Valid() && fresh(buffer) && fresh(buffer.ptr)
      ensures Written() == "" && buffer.Account() == Fresh()
    {
      buffer := new MemoryBuffer<char>();
    }

    /** Grows the buffer by n characters and returns where they start. */
    method GrowBuffer(n: nat) returns (p: nat)
      requires Valid()
      modifies buffer
      ensures Valid() && (if |old(Written())| + n <= old(buffer.capacity) then buffer.ptr == old(buffer.ptr) else fresh(buffer.ptr))
      ensures p == |old(Written())| && |Written()| == p + n && Written()[..p] == old(Written())
      ensures buffer.Account() == old(buffer.Account()).Append(n)
    {
      p := buffer.size;
      buffer.Resize(p + n);
    }

    method WriteStr(t: string)
      requires Valid()
      modifies buffer, buffer.ptr
      ensures Valid() && (buffer.ptr == old(buffer.ptr) || fresh(buffer.ptr))
      ensures Written() == old(Written()) + t
      ensures buffer.Account() == old(buffer.Account()).Append(|t|)
      ensures |old(Written())| + |t| <= old(buffer.capacity) ==>
              && buffer.ptr == old(buffer.ptr)
              && buffer.ptr[buffer.size..] == old(buffer.ptr[buffer.size + |t|..])
    {
      buffer.Append(t);
    }

    method Clear()
      requires Valid()
      modifies buffer`size
      ensures Valid() && Written() == "" && buffer.Account() == old(buffer.Account()).Clear()
    {
      buffer.Clear();
    }

    method WriteUnsignedDecimal(value: nat, bits: nat, prefixSize: nat) returns (p: nat)
      requires Valid() && bits in [32, 64] && value < Modulus(bits)
      modifies buffer, buffer.ptr
      ensures Valid() && (buffer.ptr == old(buffer.ptr) || fresh(buffer.ptr))
      ensures p == |old(Written())| && |Written()| == p + prefixSize + |Decimal(value)|
      ensures Written()[..p] == old(Written()) && Written()[p + prefixSize..] == Decimal(value)
    {
      CountDigitsIsLength(value);
      GroupedByNothing(Decimal(value));
      var numDigits := CountDigitsOf(value, bits);
      p := GrowBuffer(prefixSize + numDigits);
      ghost var grown := buffer.ptr[..];
      var _ := FormatDecimal(buffer.ptr, p + prefixSize, value, numDigits, "");
      PrefixOfSlice(grown, buffer.size, p + prefixSize, buffer.size, Decimal(value), buffer.ptr[..]);
    }

    method PutSign(p: nat)
      requires Valid() && p < |Written()|
      modifies buffer.ptr
      ensures Valid() && Written() == old(Written())[..p] + "-" + old(Written())[p + 1..]
    {
      ghost var was := Written();
      buffer.ptr[p] := '-';
      assert Written() == was[..p] + "-" + was[p + 1..];
    }

    method WriteDecimal(value: int, bits: nat)
      requires Valid() && Fits(value, bits)
      modifies buffer, buffer.ptr
      ensures Valid() && (buffer.ptr == old(buffer.ptr) || fresh(buffer.ptr))
      ensures Written() == old(Written()) + SignedDecimal(value)
    {
      var absValue := Absolute(value, bits);
      if value < 0 {
        var p := WriteUnsignedDecimal(absValue, bits, 1);
        PutSign(p);
      } else {
        var p := WriteUnsignedDecimal(absValue, bits, 0);
        assert Written() == Written()[..p] + Written()[p..];
      }
    }

    // ----- the field around an integer

    static method FillPadding(a: array<char>, p: nat, totalSize: nat, contentSize: nat, fill: char) returns (content: nat)
      requires contentSize <= totalSize && p + totalSize <= a.Length
      modifies a
      ensures var pad := totalSize - contentSize;
              && content == p + pad / 2
              && Laid(old(a[..]), a[..], p, totalSize, Repeat(fill, pad / 2), Repeat(fill, pad - pad / 2))
    {
      hide Laid, Repeat, Pasted;
      ghost var start := a[..];
      var padding := totalSize - contentSize;
      var leftPadding := padding / 2;
      Fill(a, p, p + leftPadding, fill);
      ghost var left := a[..];
      content := p + leftPadding;
      ghost var before, after := Repeat(fill, leftPadding), Repeat(fill, padding - leftPadding);
      assert content + contentSize == p + totalSize - |after|;
      Fill(a, content + contentSize, content + contentSize + (padding - leftPadding), fill);
      LaidByTwo(start, left, a[..], p, totalSize, before, after);
    }

    /** `p` is where an area of the field's width starts; the result is one past the
        last digit. */
    static method PlaceLeft(a: array<char>, p: nat, numDigits: nat, spec: IntSpec, prefix: string) returns (q: nat)
      requires spec.align == AlignLeft && |prefix| + numDigits < spec.width && p + spec.width <= a.Length
      modifies a
      ensures q == p + |prefix| + numDigits
      ensures Laid(old(a[..]), a[..], p, spec.width,
                   Before(spec, prefix, |prefix| + numDigits), After(spec, |prefix| + numDigits))
    {
      hide Laid, Repeat, Pasted;
      ghost var start := a[..];
      Copy(a, p, prefix);
      ghost var first := a[..];
      q := p + (|prefix| + numDigits);
      Fill(a, q, p + spec.width, spec.fill);
      LaidByTwo(start, first, a[..], p, spec.width, prefix, After(spec, |prefix| + numDigits));
    }

    static method PlaceCenter(a: array<char>, p: nat, numDigits: nat, spec: IntSpec, prefix: string) returns (q: nat)
      requires spec.align == AlignCenter && |prefix| + numDigits < spec.width && p + spec.width <= a.Length
      modifies a
      ensures q == p + |Before(spec, prefix, |prefix| + numDigits)| + numDigits
      ensures Laid(old(a[..]), a[..], p, spec.width,
                   Before(spec, prefix, |prefix| + numDigits), After(spec, |prefix| + numDigits))
    {
      hide Laid, Before, After, Repeat, Pasted;
      var size := |prefix| + numDigits;
      ghost var start := a[..];
      q := FillPadding(a, p, spec.width, size, spec.fill);
      ghost var padded := a[..];
      Copy(a, q, prefix);
      CenterLaid(start, padded, a[..], p, spec, prefix, size);
      q := q + size;
    }

    static method PlaceNumeric(a: array<char>, p: nat, numDigits: nat, spec: IntSpec, prefix: string) returns (q: nat)
      requires spec.align == AlignNumeric && |prefix| + numDigits < spec.width && p + spec.width <= a.Length
      modifies a
      ensures q == p + spec.width
      ensures Laid(old(a[..]), a[..], p, spec.width,
                   Before(spec, prefix, |prefix| + numDigits), After(spec, |prefix| + numDigits))
    {
      hide Laid, Repeat, Pasted;
      ghost var start := a[..];
      q := p;
      if prefix != "" {
        Copy(a, q, prefix);
        q := q + |prefix|;
      }
      ghost var first := a[..];
      Fill(a, q, p + spec.width - numDigits, spec.fill);
      LaidFrontBack(start, first, a[..], p, spec.width, prefix,
                    Repeat(spec.fill, Padding(spec, |prefix| + numDigits)));
      q := p + spec.width;
    }

    static method PlaceRight(a: array<char>, p: nat, numDigits: nat, spec: IntSpec, prefix: string) returns (q: nat)
      requires spec.align in [DefaultAlign, AlignRight]
      requires |prefix| + numDigits < spec.width && p + spec.width <= a.Length
      modifies a
      ensures q == p + spec.width
      ensures Laid(old(a[..]), a[..], p, spec.width,
                   Before(spec, prefix, |prefix| + numDigits), After(spec, |prefix| + numDigits))
    {
      hide Laid, Repeat, Pasted;
      ghost var start := a[..];
      q := p + spec.width;
      Copy(a, q - (|prefix| + numDigits), prefix);
      ghost var first := a[..];
      Fill(a, p, q - (|prefix| + numDigits), spec.fill);
      LaidBackFront(start, first, a[..], p, spec.width,
                    Repeat(spec.fill, Padding(spec, |prefix| + numDigits)), prefix);
    }

    static method Place(a: array<char>, p: nat, numDigits: nat, spec: IntSpec, prefix: string) returns (q: nat)
      requires |prefix| + numDigits < spec.width && p + spec.width <= a.Length
      modifies a
      ensures q == p + |Before(spec, prefix, |prefix| + numDigits)| + numDigits
      ensures q + |After(spec, |prefix| + numDigits)| == p + spec.width
      ensures Laid(old(a[..]), a[..], p, spec.width,
                   Before(spec, prefix, |prefix| + numDigits), After(spec, |prefix| + numDigits))
    {
      if spec.align == AlignLeft {
        q := PlaceLeft(a, p, numDigits, spec, prefix);
      } else if spec.align == AlignCenter {
        q := PlaceCenter(a, p, numDigits, spec, prefix);
      } else if spec.align == AlignNumeric {
        q := PlaceNumeric(a, p, numDigits, spec, prefix);
      } else {
        q := PlaceRight(a, p, numDigits, spec, prefix);
      }
    }

    static method PlaceUnpadded(a: array<char>, p: nat, size: nat, spec: IntSpec, prefix: string)
      requires spec.width <= size && |prefix| <= size && p + size <= a.Length
      modifies a
      ensures Before(spec, prefix, size) == prefix && After(spec, size) == ""
      ensures Laid(old(a[..]), a[..], p, size, prefix, "")
    {
      hide Laid, Repeat, Pasted, Before, After;
      ghost var start := a[..];
      Copy(a, p, prefix);
      LaidOnce(start, a[..], p, size, prefix);
      NoPadding(spec, prefix, size);
    }

    /** Lays out an area just as wide as the field. */
    static method PlaceInArea(a: array<char>, p: nat, area: nat, numDigits: nat, spec: IntSpec, prefix: string) returns (last: nat)
      requires numDigits >= 1 && p + area <= a.Length
      requires var size := |prefix| + numDigits; area == if spec.width <= size then size else spec.width
      modifies a
      ensures p + |Before(spec, prefix, |prefix| + numDigits)| + numDigits == last + 1
      ensures last + 1 + |After(spec, |prefix| + numDigits)| == p + area
      ensures Laid(old(a[..]), a[..], p, area,
                   Before(spec, prefix, |prefix| + numDigits), After(spec, |prefix| + numDigits))
    {
      hide Laid, Before, After, Repeat;
      var size := |prefix| + numDigits;
      if spec.width <= size {
        PlaceUnpadded(a, p, size, spec, prefix);
        return p + size - 1;
      }
      var q := Place(a, p, numDigits, spec, prefix);
      return q - 1;
    }

    /** Without a precision: lays out everything but the digits, whose places keep what
        the storage holds there. */
    method PrepareAligned(numDigits: nat, spec: IntSpec, prefix: string) returns (last: nat, ghost held: string)
      requires Valid() && numDigits >= 1
      modifies buffer, buffer.ptr
      ensures var size := |prefix| + numDigits; var area := if spec.width <= size then size else spec.width;
              && Valid() && buffer.Account() == old(buffer.Account()).Append(area)
              && (if |old(Written())| + area <= old(buffer.capacity) then
                    buffer.ptr == old(buffer.ptr) && last < buffer.ptr.Length && numDigits <= last + 1
                    && held == old(buffer.ptr[..])[last + 1 - numDigits..last + 1]
                  else fresh(buffer.ptr))
      ensures var size := |prefix| + numDigits;
              && |held| == numDigits
              && |old(Written())| + |Before(spec, prefix, size)| + numDigits == last + 1
              && Written() == old(Written()) + Before(spec, prefix, size) + held + After(spec, size)
    {
      hide Laid, Before, After, Repeat, NextCapacity;
      var size := |prefix| + numDigits;
      var area := if spec.width <= size then size else spec.width;
      ghost var before, after := Before(spec, prefix, size), After(spec, size);
      var p := GrowBuffer(area);
      var a := buffer.ptr;
      ghost var start := a[..];
      last := PlaceInArea(a, p, area, numDigits, spec, prefix);
      held := start[p + |before|..p + area - |after|];
      LaidContents(start, a[..], p, area, before, after);
    }

    /** Everything but the digits. The result is the storage that holds the place of
        the last digit, and its index there. */
    method PrepareIntBuffer(numDigits: nat, spec: IntSpec, precision: int, prefix: string)
      returns (place: array<char>, last: nat, ghost held: string)
      requires Valid() && numDigits >= 1
      modifies buffer, buffer.ptr
      ensures Valid() && (buffer.ptr == old(buffer.ptr) || fresh(buffer.ptr))
      ensures (place == old(buffer.ptr) || fresh(place)) && numDigits <= last + 1 <= place.Length
      ensures place != buffer.ptr <==> DigitsAreLost(old(buffer.Account()), prefix, numDigits, spec, precision)
      ensures var before := PrecisePrefix(prefix, numDigits, precision);
              var spec', size := PreciseSpec(spec, numDigits, precision), |before| + numDigits;
              && |held| == numDigits
              && |old(Written())| + |Before(spec', before, size)| + numDigits == last + 1
              && Written() == old(Written()) + Before(spec', before, size) + held + After(spec', size)
      ensures DigitsAreLost(old(buffer.Account()), prefix, numDigits, spec, precision) &&
              StorageStays(old(buffer.Account()), prefix, spec, precision) ==>
              last < old(buffer.ptr.Length) && held == old(buffer.ptr[..])[last + 1 - numDigits..last + 1]
    {
      hide Before, After, FillMovesBuffer, StorageStays;
      if precision > numDigits {
        place, last, held := PrepareWithPrecision(numDigits, spec, precision, prefix);
      } else {
        last, held := PrepareAligned(numDigits, spec, prefix);
        place := buffer.ptr;
      }
    }

    method AppendFill(n: nat, fill: char)
      requires Valid()
      modifies buffer, buffer.ptr
      ensures Valid() && (if |old(Written())| + n <= old(buffer.capacity) then buffer.ptr == old(buffer.ptr) else fresh(buffer.ptr))
      ensures Written() == old(Written()) + Repeat(fill, n)
      ensures buffer.Account() == old(buffer.Account()).Append(n)
    {
      ghost var was := Written();
      var p := GrowBuffer(n);
      Fill(buffer.ptr, p, p + n, fill);
      assert Written() == was + Repeat(fill, n);
    }

    /** The number with its zeros, and no fill: the nested call with the number's own
        specification, which has no precision. */
    method PrepareNumber(numDigits: nat, precision: nat, prefix: string)
      returns (place: array<char>, last: nat, ghost held: string)
      requires Valid() && 1 <= numDigits < precision
      modifies buffer, buffer.ptr
      ensures Valid() && place == buffer.ptr && last < place.Length && numDigits <= last + 1
      ensures buffer.Account() == old(buffer.Account()).Append(|prefix| + precision)
      ensures if |old(Written())| + |prefix| + precision <= old(buffer.capacity) then
                && buffer.ptr == old(buffer.ptr)
                && held == old(buffer.ptr[..])[last + 1 - numDigits..last + 1]
              else fresh(buffer.ptr)
      ensures |held| == numDigits && |old(Written())| + |prefix| + precision == last + 1
      ensures Written() == old(Written()) + prefix + Repeat('0', precision - numDigits) + held
    {
      hide Before, After;
      NumberPlaced(prefix, numDigits, precision);
      last, held := PrepareAligned(numDigits, NumberSpec(|prefix| + precision), prefix);
      place := buffer.ptr;
    }

    method PrepareWithPrecision(numDigits: nat, spec: IntSpec, precision: nat, prefix: string)
      returns (place: array<char>, last: nat, ghost held: string)
      requires Valid() && 1 <= numDigits < precision
      modifies buffer, buffer.ptr
      ensures Valid() && (buffer.ptr == old(buffer.ptr) || fresh(buffer.ptr))
      ensures (place == old(buffer.ptr) || fresh(place)) && numDigits <= last + 1 <= place.Length
      ensures place != buffer.ptr <==> DigitsAreLost(old(buffer.Account()), prefix, numDigits, spec, precision)
      ensures var before := PrecisePrefix(prefix, numDigits, precision);
              var spec', size := PreciseSpec(spec, numDigits, precision), |before| + numDigits;
              && |held| == numDigits
              && |old(Written())| + |Before(spec', before, size)| + numDigits == last + 1
              && Written() == old(Written()) + Before(spec', before, size) + held + After(spec', size)
      ensures DigitsAreLost(old(buffer.Account()), prefix, numDigits, spec, precision) &&
              StorageStays(old(buffer.Account()), prefix, spec, precision) ==>
              last < old(buffer.ptr.Length) && held == old(buffer.ptr[..])[last + 1 - numDigits..last + 1]
    {
      hide WithoutMark, Repeat, DigitsAreLost, NextCapacity, Before, After, PrecisePrefix, PreciseSpec;
      var kept := WithoutMark(prefix);
      var numberSize := |kept| + precision;
      ghost var room, was, zeros := buffer.Account(), Written(), Repeat('0', precision - numDigits);
      PrecisePlaced(spec, numDigits, precision, prefix, Repeat(spec.fill, Padding(spec, numberSize)));
      if numberSize >= spec.width {
        place, last, held := PrepareNumber(numDigits, precision, kept);
        FillInFront(was, "", kept, zeros, held);
        NothingIsLost(room, prefix, numDigits, spec, precision);
        return;
      }
      buffer.Reserve(spec.width);
      var fillSize := spec.width - numberSize;
      if spec.align != AlignLeft {
        place, last, held := FillThenNumber(numDigits, precision, kept, fillSize, spec.fill);
        NothingIsLost(room, prefix, numDigits, spec, precision);
      } else {
        place, last, held := NumberThenFill(numDigits, precision, kept, fillSize, spec.fill);
        LostIsFilledOver(room, prefix, numDigits, spec, precision);
      }
    }

    method FillThenNumber(numDigits: nat, precision: nat, kept: string, fillSize: nat, fill: char)
      returns (place: array<char>, last: nat, ghost held: string)
      requires Valid() && 1 <= numDigits < precision
      modifies buffer, buffer.ptr
      ensures Valid() && (buffer.ptr == old(buffer.ptr) || fresh(buffer.ptr))
      ensures place == buffer.ptr && numDigits <= last + 1 <= place.Length
      ensures |held| == numDigits && |old(Written())| + fillSize + |kept| + precision == last + 1
      ensures Written() == old(Written()) + (Repeat(fill, fillSize) + (kept + Repeat('0', precision - numDigits))) + held + ""
    {
      hide Repeat;
      ghost var was := Written();
      AppendFill(fillSize, fill);
      place, last, held := PrepareNumber(numDigits, precision, kept);
      FillInFront(was, Repeat(fill, fillSize), kept, Repeat('0', precision - numDigits), held);
    }

    /** The fill may move the buffer away from the place of the digits. */
    method NumberThenFill(numDigits: nat, precision: nat, kept: string, fillSize: nat, fill: char)
      returns (place: array<char>, last: nat, ghost held: string)
      requires Valid() && 1 <= numDigits < precision
      modifies buffer, buffer.ptr
      ensures Valid() && (buffer.ptr == old(buffer.ptr) || fresh(buffer.ptr))
      ensures (place == old(buffer.ptr) || fresh(place)) && numDigits <= last + 1 <= place.Length
      ensures var placed := old(buffer.Account()).Append(|kept| + precision);
              place != buffer.ptr <==> placed.size + fillSize > placed.capacity
      ensures |held| == numDigits && |old(Written())| + |kept| + precision == last + 1
      ensures Written() == old(Written()) + (kept + Repeat('0', precision - numDigits)) + held + Repeat(fill, fillSize)
      ensures |old(Written())| + |kept| + precision <= old(buffer.capacity) ==>
              last < old(buffer.ptr.Length) && held == old(buffer.ptr[..])[last + 1 - numDigits..last + 1]
    {
      hide Repeat;
      ghost var was := Written();
      place, last, held := PrepareNumber(numDigits, precision, kept);
      AppendFill(fillSize, fill);
      FillBehind(was, kept, Repeat('0', precision - numDigits), held);
    }

    /** The digits, as many as counted, backward from their last place. */
    static method WriteDigitsAt(place: array<char>, last: nat, absValue: nat, typ: char, sep: string, ghost text: string)
      requires |text| <= last + 1 <= place.Length
      requires text == if typ in "xXbBo" then Numeral(absValue, Base(typ), typ == 'X')
                       else Grouped(Decimal(absValue), sep)
      modifies place
      ensures Pasted(old(place[..]), place[..], last + 1 - |text|, text)
    {
      hide Grouped, Numeral;
      if typ in "xXbBo" {
        WriteShifted(place, last, absValue, typ);
      } else {
        var _ := FormatDecimal(place, last + 1, absValue, 0, sep);
      }
      assert place[..] == old(place[..])[..last + 1 - |text|] + text + old(place[..])[last + 1..];
    }

    /** A decimal field; with the empty separator nothing is interleaved. */
    method WriteDecimalField(absValue: nat, bits: nat, spec: IntSpec, precision: int, prefix: string, sep: string)
      requires Valid() && bits in [32, 64] && absValue < Modulus(bits) && spec.typ !in "xXbBo"
      modifies buffer, buffer.ptr
      ensures Valid() && (buffer.ptr == old(buffer.ptr) || fresh(buffer.ptr))
      ensures FieldWritten(old(Written()), old(buffer.Account()), old(buffer.ptr[..]), Written(),
                           prefix, Grouped(Decimal(absValue), sep), spec, precision)
    {
      var size := GroupedSize(absValue, bits, sep);
      ghost var text := Grouped(Decimal(absValue), sep);
      WriteField(size, absValue, spec, precision, prefix, sep, text);
    }

    method WriteShiftedField(absValue: nat, spec: IntSpec, precision: int, prefix: string)
      requires Valid() && spec.typ in "xXbBo"
      modifies buffer, buffer.ptr
      ensures Valid() && (buffer.ptr == old(buffer.ptr) || fresh(buffer.ptr))
      ensures FieldWritten(old(Written()), old(buffer.Account()), old(buffer.ptr[..]), Written(),
                           prefix, Numeral(absValue, Base(spec.typ), spec.typ == 'X'), spec, precision)
    {
      var numDigits := CountShifts(absValue, spec.typ);
      ghost var text := Numeral(absValue, Base(spec.typ), spec.typ == 'X');
      WriteField(numDigits, absValue, spec, precision, prefix, "", text);
    }

    /** Prepares the field and writes the digits where they were to go. */
    method WriteField(numDigits: nat, absValue: nat, spec: IntSpec, precision: int, prefix: string, sep: string,
                      ghost text: string)
      requires Valid() && numDigits == |text| >= 1
      requires text == if spec.typ in "xXbBo" then Numeral(absValue, Base(spec.typ), spec.typ == 'X')
                       else Grouped(Decimal(absValue), sep)
      modifies buffer, buffer.ptr
      ensures Valid() && (buffer.ptr == old(buffer.ptr) || fresh(buffer.ptr))
      ensures FieldWritten(old(Written()), old(buffer.Account()), old(buffer.ptr[..]), Written(), prefix, text, spec, precision)
    {
      hide Before, After, Field, PrecisePrefix, Grouped, Numeral, DigitsAreLost, StorageStays, FieldWritten, Pasted;
      ghost var was, room, storage := Written(), buffer.Account(), buffer.ptr[..];
      var place, last, held := PrepareIntBuffer(numDigits, spec, precision, prefix);
      ghost var before, spec' := PrecisePrefix(prefix, numDigits, precision), PreciseSpec(spec, numDigits, precision);
      ghost var size := |before| + numDigits;
      ghost var whole := place[..];
      WriteDigitsAt(place, last, absValue, spec.typ, sep, text);
      if place == buffer.ptr {
        PastedInContents(whole, place[..], last + 1 - |text|, text, buffer.size);
        DigitsGoIn(was, Before(spec', before, size), held, After(spec', size), last, text, Written());
        FieldIs(was, before, text, spec');
        FieldInPlace(was, room, storage, Written(), prefix, text, spec, precision);
      } else {
        LostIsLeft(room, prefix, numDigits, spec, precision, before);
        FieldIs(was, before, held, spec');
        FieldMissed(was, room, storage, Written(), prefix, text, spec, precision, held, last);
      }
    }

    /** False for a type letter the formatter reports as unknown; then nothing is
        written. */
    method WriteInt(value: int, bits: nat, spec: IntSpec, precision: int, sep: string) returns (known: bool)
      requires Valid() && Fits(value, bits)
      modifies buffer, buffer.ptr
      ensures Valid() && (buffer.ptr == old(buffer.ptr) || fresh(buffer.ptr))
      ensures known <==> IsIntegerType(spec.typ)
      ensures known ==>
              FieldWritten(old(Written()), old(buffer.Account()), old(buffer.ptr[..]), Written(),
                           Prefix(value, spec), Digits(value, spec, sep), spec, precision)
      ensures !known ==> Written() == old(Written())
    {
      hide FieldWritten, Grouped, Numeral;
      var prefix := "";
      var absValue := Absolute(value, bits);
      if value < 0 {
        prefix := "-";
      } else if spec.signFlag {
        prefix := if spec.plusFlag then "+" else " ";
      }
      ghost var sign := prefix;
      if spec.typ == '\0' || spec.typ == 'd' {
        GroupedByNothing(Decimal(absValue));
        WriteDecimalField(absValue, bits, spec, precision, prefix, "");
      } else if spec.typ in "xX" || spec.typ in "bB" {
        if spec.hashFlag {
          prefix := prefix + ['0', spec.typ];
        }
        WriteShiftedField(absValue, spec, precision, prefix);
      } else if spec.typ == 'o' {
        if spec.hashFlag {
          prefix := prefix + "0";
        }
        WriteShiftedField(absValue, spec, precision, prefix);
      } else if spec.typ == 'n' {
        WriteDecimalField(absValue, bits, spec, precision, prefix, sep);
      } else {
        return false;
      }
      assert prefix == sign + BasePart(spec);
      return true;
    }
  }

  // ----- an instance

  const LEFT_IN_FORTY: IntSpec := IntSpec(40, ' ', AlignLeft, false, false, false, false, 'd')

  lemma SevenIsLostIn(was: string, room: Account, storage: string, now: string)
    requires |was| == 480 == room.size && room.capacity == 500 == |storage| && storage[480..] == Repeat('?', 20)
    requires FieldWritten(was, room, storage, now, Prefix(7, LEFT_IN_FORTY), Digits(7, LEFT_IN_FORTY, ""), LEFT_IN_FORTY, 12)
    ensures now == was + (Repeat('0', 11) + "?" + Repeat(' ', 28))
    ensures now != was + PreciseIntField(7, LEFT_IN_FORTY, 12, "")
  {
    hide FieldWritten, Before, After, PrecisePrefix, Repeat, Prefix, Digits, NextCapacity;
    var spec, prefix, digits := LEFT_IN_FORTY, Prefix(7, LEFT_IN_FORTY), Digits(7, LEFT_IN_FORTY, "");
    PartsOfSeven();
    LostIff(room, prefix, 1, spec, 12);
    assert StorageStays(room, prefix, spec, 12);
    assert DigitPlace(was, prefix, 1, 12) == 491;
    HeldMark(storage);
    FieldIsWrittenIff(was, room, storage, now, prefix, digits, spec, 12);
    LostFieldIs(was, room, storage, now, prefix, digits, spec, 12);
    LostIsLeft(room, prefix, 1, spec, 12, Repeat('0', 11));
    BehindIsFill(spec, 12);
  }

  lemma PartsOfSeven()
    ensures var prefix := Prefix(7, LEFT_IN_FORTY);
            prefix == "" && PrecisePrefix(prefix, 1, 12) == Repeat('0', 11) && NumberSize(prefix, 12) == 12
    ensures Digits(7, LEFT_IN_FORTY, "") == "7"
  {
    assert "" + Repeat('0', 11) == Repeat('0', 11);
  }

  lemma HeldMark(storage: string)
    requires |storage| == 500 && storage[480..] == Repeat('?', 20)
    ensures storage[491..492] == "?"
  {
    assert storage[491] == storage[480..][11];
  }

  lemma LostFieldIs(was: string, room: Account, storage: string, now: string,
                    prefix: string, digits: string, spec: IntSpec, precision: int)
    requires FieldWritten(was, room, storage, now, prefix, digits, spec, precision)
    requires DigitsAreLost(room, prefix, |digits|, spec, precision) && StorageStays(room, prefix, spec, precision)
    ensures var at := DigitPlace(was, prefix, |digits|, precision);
            && at + |digits| <= |storage|
            && now == was + PreciseField(prefix, storage[at..at + |digits|], spec, precision)
  {
  }

  lemma BehindIsFill(spec: IntSpec, size: nat)
    requires spec.align == AlignLeft && size <= spec.width
    ensures After(spec, size) == Repeat(spec.fill, spec.width - size)
  {
  }

  /** A writer of `n` characters x that has held `all` characters, question marks. */
  method UsedWriter(n: nat, all: nat) returns (w: BasicWriter)
    requires n <= all <= INLINE_BUFFER_SIZE
    ensures fresh(w) && w.Valid() && fresh(w.buffer) && fresh(w.buffer.ptr)
    ensures w.Written() == Repeat('x', n) && w.buffer.capacity == INLINE_BUFFER_SIZE == w.buffer.ptr.Length
    ensures w.buffer.ptr[n..all] == Repeat('?', all - n)
  {
    hide Repeat;
    w := new BasicWriter();
    w.WriteStr(Repeat('?', all));
    ghost var whole := w.buffer.ptr[..];
    assert whole[..all] == "" + Repeat('?', all);
    w.Clear();
    w.WriteStr(Repeat('x', n));
    assert w.Written() == "" + Repeat('x', n);
    assert w.buffer.ptr[n..all] == whole[..all][n..];
    TailOfRepeat('?', all, n);
  }

  /** "%-40.12d" of 7 behind 480 characters. The number takes the buffer to 492 of its
      500 characters, the fill behind it makes the buffer grow, and the 7 goes where
      the buffer no longer is. */
  method SevenIsLost() returns (w: BasicWriter)
    ensures w.Valid()
    ensures w.Written() == Repeat('x', 480) + (Repeat('0', 11) + "?" + Repeat(' ', 28))
    ensures w.Written() != Repeat('x', 480) + PreciseIntField(7, LEFT_IN_FORTY, 12, "")
  {
    hide FieldWritten, Repeat, PreciseIntField, Prefix, Digits;
    w := UsedWriter(480, 500);
    ghost var was, room, storage := w.Written(), w.buffer.Account(), w.buffer.ptr[..];
    assert storage[480..] == w.buffer.ptr[480..500];
    var known := w.WriteInt(7, 32, LEFT_IN_FORTY, 12, "");
    SevenIsLostIn(was, room, storage, w.Written());
  }

  lemma TailOfRepeat(c: char, n: nat, k: nat)
    requires k <= n
    ensures Repeat(c, n)[k..] == Repeat(c, n - k)
  {
  }
}
