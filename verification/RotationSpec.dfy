/** The rotating sink over a file system that is a map: one write, one rotation, and
    what every run of writes keeps. */
module RotationSpec {
  import opened Numerals

  type Files = map<string, string>

  /** The sink's parameters: base name, size limit, number of older files. */
  datatype Config = Config(base: string, maxSize: nat, maxFiles: nat)

  datatype Sink = Sink(files: Files, currentSize: nat)

  function CalcFilename(base: string, index: nat): string {
    if index != 0 then base + "." + Decimal(index) else base
  }

  /** No two files of the family share a name. */
  lemma FilenamesDiffer(base: string, i: nat, j: nat)
    ensures CalcFilename(base, i) == CalcFilename(base, j) <==> i == j
  {
    if i != 0 && j != 0 && CalcFilename(base, i) == CalcFilename(base, j) {
      assert CalcFilename(base, i)[|base| + 1..] == Decimal(i);
      assert CalcFilename(base, j)[|base| + 1..] == Decimal(j);
      NumeralIsInjective(i, j, 10, false);
    }
  }

  /** The current file has the base's own name, an older one the base's name, a point
      and its number without leading zeros. */
  lemma FilenameIs(base: string, i: nat)
    ensures CalcFilename(base, 0) == base
    ensures i > 0 ==>
            var name := CalcFilename(base, i);
            && |name| > |base| + 1 && name[..|base| + 1] == base + "."
            && (forall k | |base| < k < |name| :: IsDigit(name[k])) && name[|base| + 1] != '0'
            && Value(name[|base| + 1..], 10) == i
    ensures CalcFilename("log.txt", 7) == "log.txt.7"
  {
    if i > 0 {
      assert CalcFilename(base, i)[|base| + 1..] == Decimal(i);
      ValueOfNumeral(i, 10, false);
      NoLeadingZero(i, 10, false);
    }
  }

  /** `remove` the target if it exists, `rename` the source if it exists. */
  function MoveOver(files: Files, src: string, target: string): Files {
    if src in files then (files - {src, target})[target := files[src]] else files - {target}
  }

  /** From file i down: each takes the place of the one after it. */
  function Shift(files: Files, base: string, i: nat): Files
    decreases i
  {
    if i == 0 then files
    else Shift(MoveOver(files, CalcFilename(base, i - 1), CalcFilename(base, i)), base, i - 1)
  }

  /** Shift, then reopen the base file truncated. */
  function Rotate(files: Files, c: Config): Files {
    Shift(files, c.base, c.maxFiles)[c.base := ""]
  }

  predicate Overflows(st: Sink, msg: string, c: Config) {
    st.currentSize + |msg| > c.maxSize
  }

  /** Missing files count as empty. */
  function Content(files: Files, base: string, index: nat): string {
    var name := CalcFilename(base, index);
    if name in files then files[name] else ""
  }

  function Write(st: Sink, msg: string, c: Config): Sink {
    if Overflows(st, msg, c) then
      Sink(Rotate(st.files, c)[c.base := msg], |msg|)
    else
      Sink(st.files[c.base := Content(st.files, c.base, 0) + msg], st.currentSize + |msg|)
  }

  function Run(st: Sink, msgs: seq<string>, c: Config): Sink {
    if msgs == [] then st else Write(Run(st, msgs[..|msgs| - 1], c), msgs[|msgs| - 1], c)
  }

  /** Opening appends: an existing base file keeps its contents and size. */
  function Opened(files: Files, c: Config): Sink {
    var content := Content(files, c.base, 0);
    Sink(files[c.base := content], |content|)
  }

  // ----- one rotation, file by file

  /** File k becomes file k + 1, the oldest is gone, nothing else moves. */
  ghost predicate ShiftedBy(before: Files, after: Files, base: string, n: nat) {
    && (forall k: nat | 1 <= k <= n ::
          (CalcFilename(base, k) in after <==> CalcFilename(base, k - 1) in before) &&
          (CalcFilename(base, k) in after ==> after[CalcFilename(base, k)] == before[CalcFilename(base, k - 1)]))
    && (forall name | (forall k: nat | k <= n :: name != CalcFilename(base, k)) ::
          (name in after <==> name in before) && (name in after ==> after[name] == before[name]))
  }

  lemma {:induction false} ShiftMovesFiles(files: Files, base: string, n: nat)
    ensures ShiftedBy(files, Shift(files, base, n), base, n)
    decreases n
  {
    if n > 0 {
      var src, target := CalcFilename(base, n - 1), CalcFilename(base, n);
      var moved := MoveOver(files, src, target);
      var after := Shift(files, base, n);
      ShiftMovesFiles(moved, base, n - 1);
      forall k: nat | 1 <= k <= n
        ensures CalcFilename(base, k) in after <==> CalcFilename(base, k - 1) in files
        ensures CalcFilename(base, k) in after ==> after[CalcFilename(base, k)] == files[CalcFilename(base, k - 1)]
      {
        NamesApart(base, k, n);
        if k == n {
          TargetIsKept(base, n);
        }
      }
      forall name | (forall k: nat | k <= n :: name != CalcFilename(base, k))
        ensures (name in after <==> name in files) && (name in after ==> after[name] == files[name])
      {
        assert name != src && name != target;
      }
    }
  }

  lemma NamesApart(base: string, k: nat, n: nat)
    requires 1 <= k <= n
    ensures CalcFilename(base, k - 1) != CalcFilename(base, n)
    ensures k < n ==> CalcFilename(base, k - 1) != CalcFilename(base, n - 1)
  {
    FilenamesDiffer(base, k - 1, n);
    FilenamesDiffer(base, k - 1, n - 1);
  }

  lemma TargetIsKept(base: string, n: nat)
    ensures forall k: nat | k < n :: CalcFilename(base, n) != CalcFilename(base, k)
  {
    forall k: nat | k < n
      ensures CalcFilename(base, n) != CalcFilename(base, k)
    {
      FilenamesDiffer(base, n, k);
    }
  }

  // ----- what is retained

  function Retained(files: Files, base: string, n: nat): string {
    if n == 0 then Content(files, base, 0) else Content(files, base, n) + Retained(files, base, n - 1)
  }

  function Joined(msgs: seq<string>): string {
    if msgs == [] then "" else Joined(msgs[..|msgs| - 1]) + msgs[|msgs| - 1]
  }

  /** The contents of the files that rotations discarded, oldest first. */
  function Dropped(st: Sink, msgs: seq<string>, c: Config): string {
    if msgs == [] then ""
    else
      var before := Run(st, msgs[..|msgs| - 1], c);
      Dropped(st, msgs[..|msgs| - 1], c) +
      if Overflows(before, msgs[|msgs| - 1], c) then Content(before.files, c.base, c.maxFiles) else ""
  }

  ghost predicate Valid(st: Sink, c: Config) {
    c.base in st.files && st.currentSize == |st.files[c.base]|
  }

  lemma RotatedContent(files: Files, c: Config, k: nat)
    requires k <= c.maxFiles
    ensures Content(Rotate(files, c), c.base, k) == if k == 0 then "" else Content(files, c.base, k - 1)
  {
    ShiftMovesFiles(files, c.base, c.maxFiles);
    FilenamesDiffer(c.base, k, 0);
  }

  lemma {:induction false} RetainedAfterRotation(files: Files, c: Config, k: nat)
    requires 1 <= k <= c.maxFiles
    ensures Retained(Rotate(files, c), c.base, k) == Retained(files, c.base, k - 1)
  {
    RotatedContent(files, c, k);
    if k > 1 {
      RetainedAfterRotation(files, c, k - 1);
    } else {
      RotatedContent(files, c, 0);
      assert Retained(Rotate(files, c), c.base, 0) == "";
    }
  }

  lemma {:induction false} RetainedAfterAppend(files: Files, c: Config, t: string, k: nat)
    ensures Retained(files[c.base := Content(files, c.base, 0) + t], c.base, k) == Retained(files, c.base, k) + t
  {
    if k > 0 {
      FilenamesDiffer(c.base, k, 0);
      RetainedAfterAppend(files, c, t, k - 1);
    }
  }

  /** A rotation discards exactly the oldest file. */
  lemma RotationDropsOldest(files: Files, c: Config)
    ensures Retained(files, c.base, c.maxFiles) ==
            Content(files, c.base, c.maxFiles) + Retained(Rotate(files, c), c.base, c.maxFiles)
  {
    if c.maxFiles > 0 {
      RetainedAfterRotation(files, c, c.maxFiles);
    } else {
      RotatedContent(files, c, 0);
      assert Retained(Rotate(files, c), c.base, 0) == "";
    }
  }

  lemma WriteConserves(st: Sink, msg: string, c: Config)
    ensures Retained(st.files, c.base, c.maxFiles) + msg ==
            (if Overflows(st, msg, c) then Content(st.files, c.base, c.maxFiles) else "") +
            Retained(Write(st, msg, c).files, c.base, c.maxFiles)
  {
    hide Retained, Rotate, Content;
    if Overflows(st, msg, c) {
      RotationDropsOldest(st.files, c);
      AfterRotation(st.files, msg, c);
    } else {
      RetainedAfterAppend(st.files, c, msg, c.maxFiles);
    }
  }

  lemma AfterRotation(files: Files, msg: string, c: Config)
    ensures Retained(Rotate(files, c)[c.base := msg], c.base, c.maxFiles) ==
            Retained(Rotate(files, c), c.base, c.maxFiles) + msg
  {
    hide Retained, Rotate;
    RotatedContent(files, c, 0);
    RetainedAfterAppend(Rotate(files, c), c, msg, c.maxFiles);
    assert "" + msg == msg;
  }

  lemma Chained(start: string, joined: string, msg: string, dropped: string, was: string, gone: string, now: string)
    requires start + joined == dropped + was && was + msg == gone + now
    ensures start + (joined + msg) == (dropped + gone) + now
  {
    assert start + (joined + msg) == (start + joined) + msg == dropped + (was + msg);
  }

  /** Over every run the files, oldest first, are a suffix of what was there followed
      by all messages; what is missing is whole oldest files, and the recorded size is
      that of the current file. */
  lemma {:induction false} RunConserves(st: Sink, msgs: seq<string>, c: Config)
    requires Valid(st, c)
    ensures Valid(Run(st, msgs, c), c)
    ensures Retained(st.files, c.base, c.maxFiles) + Joined(msgs) ==
            Dropped(st, msgs, c) + Retained(Run(st, msgs, c).files, c.base, c.maxFiles)
  {
    if msgs != [] {
      var front, last := msgs[..|msgs| - 1], msgs[|msgs| - 1];
      RunConserves(st, front, c);
      var before := Run(st, front, c);
      WriteConserves(before, last, c);
      Chained(Retained(st.files, c.base, c.maxFiles), Joined(front), last, Dropped(st, front, c),
              Retained(before.files, c.base, c.maxFiles),
              if Overflows(before, last, c) then Content(before.files, c.base, c.maxFiles) else "",
              Retained(Run(st, msgs, c).files, c.base, c.maxFiles));
    } else {
      assert Joined(msgs) == "" && Dropped(st, msgs, c) == "";
    }
  }

  /** After each write the current file is within the limit or is that message alone. */
  lemma CurrentFileIsBounded(st: Sink, msgs: seq<string>, c: Config)
    requires Valid(st, c) && msgs != []
    ensures var file := Content(Run(st, msgs, c).files, c.base, 0);
            |file| <= c.maxSize || file == msgs[|msgs| - 1]
  {
    RunConserves(st, msgs[..|msgs| - 1], c);
  }

  ghost predicate WithinLimit(files: Files, msgs: seq<string>, c: Config) {
    forall k: nat | k <= c.maxFiles ::
      |Content(files, c.base, k)| <= c.maxSize || Content(files, c.base, k) in msgs
  }

  lemma OlderFile(st: Sink, msg: string, c: Config, k: nat)
    requires 1 <= k <= c.maxFiles
    ensures Content(Write(st, msg, c).files, c.base, k) ==
            Content(st.files, c.base, if Overflows(st, msg, c) then k - 1 else k)
  {
    FilenamesDiffer(c.base, k, 0);
    RotatedContent(st.files, c, k);
  }

  /** If all files start within the limit, each stays within it or is one message. */
  lemma {:induction false} EveryFileIsBounded(st: Sink, msgs: seq<string>, c: Config)
    requires Valid(st, c) && WithinLimit(st.files, [], c)
    ensures WithinLimit(Run(st, msgs, c).files, msgs, c)
  {
    if msgs != [] {
      var front := msgs[..|msgs| - 1];
      var before := Run(st, front, c);
      EveryFileIsBounded(st, front, c);
      forall k: nat | k <= c.maxFiles
        ensures var file := Content(Run(st, msgs, c).files, c.base, k); |file| <= c.maxSize || file in msgs
      {
        if k == 0 {
          CurrentFileIsBounded(st, msgs, c);
        } else {
          assert msgs == front + [msgs[|msgs| - 1]];
          OlderFile(before, msgs[|msgs| - 1], c, k);
        }
      }
    }
  }

  /** Files outside the family are never touched. */
  lemma {:induction false} OtherFilesAreUntouched(st: Sink, msgs: seq<string>, c: Config, name: string)
    requires forall k: nat | k <= c.maxFiles :: name != CalcFilename(c.base, k)
    ensures name in Run(st, msgs, c).files <==> name in st.files
    ensures name in st.files ==> Run(st, msgs, c).files[name] == st.files[name]
  {
    assert name != CalcFilename(c.base, 0);
    if msgs != [] {
      var front := msgs[..|msgs| - 1];
      OtherFilesAreUntouched(st, front, c, name);
      ShiftMovesFiles(Run(st, front, c).files, c.base, c.maxFiles);
    }
  }

  // ----- when it rotates

  /** A message that still fits is appended to the current file and touches no other;
      one that does not starts the current file anew, and what was there becomes the
      first older file. */
  lemma WriteAppendsIfItFits(st: Sink, msg: string, c: Config)
    requires Valid(st, c)
    ensures var file, after := st.files[c.base], Write(st, msg, c);
            if |file| + |msg| <= c.maxSize then
              after == Sink(st.files[c.base := file + msg], |file| + |msg|)
            else
              && c.base in after.files && after.files[c.base] == msg && after.currentSize == |msg|
              && (forall k: nat | 1 <= k <= c.maxFiles ::
                    Content(after.files, c.base, k) == Content(st.files, c.base, k - 1))
              && (c.maxFiles >= 1 ==> Content(after.files, c.base, 1) == file)
  {
    var file, after := st.files[c.base], Write(st, msg, c);
    assert Content(st.files, c.base, 0) == file;
    if |file| + |msg| > c.maxSize {
      forall k: nat | 1 <= k <= c.maxFiles
        ensures Content(after.files, c.base, k) == Content(st.files, c.base, k - 1)
      {
        OlderFile(st, msg, c, k);
      }
    }
  }

  /** As long as everything fits, everything is in the current file. */
  lemma {:induction false} FittingRunFillsOneFile(st: Sink, msgs: seq<string>, c: Config)
    requires Valid(st, c) && |st.files[c.base]| + |Joined(msgs)| <= c.maxSize
    ensures Run(st, msgs, c).files == st.files[c.base := st.files[c.base] + Joined(msgs)]
    ensures Valid(Run(st, msgs, c), c)
  {
    var file := st.files[c.base];
    if msgs == [] {
      assert file + "" == file && st.files[c.base := file] == st.files;
    } else {
      var front, last := msgs[..|msgs| - 1], msgs[|msgs| - 1];
      FittingRunFillsOneFile(st, front, c);
      WriteAppendsIfItFits(Run(st, front, c), last, c);
      assert file + Joined(front) + last == file + Joined(msgs);
    }
  }

  /** An instance: three short messages and room for them. */
  lemma ThreeShortMessages()
    ensures var c := Config("log", 100, 1);
            Run(Opened(map[], c), ["a", "b", "c"], c).files == map["log" := "abc"]
  {
    hide Run, Opened, Joined;
    var c, msgs := Config("log", 100, 1), ["a", "b", "c"];
    OpeningLosesNothing(map[], c);
    ThreeJoined();
    FittingRunFillsOneFile(Opened(map[], c), msgs, c);
    assert "" + "abc" == "abc";
    assert map["log" := ""]["log" := "abc"] == map["log" := "abc"];
  }

  lemma ThreeJoined()
    ensures Joined(["a", "b", "c"]) == "abc"
  {
    hide Joined;
    assert Joined([]) == "" by {
      EmptyJoined();
    }
    JoinedAppend([], "a");
    JoinedAppend(["a"], "b");
    JoinedAppend(["a", "b"], "c");
    assert [] + ["a"] == ["a"] && ["a"] + ["b"] == ["a", "b"] && ["a", "b"] + ["c"] == ["a", "b", "c"];
  }

  lemma EmptyJoined()
    ensures Joined([]) == ""
  {
  }

  /** Opening creates the current file if it is missing and otherwise keeps it, like
      every other file, and knows its size. */
  lemma OpeningLosesNothing(files: Files, c: Config)
    ensures var st := Opened(files, c);
            && Valid(st, c)
            && (c.base in files ==> st == Sink(files, |files[c.base]|))
            && (c.base !in files ==> st == Sink(files[c.base := ""], 0))
  {
    assert CalcFilename(c.base, 0) == c.base;
    assert c.base in files ==> files[c.base := files[c.base]] == files;
  }

  // ----- messages stay whole

  /** The messages by the file they went to, newest file first. */
  function Blocks(st: Sink, msgs: seq<string>, c: Config): (b: seq<seq<string>>)
    ensures |b| >= 1
  {
    if msgs == [] then [[]]
    else
      var b, last := Blocks(st, msgs[..|msgs| - 1], c), msgs[|msgs| - 1];
      if Overflows(Run(st, msgs[..|msgs| - 1], c), last, c) then [[last]] + b
      else [b[0] + [last]] + b[1..]
  }

  function OldestFirst(blocks: seq<seq<string>>): seq<string> {
    if blocks == [] then [] else OldestFirst(blocks[1..]) + blocks[0]
  }

  lemma {:induction false} BlocksHoldAllMessages(st: Sink, msgs: seq<string>, c: Config)
    ensures OldestFirst(Blocks(st, msgs, c)) == msgs
  {
    if msgs != [] {
      var b, last := Blocks(st, msgs[..|msgs| - 1], c), msgs[|msgs| - 1];
      BlocksHoldAllMessages(st, msgs[..|msgs| - 1], c);
      assert OldestFirst(b) == OldestFirst(b[1..]) + b[0];
      assert ([[last]] + b)[1..] == b && ([b[0] + [last]] + b[1..])[1..] == b[1..];
      assert msgs == msgs[..|msgs| - 1] + [last];
    } else {
      assert OldestFirst([[]][1..]) == [];
    }
  }

  lemma JoinedAppend(block: seq<string>, msg: string)
    ensures Joined(block + [msg]) == Joined(block) + msg
    ensures Joined([msg]) == msg
  {
    assert (block + [msg])[..|block|] == block && [msg][..0] == [];
    assert "" + msg == msg;
  }

  /** Starting without older files, every file is a block of whole messages: no
      message is split between two files, and rotation drops whole messages only. */
  lemma {:induction false} MessagesAreNeverSplit(st: Sink, msgs: seq<string>, c: Config)
    requires Valid(st, c) && forall k: nat | k <= c.maxFiles :: Content(st.files, c.base, k) == ""
    ensures forall k: nat | k <= c.maxFiles ::
              Content(Run(st, msgs, c).files, c.base, k) ==
              if k < |Blocks(st, msgs, c)| then Joined(Blocks(st, msgs, c)[k]) else ""
  {
    if msgs != [] {
      var front, last := msgs[..|msgs| - 1], msgs[|msgs| - 1];
      var before, b := Run(st, front, c), Blocks(st, front, c);
      MessagesAreNeverSplit(st, front, c);
      forall k: nat | k <= c.maxFiles
        ensures Content(Run(st, msgs, c).files, c.base, k) ==
                if k < |Blocks(st, msgs, c)| then Joined(Blocks(st, msgs, c)[k]) else ""
      {
        if k > 0 {
          OlderFile(before, last, c, k);
        } else {
          JoinedAppend(b[0], last);
          assert Content(before.files, c.base, 0) == Joined(b[0]);
        }
      }
    }
  }
}
