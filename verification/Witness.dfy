// The pseudonym-key witness: what each key version produced for one fixed input, one line apiece.

module Witness {
  import opened Basics
  import opened Texts

  type Entry = (string, string)

  // --- Reading ---------------------------------------------------------------------------------

  /** A line that was terminated by a newline loses one carriage return before it. */
  function StripCr(line: string): string {
    if line != "" && line[|line| - 1] == '\r' then line[..|line| - 1] else line
  }

  /** `str::lines`: an unterminated last line is kept as it is. */
  function Lines(text: string): seq<string>
    decreases |text|
  {
    var k := IndexOf(text, '\n');
    if text == "" then []
    else if k == |text| then [text]
    else [StripCr(text[..k])] + Lines(text[k + 1..])
  }

  function Entries(lines: seq<string>): seq<Entry> {
    if lines == [] then []
    else EntryOf(lines[0]) + Entries(lines[1..])
  }

  /** The entry of one line: none when it has no tab. */
  function EntryOf(line: string): seq<Entry> {
    var split := SplitOnce(line, '\t');
    if split.None? then [] else [split.value]
  }

  function Read(file: Option<string>): seq<Entry> {
    if file.None? then [] else Entries(Lines(file.value))
  }

  /** The first witness recorded for a version. */
  function Recorded(entries: seq<Entry>, version: string): Option<string> {
    if entries == [] then None
    else if entries[0].0 == version then Some(entries[0].1)
    else Recorded(entries[1..], version)
  }

  // --- Writing ---------------------------------------------------------------------------------

  function NewLine(version: string, witness_: string): string {
    version + ['\t'] + witness_ + ['\n']
  }

  predicate Unterminated(text: string) {
    text != "" && text[|text| - 1] != '\n'
  }

  function Appended(file: Option<string>, version: string, witness_: string): string {
    var text := if file.None? then "" else file.value;
    (if Unterminated(text) then text + ['\n'] else text) + NewLine(version, witness_)
  }

  /** How the file operations of one start turn out. */
  datatype Io = Io(readable: bool, rereadable: bool, write: Write)
  datatype Write = Unwritable | WrittenNotRestricted | Written

  /** One start: the file it leaves, and whether the server may go on. */
  function Started(file: Option<string>, version: string, witness_: string, io: Io): (Option<string>, bool) {
    if !io.readable then (file, false)
    else
      var previous := Recorded(Read(file), version);
      if previous.Some? then (file, previous.value == witness_)
      else if !io.rereadable || io.write.Unwritable? then (file, false)
      else (Some(Appended(file, version, witness_)), io.write.Written?)
  }

  /** The file on disk; `None` when it is not there. */
  class WitnessFile {
    var file: Option<string>

    constructor (initial: Option<string>)
      ensures file == initial
    {
      file := initial;
    }

    /** `key` is the pseudonymiser's version and its output for the fixed input, when one is configured. */
    method CheckAt(key: Option<(string, string)>, io: Io) returns (ok: bool)
      modifies this
      ensures key.None? ==> ok && file == old(file)
      ensures key.Some? ==> (file, ok) == Started(old(file), key.value.0, key.value.1, io)
    {
      if key.None? { return true; }
      var (version, witness_) := key.value;
      if !io.readable { return false; }
      var previous := Recorded(Read(file), version);
      if previous.Some? {
        return previous.value == witness_;
      }
      ok := Append(version, witness_, io);
    }

    method Append(version: string, witness_: string, io: Io) returns (ok: bool)
      modifies this
      ensures io.rereadable && !io.write.Unwritable? ==> file == Some(Appended(old(file), version, witness_))
      ensures !(io.rereadable && !io.write.Unwritable?) ==> file == old(file)
      ensures ok <==> io.rereadable && io.write.Written?
    {
      if !io.rereadable { return false; }
      var text := if file.None? then "" else file.value;
      if text != "" && text[|text| - 1] != '\n' {
        text := text + ['\n'];
      }
      text := text + (version + ['\t'] + witness_ + ['\n']);
      if io.write.Unwritable? { return false; }
      file := Some(text);
      ok := io.write.Written?;
    }
  }

  // --- Reading what was appended ---------------------------------------------------------------

  /** What a line must not hold to read back: a version with no tab or newline, a witness with no
      newline and no carriage return at its end. */
  predicate Writable(version: string, witness_: string) {
    && '\t' !in version && '\n' !in version && '\n' !in witness_
    && (witness_ == "" || witness_[|witness_| - 1] != '\r')
  }

  lemma {:induction false} EntriesConcat(a: seq<string>, b: seq<string>)
    ensures Entries(a + b) == Entries(a) + Entries(b)
  {
    if a == [] {
      assert a + b == b;
    } else {
      assert (a + b)[1..] == a[1..] + b;
      EntriesConcat(a[1..], b);
    }
  }

  /** A terminated first line. */
  lemma LinesStep(line: string, rest: string)
    requires '\n' !in line
    ensures Lines(line + ['\n'] + rest) == [StripCr(line)] + Lines(rest)
    ensures LastLine(line + ['\n'] + rest) == LastLine(rest)
  {
    var s := line + ['\n'] + rest;
    IndexOfConcat(line, '\n', rest);
    assert s[..|line|] == line && s[|line| + 1..] == rest;
  }

  /** Text with a newline is a first line and the rest. */
  lemma FirstCut(text: string) returns (line: string, rest: string)
    requires '\n' in text
    ensures '\n' !in line && text == line + ['\n'] + rest && |rest| < |text|
  {
    var k := IndexOf(text, '\n');
    line, rest := text[..k], text[k + 1..];
  }

  /** Text that ends in a newline reads line by line, whatever follows it. */
  lemma {:induction false} LinesConcat(a: string, b: string)
    requires !Unterminated(a)
    ensures Lines(a + b) == Lines(a) + Lines(b)
    decreases |a|
  {
    hide IndexOf, StripCr, Lines;
    if a == "" {
      assert a + b == b;
      NoLines();
      assert [] + Lines(b) == Lines(b);
    } else {
      assert a[|a| - 1] == '\n' && '\n' in a;
      var line, rest := FirstCut(a);
      Regroup(line, rest, b);
      LinesStep(line, rest);
      LinesStep(line, rest + b);
      LinesConcat(rest, b);
      RegroupLines(StripCr(line), Lines(rest), Lines(b));
    }
  }

  lemma Regroup(line: string, rest: string, b: string)
    ensures line + ['\n'] + rest + b == line + ['\n'] + (rest + b)
    ensures !Unterminated(line + ['\n'] + rest) ==> !Unterminated(rest)
  {
    var a := line + ['\n'] + rest;
    assert rest != "" ==> rest[|rest| - 1] == a[|a| - 1];
  }

  lemma RegroupLines(line: string, a: seq<string>, b: seq<string>)
    ensures [line] + (a + b) == [line] + a + b
  {
  }

  lemma NoLines()
    ensures Lines("") == []
  {
  }

  lemma IndexOfPrefix(a: string, b: string, c: char)
    requires c in a
    ensures IndexOf(a + b, c) == IndexOf(a, c)
  {
    var k := IndexOf(a, c);
    assert a + b == a[..k] + [c] + (a[k + 1..] + b);
    IndexOfConcat(a[..k], c, a[k + 1..] + b);
  }

  /** The last line of unterminated text. */
  function LastLine(text: string): (line: string)
    decreases |text|
  {
    var k := IndexOf(text, '\n');
    if k == |text| then text else LastLine(text[k + 1..])
  }

  /** A last entry whose carriage return no newline follows yet: the one content an append alters. */
  predicate DanglingCr(text: string) {
    Unterminated(text) && text[|text| - 1] == '\r' && '\t' in LastLine(text)
  }

  lemma EntryOfStripped(line: string)
    ensures EntryOf(StripCr(line)) == EntryOf(line) <==> !(line != "" && line[|line| - 1] == '\r' && '\t' in line)
    ensures |EntryOf(StripCr(line))| == |EntryOf(line)|
    ensures EntryOf(line) != [] ==>
      EntryOf(StripCr(line))[0].0 == EntryOf(line)[0].0 &&
      EntryOf(StripCr(line))[0].1 == StripCr(EntryOf(line)[0].1)
  {
    hide IndexOf, SplitOnce;
    if line != "" && line[|line| - 1] == '\r' {
      var short := line[..|line| - 1];
      assert line == short + ['\r'];
      if '\t' in short {
        EntryBeforeCr(short);
      } else {
        NoEntry(short);
        NoEntry(line);
      }
    } else {
      EntryEnds(line);
    }
  }

  lemma EntryEnds(line: string)
    requires line == "" || line[|line| - 1] != '\r'
    ensures EntryOf(line) != [] ==> StripCr(EntryOf(line)[0].1) == EntryOf(line)[0].1
  {
    hide IndexOf;
  }

  lemma NoEntry(line: string)
    requires '\t' !in line
    ensures EntryOf(line) == []
  {
    hide IndexOf;
  }

  lemma EntryBeforeCr(short: string)
    requires '\t' in short
    ensures var line := short + ['\r'];
      && |EntryOf(short)| == |EntryOf(line)| == 1 && EntryOf(short)[0].0 == EntryOf(line)[0].0
      && EntryOf(line)[0].1 == EntryOf(short)[0].1 + ['\r']
  {
    hide IndexOf;
    var line := short + ['\r'];
    var k := IndexOf(short, '\t');
    IndexOfPrefix(short, ['\r'], '\t');
    assert line[..k] == short[..k];
    assert line[k + 1..] == short[k + 1..] + ['\r'];
  }

  /** The entries of unterminated text before its last line. */
  function Settled(text: string): seq<Entry>
    decreases |text|
  {
    var k := IndexOf(text, '\n');
    if k == |text| then [] else EntryOf(StripCr(text[..k])) + Settled(text[k + 1..])
  }

  lemma SettledStep(line: string, rest: string)
    requires '\n' !in line
    ensures Settled(line + ['\n'] + rest) == EntryOf(StripCr(line)) + Settled(rest)
  {
    var s := line + ['\n'] + rest;
    IndexOfConcat(line, '\n', rest);
    assert s[..|line|] == line && s[|line| + 1..] == rest;
  }

  /** Terminating the text strips the last line; everything before it stands. */
  lemma {:induction false} EntriesTerminated(text: string)
    requires Unterminated(text)
    ensures Entries(Lines(text)) == Settled(text) + EntryOf(LastLine(text))
    ensures Entries(Lines(text + ['\n'])) == Settled(text) + EntryOf(StripCr(LastLine(text)))
    ensures LastLine(text) != "" && LastLine(text)[|LastLine(text)| - 1] == text[|text| - 1]
    decreases |text|
  {
    hide StripCr, EntryOf, Entries;
    if '\n' !in text {
      LinesStep(text, "");
      assert text + ['\n'] + "" == text + ['\n'];
      assert Lines(text + ['\n']) == [StripCr(text)];
      OneLine(text);
      OneLine(StripCr(text));
      assert [] + EntryOf(text) == EntryOf(text);
      assert [] + EntryOf(StripCr(text)) == EntryOf(StripCr(text));
    } else {
      EntriesTerminatedStep(text);
    }
  }

  lemma {:induction false} EntriesTerminatedStep(text: string)
    requires Unterminated(text) && '\n' in text
    ensures Entries(Lines(text)) == Settled(text) + EntryOf(LastLine(text))
    ensures Entries(Lines(text + ['\n'])) == Settled(text) + EntryOf(StripCr(LastLine(text)))
    ensures LastLine(text) != "" && LastLine(text)[|LastLine(text)| - 1] == text[|text| - 1]
    decreases |text|, 0
  {
    hide StripCr, EntryOf, Entries, Lines, LastLine, Settled, IndexOf;
    var line, rest := FirstCut(text);
    assert text + ['\n'] == line + ['\n'] + (rest + ['\n']);
    LinesStep(line, rest);
    LinesStep(line, rest + ['\n']);
    SettledStep(line, rest);
    assert rest != "" && rest[|rest| - 1] == text[|text| - 1];
    EntriesTerminated(rest);
    var head := EntryOf(StripCr(line));
    FirstLine(StripCr(line), Lines(rest));
    FirstLine(StripCr(line), Lines(rest + ['\n']));
    var s, last, stripped := Settled(rest), EntryOf(LastLine(rest)), EntryOf(StripCr(LastLine(rest)));
    assert head + (s + last) == head + s + last;
    assert head + (s + stripped) == head + s + stripped;
  }

  lemma OneLine(line: string)
    ensures Entries([line]) == EntryOf(line)
  {
    assert [line][1..] == [] && EntryOf(line) + [] == EntryOf(line);
  }

  lemma FirstLine(line: string, rest: seq<string>)
    ensures Entries([line] + rest) == EntryOf(line) + Entries(rest)
  {
    assert ([line] + rest)[1..] == rest;
  }

  lemma NewLineReads(version: string, witness_: string)
    requires Writable(version, witness_)
    ensures Entries(Lines(NewLine(version, witness_))) == [(version, witness_)]
  {
    var line := version + ['\t'] + witness_;
    assert NewLine(version, witness_) == line + ['\n'] + "";
    assert '\n' !in line;
    IndexOfConcat(line, '\n', "");
    var s := NewLine(version, witness_);
    assert s[..|line|] == line && s[|line| + 1..] == "";
    assert StripCr(line) == line;
    SplitOnceConcat(version, '\t', witness_);
    assert Lines(s) == [line] + [];
    OneLine(line);
  }

  function Contents(file: Option<string>): string {
    if file.None? then "" else file.value
  }

  /** Reading back an append: the old list plus the new entry, exactly unless the file ended in an
      entry with a dangling carriage return. */
  lemma ReadAfterAppend(file: Option<string>, version: string, witness_: string)
    requires Writable(version, witness_)
    ensures Read(Some(Appended(file, version, witness_))) == Read(file) + [(version, witness_)]
       <==> !DanglingCr(Contents(file))
  {
    hide Lines, Entries, EntryOf, LastLine, Appended, Settled;
    var text := Contents(file);
    AppendReads(file, version, witness_);
    NoFileNoEntries();
    if Unterminated(text) {
      EntriesTerminated(text);
      EntryOfStripped(LastLine(text));
      SameTails(Settled(text), EntryOf(StripCr(LastLine(text))), EntryOf(LastLine(text)), (version, witness_));
    }
  }

  lemma NoFileNoEntries()
    ensures Entries(Lines("")) == []
  {
  }

  lemma SameTails(front: seq<Entry>, a: seq<Entry>, b: seq<Entry>, e: Entry)
    ensures front + a + [e] == front + b + [e] <==> a == b
  {
    var x, y := front + a + [e], front + b + [e];
    if x == y {
      assert |a| == |b|;
      assert a == x[|front|..|x| - 1] && b == y[|front|..|y| - 1];
    }
  }

  lemma AppendReads(file: Option<string>, version: string, witness_: string)
    requires Writable(version, witness_)
    ensures var text := Contents(file);
            var full := if Unterminated(text) then text + ['\n'] else text;
            Read(Some(Appended(file, version, witness_))) == Entries(Lines(full)) + [(version, witness_)]
  {
    var text := Contents(file);
    var full := if Unterminated(text) then text + ['\n'] else text;
    LinesConcat(full, NewLine(version, witness_));
    EntriesConcat(Lines(full), Lines(NewLine(version, witness_)));
    NewLineReads(version, witness_);
  }

  // --- What every run keeps --------------------------------------------------------------------

  lemma {:induction false} RecordedConcat(a: seq<Entry>, b: seq<Entry>, version: string)
    ensures Recorded(a + b, version)
         == if Recorded(a, version).Some? then Recorded(a, version) else Recorded(b, version)
  {
    if a == [] {
      assert a + b == b;
    } else {
      assert (a + b)[1..] == a[1..] + b;
      RecordedConcat(a[1..], b, version);
    }
  }

  /** An append can only take a dangling carriage return off a recorded witness. */
  lemma RecordedAfterAppend(file: Option<string>, version: string, witness_: string, v: string)
    requires Writable(version, witness_)
    ensures var was := Recorded(Read(file), v);
            var now := Recorded(Read(Some(Appended(file, version, witness_))), v);
            && (was.Some? ==>
                  now.Some? && (now == was || (DanglingCr(Contents(file)) && now.value == StripCr(was.value))))
            && (was.None? ==> now == if v == version then Some(witness_) else None)
  {
    hide Lines, Entries, EntryOf, LastLine, Appended, Settled, StripCr;
    var text := Contents(file);
    var full := if Unterminated(text) then text + ['\n'] else text;
    AppendReads(file, version, witness_);
    NoFileNoEntries();
    RecordedConcat(Entries(Lines(full)), [(version, witness_)], v);
    assert [(version, witness_)][1..] == [];
    if Unterminated(text) {
      EntriesTerminated(text);
      var line := LastLine(text);
      RecordedConcat(Settled(text), EntryOf(line), v);
      RecordedConcat(Settled(text), EntryOf(StripCr(line)), v);
      RecordedLast(line, v);
    }
  }

  lemma RecordedLast(line: string, v: string)
    ensures var a, b := Recorded(EntryOf(line), v), Recorded(EntryOf(StripCr(line)), v);
            && (a.Some? <==> b.Some?)
            && (a.Some? ==>
                  b == a || (line != "" && line[|line| - 1] == '\r' && '\t' in line && b.value == StripCr(a.value)))
  {
    EntryOfStripped(line);
    if EntryOf(line) != [] {
      assert EntryOf(line)[1..] == [] && EntryOf(StripCr(line))[1..] == [];
    }
  }

  /** Any start keeps a recorded witness that does not end in a carriage return. */
  lemma StartKeeps(file: Option<string>, version: string, witness_: string, io: Io, v: string)
    requires Writable(version, witness_)
    requires var was := Recorded(Read(file), v); was.Some? && StripCr(was.value) == was.value
    ensures Recorded(Read(Started(file, version, witness_, io).0), v) == Recorded(Read(file), v)
  {
    RecordedAfterAppend(file, version, witness_, v);
  }

  /** A start that succeeds leaves its own witness recorded. */
  lemma SuccessRecords(file: Option<string>, version: string, witness_: string, io: Io)
    requires Writable(version, witness_) && Started(file, version, witness_, io).1
    ensures Recorded(Read(Started(file, version, witness_, io).0), version) == Some(witness_)
  {
    if Recorded(Read(file), version).None? {
      RecordedAfterAppend(file, version, witness_, version);
    }
  }

  datatype Start = Start(version: string, produced: string, io: Io)

  ghost predicate AllWritable(starts: seq<Start>) {
    forall i :: 0 <= i < |starts| ==> Writable(starts[i].version, starts[i].produced)
  }

  /** The file after the first `n` starts. */
  function FileAfter(file: Option<string>, starts: seq<Start>, n: nat): Option<string>
    requires n <= |starts|
  {
    if n == 0 then file
    else Started(FileAfter(file, starts, n - 1), starts[n - 1].version, starts[n - 1].produced, starts[n - 1].io).0
  }

  predicate Succeeds(file: Option<string>, starts: seq<Start>, n: nat)
    requires n < |starts|
  {
    Started(FileAfter(file, starts, n), starts[n].version, starts[n].produced, starts[n].io).1
  }

  /** A recorded witness with no trailing carriage return outlives every later start. */
  lemma {:induction false} RecordedForGood(file: Option<string>, starts: seq<Start>, i: nat, j: nat, v: string)
    requires i <= j <= |starts| && AllWritable(starts)
    requires var was := Recorded(Read(FileAfter(file, starts, i)), v); was.Some? && StripCr(was.value) == was.value
    ensures Recorded(Read(FileAfter(file, starts, j)), v) == Recorded(Read(FileAfter(file, starts, i)), v)
  {
    hide Read, Recorded, Started;
    if i < j {
      RecordedForGood(file, starts, i, j - 1, v);
      var s := starts[j - 1];
      StartKeeps(FileAfter(file, starts, j - 1), s.version, s.produced, s.io, v);
    }
  }

  /** Over any sequence of starts on any initial contents, with any I/O failures: two starts that
      succeed under one key version saw the same key. */
  lemma SameVersionSameKey(file: Option<string>, starts: seq<Start>, i: nat, j: nat)
    requires i < j < |starts| && AllWritable(starts)
    requires Succeeds(file, starts, i) && Succeeds(file, starts, j)
    requires starts[i].version == starts[j].version
    ensures starts[i].produced == starts[j].produced
  {
    hide Recorded, Read;
    var a, b := starts[i], starts[j];
    SuccessRecords(FileAfter(file, starts, i), a.version, a.produced, a.io);
    RecordedForGood(file, starts, i + 1, j, a.version);
  }

  /** The one way a recorded witness changes: a file left ending in a carriage return. */
  lemma DanglingWitnessChanges()
    ensures var file := Some("v1\tw\r");
            var after := Started(file, "v2", "x", Io(true, true, Written)).0;
            && Recorded(Read(file), "v1") == Some("w\r") && Recorded(Read(after), "v1") == Some("w")
  {
    hide Appended, Started;
    var text := "v1\tw\r";
    assert '\n' !in text;
    OneLine(text);
    var last: seq<char> := "w\r";
    assert text == "v1" + ['\t'] + last;
    SplitOnceConcat("v1", '\t', last);
    assert Read(Some(text)) == [("v1", last)] && [("v1", last)][1..] == [];
    DanglingStart(text, last);
  }

  lemma DanglingStart(text: string, last: string)
    requires Read(Some(text)) == [("v1", last)] && text == "v1\tw\r" && last == "w\r"
    ensures Recorded(Read(Started(Some(text), "v2", "x", Io(true, true, Written)).0), "v1") == Some("w")
  {
    hide Lines, Appended, Entries, LastLine;
    assert [("v1", last)][1..] == [];
    assert Recorded(Read(Some(text)), "v2").None?;
    AppendReads(Some(text), "v2", "x");
    DanglingRead(text);
    RecordedConcat([("v1", "w")], [("v2", "x")], "v1");
  }

  lemma DanglingRead(text: string)
    requires text == "v1\tw\r"
    ensures Entries(Lines(text + ['\n'])) == [("v1", "w")]
  {
    hide Entries, IndexOf;
    assert '\n' !in text;
    LinesStep(text, "");
    assert text + ['\n'] + "" == text + ['\n'];
    NoLines();
    assert Lines(text + ['\n']) == [StripCr(text)] + [] == [StripCr(text)];
    OneLine(StripCr(text));
    assert StripCr(text) == "v1" + ['\t'] + "w";
    SplitOnceConcat("v1", '\t', "w");
  }

  /** A start goes on exactly when the file can be read and either records this witness first for the version,
      or records none and takes the new line; a recorded version is never written again. */
  lemma StartsExactly(file: Option<string>, version: string, witness_: string, io: Io)
    ensures var (after, ok) := Started(file, version, witness_, io);
      && (ok <==> io.readable
                  && (Recorded(Read(file), version) == Some(witness_)
                      || (Recorded(Read(file), version) == None && io.rereadable && io.write == Written)))
      && (Recorded(Read(file), version).Some? ==> after == file)
  {
    hide Read, Recorded, Appended;
  }

  /** The line written, character by character: on a line of its own, the version, a tab, the witness. */
  lemma LineWritten(version: string, witness_: string)
    ensures Appended(None, version, witness_) == version + "\t" + witness_ + "\n"
    ensures Appended(Some("x"), version, witness_) == "x\n" + version + "\t" + witness_ + "\n"
    ensures Appended(Some("x\n"), version, witness_) == "x\n" + version + "\t" + witness_ + "\n"
  {
  }
}
