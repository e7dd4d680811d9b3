/**
 Reading log files: the line reader and the tail reader.
 */
module LogReader {
  import opened Integers
  import opened Sequences
  import opened LineSplitting
  import opened RecordFormat

  const MAX_LOG_LINES := 10_000
  const DEFAULT_TAIL := 100

  // ----- The meaning of a file's lines

  /** The lines of a file, with their line ends; the last may be unterminated. */
  function RawLines(s: Bytes): seq<Bytes> {
    CompleteLines(s) + (if Remainder(s) == [] then [] else [Remainder(s)])
  }

  /** Drops the line feed if there is one, then one carriage return if there is one. */
  function StripCr(l: Bytes): Bytes {
    if l != [] && l[|l| - 1] == CR then l[..|l| - 1] else l
  }

  function StripEnd(raw: Bytes): Bytes {
    StripCr(if EndsWithLf(raw) then raw[..|raw| - 1] else raw)
  }

  /** LF, CR LF and a CR at the end of the file end a line; nothing else is taken off it. */
  lemma StripEndExact(body: Bytes)
    ensures StripEnd(body + [CR] + [LF]) == body && StripEnd(body + [CR]) == body
    ensures body == [] || body[|body| - 1] !in [LF, CR] ==> StripEnd(body + [LF]) == body && StripEnd(body) == body
  {
    var ended := body + [CR];
    assert (ended + [LF])[..|ended|] == ended && ended[..|body|] == body && (body + [LF])[..|body|] == body;
  }

  function ReadLines(decode: Bytes -> string, s: Bytes): seq<string> {
    Map(l => decode(StripEnd(l)), RawLines(s))
  }

  /** Where `read_until` stops: behind the first line feed, or at the end of the file. */
  function LineEnd(s: Bytes): nat {
    var p := FirstLf(s);
    if p < |s| then p + 1 else p
  }

  lemma RawLinesUnfold(s: Bytes)
    requires s != []
    ensures LineEnd(s) <= |s|
    ensures RawLines(s) == [s[..LineEnd(s)]] + RawLines(s[LineEnd(s)..])
  {
    var p := FirstLf(s);
    if p == |s| {
      assert s[..p] == s && s[p..] == [];
      SplitLfFree(s);
    }
  }

  lemma ReadLinesUnfold(decode: Bytes -> string, s: Bytes)
    requires s != []
    ensures 0 < LineEnd(s) <= |s|
    ensures ReadLines(decode, s) == [decode(StripEnd(s[..LineEnd(s)]))] + ReadLines(decode, s[LineEnd(s)..])
  {
    RawLinesUnfold(s);
  }

  lemma RawLinesJoin(s: Bytes)
    ensures Flatten(RawLines(s)) == s
  {
    SplitRejoins(s);
    if Remainder(s) != [] {
      FlattenSnoc(CompleteLines(s), Remainder(s));
    } else {
      assert RawLines(s) == CompleteLines(s) && Flatten(CompleteLines(s)) + [] == s;
    }
  }

  /** The file up to the end of its `i`th line. */
  function UpTo(file: Bytes, i: nat): Bytes
    requires i <= |RawLines(file)|
  {
    Flatten(RawLines(file)[..i])
  }

  /** The first `i` lines of a file are the lines of the file up to there. */
  lemma LinesUpTo(decode: Bytes -> string, file: Bytes, i: nat)
    requires i <= |RawLines(file)|
    ensures UpTo(file, i) <= file
    ensures ReadLines(decode, UpTo(file, i)) == ReadLines(decode, file)[..i]
  {
    var raw := RawLines(file);
    RawLinesJoin(file);
    FlattenAppend(raw[..i], raw[i..]);
    assert raw == raw[..i] + raw[i..];
    if i < |raw| {
      CompleteLinesAreLines(file);
      SplitUnique(raw[..i], []);
      assert UpTo(file, i) + [] == UpTo(file, i);
    } else {
      assert raw[..i] == raw;
    }
  }

  /** `lines` are the lines still to be read from `s`, one `read_until` after the other. */
  ghost predicate StillToRead(decode: Bytes -> string, s: Bytes, lines: seq<string>)
    decreases |lines|
  {
    if lines == [] then s == []
    else
      && s != [] && LineEnd(s) <= |s|
      && lines[0] == decode(StripEnd(s[..LineEnd(s)]))
      && StillToRead(decode, s[LineEnd(s)..], lines[1..])
  }

  lemma {:induction false} AllStillToRead(decode: Bytes -> string, s: Bytes)
    ensures StillToRead(decode, s, ReadLines(decode, s))
    decreases |s|
  {
    if s != [] {
      ReadLinesUnfold(decode, s);
      AllStillToRead(decode, s[LineEnd(s)..]);
      assert ReadLines(decode, s)[1..] == ReadLines(decode, s[LineEnd(s)..]);
    }
  }

  // ----- The line reader

  class LineReader {
    const file: Bytes
    const decode: Bytes -> string
    ghost const all: seq<string>    // the lines of the file
    ghost var index: nat            // how many of them have been yielded
    var pos: nat
    var bytes: Bytes                // the reused line buffer

    ghost predicate Valid()
      reads this
    {
      pos <= |file| && index <= |all| && StillToRead(decode, file[pos..], all[index..])
    }

    constructor (file: Bytes, decode: Bytes -> string)
      ensures Valid() && index == 0 && all == ReadLines(decode, file)
    {
      this.file, this.decode := file, decode;
      pos, bytes := 0, [];
      all, index := ReadLines(decode, file), 0;
      AllStillToRead(decode, file);
      new;
      assert file[pos..] == file && all[index..] == all;
    }

    /** Yields the lines of the file one by one, and None exactly when none is left. */
    method NextLineLossy() returns (line: Option<string>)
      requires Valid()
      modifies this
      ensures Valid()
      ensures old(index) < |all| ==> line == Some(all[old(index)]) && index == old(index) + 1
      ensures old(index) == |all| ==> line == None && index == old(index)
    {
      var rest := file[pos..];
      ghost var lines := all[index..];
      bytes := [];
      if rest == [] {
        return None;
      }
      var end := LineEnd(rest);
      bytes := rest[..end];
      pos := pos + end;
      assert file[pos..] == rest[end..];
      bytes := StripLineEnd(bytes);
      line := Some(decode(bytes));
      assert lines[1..] == all[index + 1..];
      index := index + 1;
    }

    /** The two in-place pops on the line buffer. */
    static method StripLineEnd(raw: Bytes) returns (bytes: Bytes)
      ensures bytes == StripEnd(raw)
    {
      bytes := raw;
      if bytes != [] && bytes[|bytes| - 1] == LF {
        bytes := bytes[..|bytes| - 1];
      }
      if bytes != [] && bytes[|bytes| - 1] == CR {
        bytes := bytes[..|bytes| - 1];
      }
    }
  }

  // ----- Tail

  function LastN(all: seq<string>, n: nat): seq<string> {
    all[|all| - Min(n, |all|)..]
  }

  /** The deque after `seen` lines. */
  ghost predicate HoldsLast(lines: seq<string>, all: seq<string>, seen: nat, tail: nat) {
    && seen <= |all| && |lines| == Min(tail, seen)
    && forall j :: 0 <= j < |lines| ==> lines[j] == all[seen - |lines| + j]
  }

  lemma HeldAtEnd(lines: seq<string>, all: seq<string>, tail: nat)
    requires HoldsLast(lines, all, |all|, tail)
    ensures lines == LastN(all, tail)
  {
  }

  method PushLine(ghost all: seq<string>, ghost seen: nat, lines0: seq<string>, line: string, tail: nat)
    returns (lines: seq<string>)
    requires seen < |all| && line == all[seen] && HoldsLast(lines0, all, seen, tail)
    ensures HoldsLast(lines, all, seen + 1, tail)
  {
    lines := lines0;
    if tail != 0 {
      if |lines| == tail {
        lines := lines[1..];
      }
      lines := lines + [line];
    }
  }

  /**
   The bounded deque holds exactly the last min(tail, total) lines, and the
   returned index is that of its first line; with tail 0 that is the total.
   */
  method TailLogLines(file: Bytes, decode: Bytes -> string, tail: nat) returns (start: nat, lines: seq<string>)
    ensures lines == LastN(ReadLines(decode, file), tail)
    ensures start + |lines| == |ReadLines(decode, file)|
  {
    var reader := new LineReader(file, decode);
    ghost var all := reader.all;
    var totalLines := 0;
    lines := [];
    var line := reader.NextLineLossy();
    while line.Some?
      invariant reader.Valid() && reader.all == all
      invariant reader.index == totalLines + (if line.Some? then 1 else 0)
      invariant totalLines <= |all|
      invariant line == if totalLines < |all| then Some(all[totalLines]) else None
      invariant HoldsLast(lines, all, totalLines, tail)
      decreases |all| - totalLines
    {
      lines := PushLine(all, totalLines, lines, line.value, tail);
      totalLines := totalLines + 1;
      line := reader.NextLineLossy();
    }
    start := totalLines - |lines|;
    HeldAtEnd(lines, all, tail);
  }

  // ----- Log entries

  datatype LogEntry = LogEntry(
    lineNumber: u32, content: string, timestamp: Option<Instant>, level: Level, processName: Option<string>)

  /** 1-based and, like the wire type, modulo 2^32. */
  function LineNumber(index: nat): u32 {
    (index + 1) % U32_RANGE
  }

  lemma LineNumberExact(i: nat, j: nat)
    ensures LineNumber(i) == LineNumber(j) <==> (i - j) % U32_RANGE == 0
  {
  }

  /** Line numbers tell the lines of a file apart if and only if it has at most 2^32 lines. */
  lemma LineNumbersIdentifyExact(n: nat)
    ensures (forall i, j :: 0 <= i < j < n ==> LineNumber(i) != LineNumber(j)) <==> n <= U32_RANGE
  {
    if n > U32_RANGE {
      assert LineNumber(0) == LineNumber(U32_RANGE);
    }
  }

  /** The entry for a line found at `index` of its file. */
  function MakeEntry(view: View, line: string, index: nat, processName: Option<string>): LogEntry {
    var parsed := view.parse(line);
    LogEntry(LineNumber(index), parsed.content, parsed.timestamp, parsed.level, processName)
  }

  /**
   `e` shows line `i` of the file: what the line parses to, under the number
   of lines of the file up to its end, as far as 32 bits hold that number.
   */
  ghost predicate ShowsLine(view: View, file: Bytes, i: nat, e: LogEntry) {
    && i < |RawLines(file)|
    && e.lineNumber == |ReadLines(view.decode, UpTo(file, i + 1))| % 0x1_0000_0000
    && var line := view.parse(view.decode(StripEnd(RawLines(file)[i])));
       e.content == line.content && e.timestamp == line.timestamp && e.level == line.level
  }

  lemma EntryShowsLine(view: View, file: Bytes, i: nat, processName: Option<string>)
    requires i < |ReadLines(view.decode, file)|
    ensures ShowsLine(view, file, i, MakeEntry(view, ReadLines(view.decode, file)[i], i, processName))
  {
    LinesUpTo(view.decode, file, i + 1);
  }

  /** Up to 2^32 - 1 lines, the number of a line is its place counted from 1: the first is 1, the last the total. */
  lemma ShownNumber(view: View, file: Bytes, i: nat, e: LogEntry)
    requires ShowsLine(view, file, i, e) && |ReadLines(view.decode, file)| < 0x1_0000_0000
    ensures e.lineNumber == i + 1 == |ReadLines(view.decode, UpTo(file, i + 1))|
    ensures UpTo(file, i + 1) <= file
  {
    LinesUpTo(view.decode, file, i + 1);
  }

  function ClampTail(tail: nat): nat {
    Min(tail, MAX_LOG_LINES)
  }

  function EntriesFrom(view: View, all: seq<string>, start: nat, processName: Option<string>): (es: seq<LogEntry>)
    requires start <= |all|
    ensures |es| == |all| - start
    ensures forall j :: 0 <= j < |es| ==> es[j] == MakeEntry(view, all[start + j], start + j, processName)
  {
    seq(|all| - start, j requires 0 <= j < |all| - start => MakeEntry(view, all[start + j], start + j, processName))
  }

  /** The numbering loop over the lines of one source. */
  method NumberLines(view: View, start: nat, lines: seq<string>, processName: Option<string>)
    returns (entries: seq<LogEntry>)
    ensures |entries| == |lines|
    ensures forall j :: 0 <= j < |lines| ==> entries[j] == MakeEntry(view, lines[j], start + j, processName)
    ensures forall j :: 0 <= j < |lines| ==> entries[j].lineNumber == (start + j + 1) % 0x1_0000_0000
  {
    entries := [];
    var lineNum := 0;
    while lineNum < |lines|
      invariant 0 <= lineNum == |entries| <= |lines|
      invariant forall j :: 0 <= j < lineNum ==> entries[j] == MakeEntry(view, lines[j], start + j, processName)
    {
      entries := entries + [MakeEntry(view, lines[lineNum], start + lineNum, processName)];
      lineNum := lineNum + 1;
    }
  }

  /**
   What a tail shows: as many of the last lines as asked for, but at most
   10000 and all there are, each as that line of the file.
   */
  ghost predicate ShowsLast(view: View, file: Bytes, asked: nat, name: string, entries: seq<LogEntry>) {
    var total := |RawLines(file)|;
    && |entries| <= asked && |entries| <= 10_000 && |entries| <= total
    && (|entries| == asked || |entries| == 10_000 || |entries| == total)
    && (forall j :: 0 <= j < |entries| ==> entries[j].processName == Some(name))
    && (forall j :: 0 <= j < |entries| ==> ShowsLine(view, file, total - |entries| + j, entries[j]))
  }

  lemma LastAreShown(view: View, file: Bytes, asked: nat, name: string, start: nat, entries: seq<LogEntry>)
    requires start + Min(ClampTail(asked), |RawLines(file)|) == |RawLines(file)|
    requires entries == EntriesFrom(view, ReadLines(view.decode, file), start, Some(name))
    ensures ShowsLast(view, file, asked, name, entries)
  {
    EntriesShow(view, file, start, Some(name));
    assert |RawLines(file)| - |entries| == start;
  }

  /** One source of a `get_logs` request: the last lines, 100 if nothing else is asked for. */
  method TailEntries(view: View, file: Bytes, requested: Option<u32>, name: string) returns (entries: seq<LogEntry>)
    ensures ShowsLast(view, file, if requested.Some? then requested.value else 100, name, entries)
  {
    var tail := ClampTail(if requested.Some? then requested.value else DEFAULT_TAIL);
    entries := LastEntries(view, file, tail, name);
    ghost var total := |RawLines(file)|;
    LastAreShown(view, file, if requested.Some? then requested.value else DEFAULT_TAIL, name,
                 total - Min(tail, total), entries);
  }

  lemma EntriesShow(view: View, file: Bytes, start: nat, processName: Option<string>)
    requires start <= |ReadLines(view.decode, file)|
    ensures var entries := EntriesFrom(view, ReadLines(view.decode, file), start, processName);
            forall j :: 0 <= j < |entries| ==> ShowsLine(view, file, start + j, entries[j])
  {
    forall j | 0 <= j < |ReadLines(view.decode, file)| - start
      ensures ShowsLine(view, file, start + j, EntriesFrom(view, ReadLines(view.decode, file), start, processName)[j])
    {
      EntryShowsLine(view, file, start + j, processName);
    }
  }

  method LastEntries(view: View, file: Bytes, tail: nat, name: string) returns (entries: seq<LogEntry>)
    ensures var all := ReadLines(view.decode, file);
            entries == EntriesFrom(view, all, |all| - Min(tail, |all|), Some(name))
  {
    entries := [];
    if tail > 0 {
      entries := ReadLastEntries(view, file, tail, name);
    }
  }

  method ReadLastEntries(view: View, file: Bytes, tail: nat, name: string) returns (entries: seq<LogEntry>)
    ensures var all := ReadLines(view.decode, file);
            entries == EntriesFrom(view, all, |all| - Min(tail, |all|), Some(name))
  {
    var startIdx, lines := TailLogLines(file, view.decode, tail);
    entries := NumberLines(view, startIdx, lines, Some(name));
    NumberedLast(view, ReadLines(view.decode, file), tail, startIdx, lines, Some(name), entries);
  }

  lemma NumberedLast(
    view: View, all: seq<string>, tail: nat, start: nat, lines: seq<string>, processName: Option<string>,
    entries: seq<LogEntry>)
    requires lines == LastN(all, tail) && start + |lines| == |all|
    requires |entries| == |lines|
    requires forall j :: 0 <= j < |lines| ==> entries[j] == MakeEntry(view, lines[j], start + j, processName)
    ensures entries == EntriesFrom(view, all, |all| - Min(tail, |all|), processName)
  {
    NumberedSuffix(view, all, start, lines, processName, entries);
  }

  lemma NumberedSuffix(
    view: View, all: seq<string>, start: nat, lines: seq<string>, processName: Option<string>, entries: seq<LogEntry>)
    requires start <= |all| && lines == all[start..]
    requires |entries| == |lines|
    requires forall j :: 0 <= j < |lines| ==> entries[j] == MakeEntry(view, lines[j], start + j, processName)
    ensures entries == EntriesFrom(view, all, start, processName)
  {
    assert forall j :: 0 <= j < |lines| ==> lines[j] == all[start + j];
  }
}
