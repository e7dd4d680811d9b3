/**
 What a tail and a search of the same log file say about the same lines.
 */
module LogAgreement {
  import opened Integers
  import opened Sequences
  import opened LineSplitting
  import opened RecordFormat
  import opened LogReader
  import opened LogGrep

  /** `e` is the entry of some line of the file, under that line's own number. */
  ghost predicate FromFile(view: View, all: seq<string>, e: LogEntry) {
    exists i :: 0 <= i < |all| && e == MakeEntry(view, all[i], i, None)
  }

  lemma {:induction false} SelectedFromFile(view: View, q: Query, all: seq<string>, n: nat)
    requires n <= |all|
    ensures forall p :: p in Selected(view, q, all, n) ==> FromFile(view, all, p.entry)
  {
    if n > 0 {
      SelectedFromFile(view, q, all, n - 1);
    }
  }

  lemma EntryOf(ls: seq<ParsedLogLine>, e: LogEntry) returns (p: ParsedLogLine)
    requires e in Entries(ls)
    ensures p in ls && p.entry == e
  {
    var k :| 0 <= k < |ls| && Entries(ls)[k] == e;
    p := ls[k];
  }

  lemma ReportedFromSelection(q: Query, ls: seq<ParsedLogLine>, i: nat, e: LogEntry) returns (p: ParsedLogLine)
    requires i < |ls| && e in Reported(MatchAt(q, ls, i))
    ensures p in ls && p.entry == e
  {
    var m := MatchAt(q, ls, i);
    if e in m.contextBefore {
      p := EntryOf(ls[i - Min(q.before, i)..i], e);
    } else if e in m.contextAfter {
      p := EntryOf(ls[i + 1..Min(|ls|, i + 1 + q.after)], e);
    } else {
      p := ls[i];
    }
  }

  /** The entries of a tail from `start` on, without the name of the process. */
  function TailOf(view: View, all: seq<string>, start: nat): seq<LogEntry>
    requires start <= |all|
  {
    EntriesFrom(view, all, start, None)
  }

  /**
   Entries shown under one number by a search and by a tail of the same file
   belong to lines a multiple of 2^32 apart; up to 2^32 lines that is the same
   line, with the same time, level and content in both.
   */
  lemma TailAgreesWithGrep(
    view: View, q: Query, all: seq<string>, ms: seq<GrepMatch>, m: nat, e: LogEntry, start: nat, j: nat)
    requires IsAnswer(q, Selected(view, q, all, |all|), ms)
    requires m < |ms| && e in Reported(ms[m])
    requires start <= |all| && j < |TailOf(view, all, start)|
    requires TailOf(view, all, start)[j].lineNumber == e.lineNumber
    ensures exists i :: 0 <= i < |all| && e == MakeEntry(view, all[i], i, None) && (i - (start + j)) % U32_RANGE == 0
    ensures |all| <= U32_RANGE ==> TailOf(view, all, start)[j] == e
  {
    var i := ReportedLine(view, q, all, ms, m, e);
    SameNumber(view, all, i, start, j);
  }

  /** What equal numbers say about two lines of a file. */
  lemma SameNumber(view: View, all: seq<string>, i: nat, start: nat, j: nat)
    requires i < |all| && start + j < |all|
    requires TailOf(view, all, start)[j].lineNumber == LineNumber(i)
    ensures (i - (start + j)) % U32_RANGE == 0
    ensures |all| <= U32_RANGE ==> TailOf(view, all, start)[j] == MakeEntry(view, all[i], i, None)
  {
    assert TailOf(view, all, start)[j] == MakeEntry(view, all[start + j], start + j, None);
    LineNumberExact(i, start + j);
  }

  /** The line that a search reports as `e`. */
  lemma ReportedLine(view: View, q: Query, all: seq<string>, ms: seq<GrepMatch>, m: nat, e: LogEntry) returns (i: nat)
    requires IsAnswer(q, Selected(view, q, all, |all|), ms)
    requires m < |ms| && e in Reported(ms[m])
    ensures i < |all| && e == MakeEntry(view, all[i], i, None)
  {
    var ls := Selected(view, q, all, |all|);
    var p := ReportedFromSelection(q, ls, Positions(q.isMatch, ls, |ls|)[m], e);
    SelectedFromFile(view, q, all, |all|);
    assert FromFile(view, all, p.entry);
    i :| 0 <= i < |all| && e == MakeEntry(view, all[i], i, None);
  }

  /** A search and a tail, within the limit of a tail, show different entries under one number. */
  ghost predicate Disagree(
    view: View, q: Query, file: Bytes, ms: seq<GrepMatch>, m: nat, e: LogEntry, start: nat, j: nat)
  {
    var all := ReadLines(view.decode, file);
    && IsAnswer(q, Selected(view, q, all, |all|), ms)
    && m < |ms| && e in Reported(ms[m])
    && start <= |all| <= start + MAX_LOG_LINES && j < |TailOf(view, all, start)|
    && TailOf(view, all, start)[j].lineNumber == e.lineNumber
    && TailOf(view, all, start)[j] != e
  }

  /** All lines read "b", except one that reads "a". */
  function OneMarked(n: nat, marked: nat): seq<string> {
    seq(n, k => if k == marked then "a" else "b")
  }

  function FindMarked(): Query {
    Query(line => line == "a", 0, 0, None, None)
  }

  lemma {:induction false} UntimedSelected(view: View, n: nat, marked: nat, k: nat)
    requires k <= n && view.parse("a").timestamp == None && view.parse("b").timestamp == None
    ensures var all := OneMarked(n, marked);
            var ls := Selected(view, FindMarked(), all, k);
            |ls| == k && forall i :: 0 <= i < k ==> ls[i] == ParsedAt(view, all[i], i)
    decreases k
  {
    if k > 0 {
      UntimedSelected(view, n, marked, k - 1);
    }
  }

  lemma {:induction false} OnlyPosition(isMatch: string -> bool, ls: seq<ParsedLogLine>, i: nat, n: nat)
    requires n <= |ls| && forall k :: 0 <= k < |ls| ==> (isMatch(ls[k].original) <==> k == i)
    ensures Positions(isMatch, ls, n) == if i < n then [i] else []
    decreases n
  {
    if n > 0 {
      OnlyPosition(isMatch, ls, i, n - 1);
      var front := Positions(isMatch, ls, n - 1);
      assert Positions(isMatch, ls, n) == front + (if n - 1 == i then [n - 1] else []);
    }
  }

  /** The search finds the marked line and no other. */
  lemma MarkedFound(view: View, n: nat, marked: nat) returns (ms: seq<GrepMatch>)
    requires marked < n && view.parse("a").timestamp == None && view.parse("b").timestamp == None
    ensures var all := OneMarked(n, marked);
            && IsAnswer(FindMarked(), Selected(view, FindMarked(), all, |all|), ms)
            && |ms| == 1 && MakeEntry(view, "a", marked, None) in Reported(ms[0])
  {
    var ls := Selected(view, FindMarked(), OneMarked(n, marked), n);
    UntimedSelected(view, n, marked, n);
    MarkedPosition(view, n, marked);
    ms := OnlyMatch(FindMarked(), ls, marked);
    assert ls[marked].entry == MakeEntry(view, "a", marked, None);
  }

  lemma MarkedPosition(view: View, n: nat, marked: nat)
    requires marked < n && view.parse("a").timestamp == None && view.parse("b").timestamp == None
    ensures var ls := Selected(view, FindMarked(), OneMarked(n, marked), n);
            |ls| == n && Positions(FindMarked().isMatch, ls, n) == [marked]
  {
    var ls := Selected(view, FindMarked(), OneMarked(n, marked), n);
    UntimedSelected(view, n, marked, n);
    assert "a" != "b";
    OnlyPosition(FindMarked().isMatch, ls, marked, n);
  }

  lemma OnlyMatch(q: Query, ls: seq<ParsedLogLine>, i: nat) returns (ms: seq<GrepMatch>)
    requires i < |ls| && Positions(q.isMatch, ls, |ls|) == [i]
    ensures IsAnswer(q, ls, ms) && |ms| == 1 && ls[i].entry in Reported(ms[0])
  {
    ms := [MatchAt(q, ls, i)];
  }

  function MarkedLine(k: int, marked: nat): Bytes {
    if k == marked then [97, LF] else [98, LF]
  }

  function MarkedLines(n: nat, marked: nat): seq<Bytes> {
    seq(n, k => MarkedLine(k, marked))
  }

  lemma LetterDecodes(decode: Bytes -> string, b: byte)
    requires KeepsAscii(decode) && b < 128
    ensures decode([b]) == [b as int as char]
  {
    assert [b] + [] == [b];
  }

  /** The marked lines are the lines of a file. */
  lemma MarkedFileReads(decode: Bytes -> string, n: nat, marked: nat)
    requires KeepsAscii(decode)
    ensures ReadLines(decode, Flatten(MarkedLines(n, marked))) == OneMarked(n, marked)
  {
    MarkedRawLines(n, marked);
    forall k | 0 <= k < n ensures decode(StripEnd(MarkedLine(k, marked))) == OneMarked(n, marked)[k] {
      MarkedLineReads(decode, k, marked);
    }
  }

  lemma MarkedRawLines(n: nat, marked: nat)
    ensures RawLines(Flatten(MarkedLines(n, marked))) == MarkedLines(n, marked)
  {
    var lines := MarkedLines(n, marked);
    SplitUnique(lines, []);
    assert Flatten(lines) + [] == Flatten(lines);
  }

  lemma MarkedLineReads(decode: Bytes -> string, k: int, marked: nat)
    requires KeepsAscii(decode)
    ensures decode(StripEnd(MarkedLine(k, marked))) == if k == marked then "a" else "b"
  {
    LetterDecodes(decode, 97);
    LetterDecodes(decode, 98);
    assert StripEnd([97, LF]) == [97] && StripEnd([98, LF]) == [98];
  }

  lemma MarkedDisagree(codec: Codec, n: nat)
    returns (file: Bytes, ms: seq<GrepMatch>, e: LogEntry)
    requires KeepsAscii(codec.decode) && n > U32_RANGE
    ensures |ReadLines(codec.decode, file)| == n
    ensures Disagree(ViewOf(codec), FindMarked(), file, ms, 0, e, n - 1, 0)
  {
    var view := ViewOf(codec);
    var last := n - 1;
    var marked := last - U32_RANGE;
    file := Flatten(MarkedLines(n, marked));
    MarkedFileReads(codec.decode, n, marked);
    ms := MarkedFound(view, n, marked);
    e := MakeEntry(view, "a", marked, None);
    LastDiffers(view, n, marked);
  }

  /** The last line and the marked one share a number and differ. */
  lemma LastDiffers(view: View, n: nat, marked: nat)
    requires marked + U32_RANGE == n - 1 && view.parse("a").content != view.parse("b").content
    ensures var last := TailOf(view, OneMarked(n, marked), n - 1);
            && |last| == 1 && last[0].lineNumber == MakeEntry(view, "a", marked, None).lineNumber
            && last[0] != MakeEntry(view, "a", marked, None)
  {
    LineNumberExact(marked, n - 1);
    assert TailOf(view, OneMarked(n, marked), n - 1)[0] == MakeEntry(view, "b", n - 1, None);
  }

  /** In files of `n` lines, a search and a tail can disagree if and only if there are more than 2^32 lines. */
  lemma TailAgreesExact(codec: Codec, n: nat)
    requires KeepsAscii(codec.decode)
    ensures (exists q: Query, file: Bytes, ms: seq<GrepMatch>, m: nat, e: LogEntry, start: nat, j: nat ::
               |ReadLines(codec.decode, file)| == n && Disagree(ViewOf(codec), q, file, ms, m, e, start, j))
       <==> n > U32_RANGE
  {
    if n > U32_RANGE {
      var file, ms, e := MarkedDisagree(codec, n);
      assert Disagree(ViewOf(codec), FindMarked(), file, ms, 0, e, n - 1, 0);
    } else {
      forall q: Query, file: Bytes, ms: seq<GrepMatch>, m: nat, e: LogEntry, start: nat, j: nat
        | |ReadLines(codec.decode, file)| == n
        ensures !Disagree(ViewOf(codec), q, file, ms, m, e, start, j)
      {
        if Disagree(ViewOf(codec), q, file, ms, m, e, start, j) {
          TailAgreesWithGrep(ViewOf(codec), q, ReadLines(codec.decode, file), ms, m, e, start, j);
        }
      }
    }
  }
}
