/**
 Searching a log file: the declarative meaning of a search over all selected
 lines, and the streaming search that keeps only a window of them.
 */
module LogGrep {
  import opened Integers
  import opened Sequences
  import opened LineSplitting
  import opened RecordFormat
  import opened LogReader

  const MAX_GREP_CONTEXT := 1_000
  const MAX_GREP_MATCHES := 1_000
  const DEFAULT_CONTEXT := 3

  datatype ParsedLogLine = ParsedLogLine(original: string, entry: LogEntry)

  datatype GrepMatch = GrepMatch(matchedLine: LogEntry, contextBefore: seq<LogEntry>, contextAfter: seq<LogEntry>)

  datatype PendingMatch = PendingMatch(found: GrepMatch, afterRemaining: nat)

  /** A search: pattern, context sizes and time range. */
  datatype Query = Query(
    isMatch: string -> bool, before: nat, after: nat, since: Option<Instant>, until: Option<Instant>)

  function ClampGrepContext(value: u32): nat {
    Min(value, MAX_GREP_CONTEXT)
  }

  // ----- Meaning

  predicate InRange(q: Query, timestamp: Option<Instant>) {
    timestamp.Some? ==>
      && (q.since.Some? ==> timestamp.value >= q.since.value)
      && (q.until.Some? ==> timestamp.value <= q.until.value)
  }

  function ParsedAt(view: View, line: string, index: nat): ParsedLogLine {
    ParsedLogLine(line, MakeEntry(view, line, index, None))
  }

  /** The lines among the first `n` that pass the time filter, numbered by their place in the file. */
  function Selected(view: View, q: Query, all: seq<string>, n: nat): seq<ParsedLogLine>
    requires n <= |all|
  {
    if n == 0 then []
    else
      var p := ParsedAt(view, all[n - 1], n - 1);
      Selected(view, q, all, n - 1) + (if InRange(q, p.entry.timestamp) then [p] else [])
  }

  /** The places among the first `n` of `ls` whose line matches, in order. */
  function Positions(isMatch: string -> bool, ls: seq<ParsedLogLine>, n: nat): seq<nat>
    requires n <= |ls|
  {
    if n == 0 then []
    else Positions(isMatch, ls, n - 1) + (if isMatch(ls[n - 1].original) then [n - 1] else [])
  }

  function Entries(ls: seq<ParsedLogLine>): seq<LogEntry> {
    Map((p: ParsedLogLine) => p.entry, ls)
  }

  function Before(ls: seq<ParsedLogLine>, i: nat, before: nat): seq<LogEntry>
    requires i <= |ls|
  {
    Entries(ls[i - Min(before, i)..i])
  }

  function After(ls: seq<ParsedLogLine>, i: nat, after: nat): seq<LogEntry>
    requires i < |ls|
  {
    Entries(ls[i + 1..Min(|ls|, i + 1 + after)])
  }

  /** The match at place `i`, with its neighbours among the selected lines. */
  function MatchAt(q: Query, ls: seq<ParsedLogLine>, i: nat): GrepMatch
    requires i < |ls|
  {
    GrepMatch(ls[i].entry, Before(ls, i, q.before), After(ls, i, q.after))
  }

  /** `ms` are the matches of `ls` at the first places of `ps`. */
  predicate MatchesAt(q: Query, ls: seq<ParsedLogLine>, ps: seq<nat>, ms: seq<GrepMatch>) {
    && |ms| <= |ps|
    && forall j :: 0 <= j < |ms| ==> ps[j] < |ls| && ms[j] == MatchAt(q, ls, ps[j])
  }

  /** The meaning of a search: the first 1000 matching lines in order, each with its context. */
  predicate IsAnswer(q: Query, ls: seq<ParsedLogLine>, ms: seq<GrepMatch>) {
    var ps := Positions(q.isMatch, ls, |ls|);
    && |ms| == Min(|ps|, MAX_GREP_MATCHES)
    && MatchesAt(q, ls, ps, ms)
  }

  /** Positions are strictly increasing and exactly the matching places. */
  lemma {:induction false} PositionsExact(isMatch: string -> bool, ls: seq<ParsedLogLine>, n: nat)
    requires n <= |ls|
    ensures Increasing(Positions(isMatch, ls, n))
    ensures forall i :: i in Positions(isMatch, ls, n) <==> 0 <= i < n && isMatch(ls[i].original)
  {
    if n > 0 {
      PositionsExact(isMatch, ls, n - 1);
      var front := Positions(isMatch, ls, n - 1);
      assert forall j :: 0 <= j < |front| ==> front[j] in front;
    }
  }

  // ----- What a search says about the file

  /** The entries a match reports. */
  function Reported(m: GrepMatch): seq<LogEntry> {
    m.contextBefore + [m.matchedLine] + m.contextAfter
  }

  /** Since when and until when. */
  datatype TimeRange = TimeRange(since: Option<Instant>, until: Option<Instant>)

  /** Whether a time, if there is one, lies in the range. */
  predicate Within(times: TimeRange, time: Option<Instant>) {
    time.None? || ((times.since.None? || times.since.value <= time.value)
                   && (times.until.None? || time.value <= times.until.value))
  }

  /** The lines that take part in a search, in file order: all without a time, and those with one in the range. */
  ghost predicate TakePart(view: View, times: TimeRange, all: seq<string>, places: seq<nat>) {
    ChosenAt(line => Within(times, view.parse(line).timestamp), all, places)
  }

  /** Those of the places whose line matches, in order. */
  ghost predicate AreHits(isMatch: string -> bool, all: seq<string>, places: seq<nat>, hits: seq<nat>) {
    && Increasing(hits)
    && forall k: nat :: k in hits <==> k < |places| && places[k] < |all| && isMatch(all[places[k]])
  }

  /** The entries show the lines of the file at these places, from the `k`th on. */
  ghost predicate ShowPlaces(view: View, file: Bytes, places: seq<nat>, k: nat, entries: seq<LogEntry>) {
    && k + |entries| <= |places|
    && forall x :: 0 <= x < |entries| ==> ShowsLine(view, file, places[k + x], entries[x])
  }

  /** The context in front of the match at `places[k]`: the nearest lines that take part. */
  ghost predicate ShowsBefore(
    view: View, file: Bytes, places: seq<nat>, k: nat, before: nat, entries: seq<LogEntry>)
  {
    k < |places| && |entries| == Min(before, k) && ShowPlaces(view, file, places, k - Min(before, k), entries)
  }

  ghost predicate ShowsAfter(view: View, file: Bytes, places: seq<nat>, k: nat, after: nat, entries: seq<LogEntry>) {
    k < |places| && |entries| == Min(after, |places| - 1 - k) && ShowPlaces(view, file, places, k + 1, entries)
  }

  ghost predicate ShowsMatch(
    view: View, file: Bytes, before: nat, after: nat, places: seq<nat>, k: nat, m: GrepMatch)
  {
    && k < |places| && ShowsLine(view, file, places[k], m.matchedLine)
    && ShowsBefore(view, file, places, k, before, m.contextBefore)
    && ShowsAfter(view, file, places, k, after, m.contextAfter)
  }

  /** The answer to a search, said of the file: its first 1000 matching lines in the range, each in its context. */
  ghost predicate AnswersAt(
    view: View, q: Query, file: Bytes, places: seq<nat>, hits: seq<nat>, ms: seq<GrepMatch>)
  {
    && TakePart(view, TimeRange(q.since, q.until), ReadLines(view.decode, file), places)
    && AreHits(q.isMatch, ReadLines(view.decode, file), places, hits)
    && |ms| == Min(|hits|, 1000)
    && forall j :: 0 <= j < |ms| ==> ShowsMatch(view, file, q.before, q.after, places, hits[j], ms[j])
  }

  ghost predicate AnswersFor(view: View, q: Query, file: Bytes, ms: seq<GrepMatch>) {
    exists places: seq<nat>, hits: seq<nat> :: AnswersAt(view, q, file, places, hits, ms)
  }

  /** `ls` are the parsed lines at these places of the file. */
  ghost predicate LinesAt(view: View, all: seq<string>, places: seq<nat>, ls: seq<ParsedLogLine>) {
    && |ls| == |places|
    && forall k :: 0 <= k < |ls| ==> places[k] < |all| && ls[k] == ParsedAt(view, all[places[k]], places[k])
  }

  lemma NextTakesPart(view: View, q: Query, all: seq<string>, line: string, places: seq<nat>)
    requires TakePart(view, TimeRange(q.since, q.until), all, places)
    ensures TakePart(view, TimeRange(q.since, q.until), all + [line],
                     if InRange(q, view.parse(line).timestamp) then places + [|all|] else places)
  {
    var times := TimeRange(q.since, q.until);
    assert InRange(q, view.parse(line).timestamp) == Within(times, view.parse(line).timestamp);
    ChosenNext(l => Within(times, view.parse(l).timestamp), all, line, places);
  }

  lemma LinesAtNext(view: View, all: seq<string>, places: seq<nat>, ls: seq<ParsedLogLine>, i: nat)
    requires LinesAt(view, all, places, ls) && i < |all|
    ensures LinesAt(view, all, places + [i], ls + [ParsedAt(view, all[i], i)])
  {
  }

  lemma SelectedUnfold(view: View, q: Query, all: seq<string>, n: nat)
    requires n < |all|
    ensures InRange(q, view.parse(all[n]).timestamp) ==>
              Selected(view, q, all, n + 1) == Selected(view, q, all, n) + [ParsedAt(view, all[n], n)]
    ensures !InRange(q, view.parse(all[n]).timestamp) ==> Selected(view, q, all, n + 1) == Selected(view, q, all, n)
  {
    var ls := Selected(view, q, all, n);
    assert ls + [] == ls;
  }

  lemma PrefixTakesPart(view: View, q: Query, all: seq<string>, n: nat, front: seq<nat>)
    requires n < |all| && TakePart(view, TimeRange(q.since, q.until), all[..n], front)
    ensures TakePart(view, TimeRange(q.since, q.until), all[..n + 1],
                     if InRange(q, view.parse(all[n]).timestamp) then front + [n] else front)
  {
    NextTakesPart(view, q, all[..n], all[n], front);
    assert all[..n] + [all[n]] == all[..n + 1];
  }

  lemma SelectedNext(view: View, q: Query, all: seq<string>, n: nat, front: seq<nat>) returns (places: seq<nat>)
    requires n < |all|
    requires TakePart(view, TimeRange(q.since, q.until), all[..n], front)
    requires LinesAt(view, all, front, Selected(view, q, all, n))
    ensures TakePart(view, TimeRange(q.since, q.until), all[..n + 1], places)
    ensures LinesAt(view, all, places, Selected(view, q, all, n + 1))
  {
    places := if InRange(q, view.parse(all[n]).timestamp) then front + [n] else front;
    PrefixTakesPart(view, q, all, n, front);
    SelectedUnfold(view, q, all, n);
    LinesAtNext(view, all, front, Selected(view, q, all, n), n);
  }

  /** The time filter keeps exactly the lines that take part. */
  lemma {:induction false} SelectedExact(view: View, q: Query, all: seq<string>, n: nat) returns (places: seq<nat>)
    requires n <= |all|
    ensures TakePart(view, TimeRange(q.since, q.until), all[..n], places)
    ensures LinesAt(view, all, places, Selected(view, q, all, n))
    decreases n
  {
    if n == 0 {
      places := [];
    } else {
      places := SelectedExact(view, q, all, n - 1);
      places := SelectedNext(view, q, all, n - 1, places);
    }
  }

  lemma EntriesShowPlaces(
    view: View, file: Bytes, places: seq<nat>, ls: seq<ParsedLogLine>, k: nat, end: nat)
    requires LinesAt(view, ReadLines(view.decode, file), places, ls) && k <= end <= |ls|
    ensures ShowPlaces(view, file, places, k, Entries(ls[k..end]))
  {
    forall x | 0 <= x < end - k ensures ShowsLine(view, file, places[k + x], Entries(ls[k..end])[x]) {
      assert Entries(ls[k..end])[x] == ls[k + x].entry;
      EntryShowsLine(view, file, places[k + x], None);
    }
  }

  lemma BeforeShown(view: View, file: Bytes, places: seq<nat>, ls: seq<ParsedLogLine>, k: nat, before: nat)
    requires LinesAt(view, ReadLines(view.decode, file), places, ls) && k < |ls|
    ensures ShowsBefore(view, file, places, k, before, Before(ls, k, before))
  {
    EntriesShowPlaces(view, file, places, ls, k - Min(before, k), k);
  }

  lemma AfterShown(view: View, file: Bytes, places: seq<nat>, ls: seq<ParsedLogLine>, k: nat, after: nat)
    requires LinesAt(view, ReadLines(view.decode, file), places, ls) && k < |ls|
    ensures ShowsAfter(view, file, places, k, after, After(ls, k, after))
  {
    EntriesShowPlaces(view, file, places, ls, k + 1, Min(|ls|, k + 1 + after));
  }

  lemma MatchShown(view: View, q: Query, file: Bytes, places: seq<nat>, ls: seq<ParsedLogLine>, k: nat)
    requires LinesAt(view, ReadLines(view.decode, file), places, ls) && k < |ls|
    ensures ShowsMatch(view, file, q.before, q.after, places, k, MatchAt(q, ls, k))
  {
    EntryShowsLine(view, file, places[k], None);
    BeforeShown(view, file, places, ls, k, q.before);
    AfterShown(view, file, places, ls, k, q.after);
  }

  /** What the search gives over the selected lines is the answer said of the file. */
  lemma AnswerExact(view: View, q: Query, file: Bytes, ms: seq<GrepMatch>)
    requires var all := ReadLines(view.decode, file); IsAnswer(q, Selected(view, q, all, |all|), ms)
    ensures AnswersFor(view, q, file, ms)
  {
    var all := ReadLines(view.decode, file);
    var ls := Selected(view, q, all, |all|);
    var places := SelectedExact(view, q, all, |all|);
    assert all[..|all|] == all;
    var hits := Positions(q.isMatch, ls, |ls|);
    PositionsExact(q.isMatch, ls, |ls|);
    forall j | 0 <= j < |ms| ensures ShowsMatch(view, file, q.before, q.after, places, hits[j], ms[j]) {
      MatchShown(view, q, file, places, ls, hits[j]);
    }
    assert AnswersAt(view, q, file, places, hits, ms);
  }

  lemma EntryShown(view: View, file: Bytes, places: seq<nat>, k: nat, entries: seq<LogEntry>, e: LogEntry)
    returns (i: nat)
    requires ShowPlaces(view, file, places, k, entries) && e in entries
    ensures i in places && ShowsLine(view, file, i, e)
  {
    var x :| 0 <= x < |entries| && entries[x] == e;
    i := places[k + x];
  }

  lemma ReportedSomewhere(m: GrepMatch, e: LogEntry)
    requires e in Reported(m)
    ensures e in m.contextBefore || e == m.matchedLine || e in m.contextAfter
  {
  }

  lemma ContextShown(
    view: View, file: Bytes, before: nat, after: nat, places: seq<nat>, k: nat, m: GrepMatch)
    requires ShowsMatch(view, file, before, after, places, k, m)
    ensures ShowPlaces(view, file, places, k - Min(before, k), m.contextBefore)
    ensures ShowPlaces(view, file, places, k + 1, m.contextAfter)
    ensures ShowPlaces(view, file, places, k, [m.matchedLine])
  {
  }

  lemma ReportedInPlaces(
    view: View, file: Bytes, places: seq<nat>, start: nat, k: nat, m: GrepMatch, e: LogEntry) returns (i: nat)
    requires ShowPlaces(view, file, places, start, m.contextBefore)
    requires ShowPlaces(view, file, places, k, [m.matchedLine])
    requires ShowPlaces(view, file, places, k + 1, m.contextAfter)
    requires e in Reported(m)
    ensures i in places && ShowsLine(view, file, i, e)
  {
    ReportedSomewhere(m, e);
    if e in m.contextBefore {
      i := EntryShown(view, file, places, start, m.contextBefore, e);
    } else if e in m.contextAfter {
      i := EntryShown(view, file, places, k + 1, m.contextAfter, e);
    } else {
      i := EntryShown(view, file, places, k, [m.matchedLine], e);
    }
  }

  lemma ReportedShown(
    view: View, file: Bytes, before: nat, after: nat, places: seq<nat>, k: nat, m: GrepMatch, e: LogEntry)
    returns (i: nat)
    requires ShowsMatch(view, file, before, after, places, k, m) && e in Reported(m)
    ensures i in places && ShowsLine(view, file, i, e)
  {
    ContextShown(view, file, before, after, places, k, m);
    i := ReportedInPlaces(view, file, places, k - Min(before, k), k, m, e);
  }

  /** Whatever is reported lies in the range asked for, if it has a time at all. */
  lemma ReportedInRange(view: View, q: Query, file: Bytes, ms: seq<GrepMatch>, j: nat, e: LogEntry)
    requires AnswersFor(view, q, file, ms) && j < |ms| && e in Reported(ms[j])
    ensures Within(TimeRange(q.since, q.until), e.timestamp)
  {
    var places: seq<nat>, hits: seq<nat> :| AnswersAt(view, q, file, places, hits, ms);
    var i := ReportedShown(view, file, q.before, q.after, places, hits[j], ms[j], e);
    assert e.timestamp == view.parse(ReadLines(view.decode, file)[i]).timestamp;
  }

  /** With fewer than 1000 matches, every matching line without a time or in the range is one of them. */
  lemma FewMatchesAreAll(view: View, q: Query, file: Bytes, ms: seq<GrepMatch>, i: nat)
    requires AnswersFor(view, q, file, ms) && |ms| < 1000
    requires i < |ReadLines(view.decode, file)|
    requires var line := ReadLines(view.decode, file)[i];
             q.isMatch(line) && Within(TimeRange(q.since, q.until), view.parse(line).timestamp)
    ensures exists j :: 0 <= j < |ms| && ShowsLine(view, file, i, ms[j].matchedLine)
  {
    var places: seq<nat>, hits: seq<nat> :| AnswersAt(view, q, file, places, hits, ms);
    assert i in places;
    var k: nat :| k < |places| && places[k] == i;
    assert k in hits;
    var j: nat :| j < |hits| && hits[j] == k;
    assert ShowsMatch(view, file, q.before, q.after, places, hits[j], ms[j]);
  }

  /** The places in a prefix come first. */
  lemma {:induction false} PositionsOfPrefix(
    isMatch: string -> bool, ls: seq<ParsedLogLine>, longer: seq<ParsedLogLine>, n: nat)
    requires ls <= longer && n <= |ls|
    ensures Positions(isMatch, ls, n) == Positions(isMatch, longer, n)
  {
    if n > 0 {
      PositionsOfPrefix(isMatch, ls, longer, n - 1);
    }
  }

  lemma PositionsGrow(isMatch: string -> bool, ls: seq<ParsedLogLine>, n: nat, m: nat)
    requires n <= m <= |ls|
    ensures Positions(isMatch, ls, n) <= Positions(isMatch, ls, m)
    decreases m - n
  {
    if n < m {
      PositionsGrow(isMatch, ls, n + 1, m);
    }
  }

  lemma SelectedGrows(view: View, q: Query, all: seq<string>, n: nat)
    requires n <= |all|
    ensures Selected(view, q, all, n) <= Selected(view, q, all, |all|)
    decreases |all| - n
  {
    if n < |all| {
      SelectedGrows(view, q, all, n + 1);
    }
  }

  // ----- The streaming state

  /** The longest a match stays pending: at least until the next selected line. */
  function Wait(q: Query): nat { Max(1, q.after) }

  /** What is pending for place `i` after the lines `ls`. */
  function PendingAt(q: Query, ls: seq<ParsedLogLine>, i: nat): PendingMatch
    requires i < |ls|
  {
    PendingMatch(MatchAt(q, ls, i), Max(0, q.after - (|ls| - 1 - i)))
  }

  /** Of the places `ps`, the first |results| are complete and the rest pending. */
  predicate StreamingOver(
    q: Query, ls: seq<ParsedLogLine>, ps: seq<nat>, results: seq<GrepMatch>, pending: seq<PendingMatch>)
  {
    && |results| + |pending| == |ps|
    && MatchesAt(q, ls, ps, results)
    && (forall j :: 0 <= j < |results| ==> ps[j] + Wait(q) < |ls|)
    && (forall j :: |results| <= j < |ps| ==> ps[j] < |ls| <= ps[j] + Wait(q))
    && (forall j :: |results| <= j < |ps| ==> pending[j - |results|] == PendingAt(q, ls, ps[j]))
  }

  /** The loop invariant, over all matching places of the lines seen. */
  predicate Streaming(q: Query, ls: seq<ParsedLogLine>, results: seq<GrepMatch>, pending: seq<PendingMatch>) {
    StreamingOver(q, ls, Positions(q.isMatch, ls, |ls|), results, pending)
  }

  lemma {:induction false} IncreasingSpread(ps: seq<nat>, a: nat, b: nat)
    requires Increasing(ps) && a <= b < |ps|
    ensures ps[b] - ps[a] >= b - a
    decreases b
  {
    if a < b {
      IncreasingSpread(ps, a, b - 1);
    }
  }

  /** The search never holds more pending matches than the after-context has lines, or one. */
  lemma PendingBounded(q: Query, ls: seq<ParsedLogLine>, results: seq<GrepMatch>, pending: seq<PendingMatch>)
    requires Streaming(q, ls, results, pending)
    ensures |pending| <= Max(1, q.after)
  {
    var ps := Positions(q.isMatch, ls, |ls|);
    PositionsExact(q.isMatch, ls, |ls|);
    if pending != [] {
      IncreasingSpread(ps, |results|, |ps| - 1);
    }
  }

  // ----- The in-place steps of the search

  function Advance(p: PendingMatch, entry: LogEntry): PendingMatch {
    if p.afterRemaining > 0
    then PendingMatch(p.found.(contextAfter := p.found.contextAfter + [entry]), p.afterRemaining - 1)
    else p
  }

  /** Appends the current line to every pending match that still wants lines. */
  method AdvancePending(pending: seq<PendingMatch>, entry: LogEntry) returns (advanced: seq<PendingMatch>)
    ensures |advanced| == |pending|
    ensures forall j :: 0 <= j < |pending| ==> advanced[j] == Advance(pending[j], entry)
  {
    advanced := pending;
    var j := 0;
    while j < |advanced|
      invariant 0 <= j <= |advanced| == |pending|
      invariant forall k :: 0 <= k < j ==> advanced[k] == Advance(pending[k], entry)
      invariant forall k :: j <= k < |pending| ==> advanced[k] == pending[k]
    {
      if advanced[j].afterRemaining > 0 {
        var grown := advanced[j].found.(contextAfter := advanced[j].found.contextAfter + [entry]);
        advanced := advanced[j := PendingMatch(grown, advanced[j].afterRemaining - 1)];
      }
      j := j + 1;
    }
  }

  predicate IsComplete(p: PendingMatch) { p.afterRemaining == 0 }

  predicate IsWaiting(p: PendingMatch) { p.afterRemaining != 0 }

  function Found(ps: seq<PendingMatch>): seq<GrepMatch> {
    Map((p: PendingMatch) => p.found, ps)
  }

  /** Where the list stands after `seen` of the pending matches: the kept ones, then those not looked at. */
  predicate Moving(
    pending0: seq<PendingMatch>, results0: seq<GrepMatch>, seen: nat, i: nat,
    pending: seq<PendingMatch>, results: seq<GrepMatch>)
  {
    && seen <= |pending0|
    && i == |FilterTo(IsWaiting, pending0, seen)|
    && pending == FilterTo(IsWaiting, pending0, seen) + pending0[seen..]
    && results == results0 + Found(FilterTo(IsComplete, pending0, seen))
  }

  lemma MoveOne(
    pending0: seq<PendingMatch>, results0: seq<GrepMatch>, seen: nat, i: nat,
    pending: seq<PendingMatch>, results: seq<GrepMatch>)
    requires Moving(pending0, results0, seen, i, pending, results) && i < |pending|
    ensures seen < |pending0| && pending[i] == pending0[seen]
    ensures IsComplete(pending[i]) ==>
              Moving(pending0, results0, seen + 1, i, pending[..i] + pending[i + 1..], results + [pending[i].found])
    ensures IsWaiting(pending[i]) ==> Moving(pending0, results0, seen + 1, i + 1, pending, results)
  {
    var kept, rest := FilterTo(IsWaiting, pending0, seen), pending0[seen..];
    AtSeam(kept, rest);
    assert rest[1..] == pending0[seen + 1..];
    if IsComplete(pending[i]) {
      var done := FilterTo(IsComplete, pending0, seen);
      FoundSnoc(done, pending[i]);
      ConcatAssoc(results0, Found(done), [pending[i].found]);
    }
  }

  /** Moves the completed matches, in order, from the pending list to the results. */
  method MoveCompleted(pending0: seq<PendingMatch>, results0: seq<GrepMatch>)
    returns (pending: seq<PendingMatch>, results: seq<GrepMatch>)
    ensures pending == FilterTo(IsWaiting, pending0, |pending0|)
    ensures results == results0 + Found(FilterTo(IsComplete, pending0, |pending0|))
  {
    pending, results := pending0, results0;
    ghost var seen := 0;
    var i := 0;
    while i < |pending|
      invariant Moving(pending0, results0, seen, i, pending, results)
      decreases |pending0| - seen
    {
      MoveOne(pending0, results0, seen, i, pending, results);
      if pending[i].afterRemaining == 0 {
        results := results + [pending[i].found];
        pending := pending[..i] + pending[i + 1..];
      } else {
        i := i + 1;
      }
      seen := seen + 1;
    }
  }

  lemma FoundSnoc(a: seq<PendingMatch>, x: PendingMatch)
    ensures Found(a + [x]) == Found(a) + [x.found]
  {
  }

  // ----- Each step keeps the invariant

  /** A match whose after-context is complete is final. */
  lemma MatchIsFinal(q: Query, ls: seq<ParsedLogLine>, longer: seq<ParsedLogLine>, i: nat)
    requires ls <= longer && i + q.after < |ls|
    ensures MatchAt(q, longer, i) == MatchAt(q, ls, i)
  {
    assert longer[i - Min(q.before, i)..i] == ls[i - Min(q.before, i)..i];
    assert longer[i + 1..i + 1 + q.after] == ls[i + 1..i + 1 + q.after];
  }

  lemma AdvanceTracks(q: Query, ls: seq<ParsedLogLine>, p: ParsedLogLine, i: nat)
    requires i < |ls| <= i + Wait(q)
    ensures Advance(PendingAt(q, ls, i), p.entry) == PendingAt(q, ls + [p], i)
    ensures IsComplete(PendingAt(q, ls + [p], i)) <==> i + Wait(q) < |ls| + 1
  {
    var longer := ls + [p];
    assert longer[i - Min(q.before, i)..i] == ls[i - Min(q.before, i)..i];
    if q.after > 0 {
      assert longer[i + 1..] == ls[i + 1..] + [p];
      assert After(longer, i, q.after) == After(ls, i, q.after) + [p.entry];
    } else {
      assert longer[i + 1..i + 1] == ls[i + 1..i + 1];
    }
  }

  lemma {:induction false} FilterYounger(pending: seq<PendingMatch>, n: nat)
    requires 1 <= n <= |pending|
    requires forall j :: 1 <= j < |pending| ==> IsWaiting(pending[j])
    ensures FilterTo(IsWaiting, pending, n) == FilterTo(IsWaiting, pending, 1) + pending[1..n]
    ensures FilterTo(IsComplete, pending, n) == FilterTo(IsComplete, pending, 1)
    decreases n
  {
    if n == 1 {
      assert FilterTo(IsWaiting, pending, 1) + pending[1..1] == FilterTo(IsWaiting, pending, 1);
    } else {
      FilterYounger(pending, n - 1);
      FilterStep(pending, n);
      ConcatAssoc(FilterTo(IsWaiting, pending, 1), pending[1..n - 1], [pending[n - 1]]);
      assert pending[1..n - 1] + [pending[n - 1]] == pending[1..n];
    }
  }

  lemma FilterStep(pending: seq<PendingMatch>, n: nat)
    requires 1 <= n <= |pending|
    ensures IsWaiting(pending[n - 1]) ==>
              && FilterTo(IsWaiting, pending, n) == FilterTo(IsWaiting, pending, n - 1) + [pending[n - 1]]
              && FilterTo(IsComplete, pending, n) == FilterTo(IsComplete, pending, n - 1)
    ensures IsComplete(pending[n - 1]) ==>
              && FilterTo(IsWaiting, pending, n) == FilterTo(IsWaiting, pending, n - 1)
              && FilterTo(IsComplete, pending, n) == FilterTo(IsComplete, pending, n - 1) + [pending[n - 1]]
  {
  }

  lemma FilterFirst(pending: seq<PendingMatch>)
    requires pending != []
    ensures IsComplete(pending[0]) ==>
              && FilterTo(IsWaiting, pending, 1) + pending[1..] == pending[1..]
              && Found(FilterTo(IsComplete, pending, 1)) == [pending[0].found]
    ensures IsWaiting(pending[0]) ==>
              && FilterTo(IsWaiting, pending, 1) + pending[1..] == pending
              && Found(FilterTo(IsComplete, pending, 1)) == []
  {
    FilterStep(pending, 1);
    assert [pending[0]] + pending[1..] == pending;
    assert [] + [pending[0]] == [pending[0]];
  }

  lemma MatchesStay(q: Query, ls: seq<ParsedLogLine>, longer: seq<ParsedLogLine>, ps: seq<nat>, ms: seq<GrepMatch>)
    requires ls <= longer && MatchesAt(q, ls, ps, ms)
    requires forall j :: 0 <= j < |ms| ==> ps[j] + Wait(q) < |ls|
    ensures MatchesAt(q, longer, ps, ms)
  {
    forall j | 0 <= j < |ms| ensures ps[j] < |longer| && ms[j] == MatchAt(q, longer, ps[j]) {
      MatchIsFinal(q, ls, longer, ps[j]);
    }
  }

  /** What pending is for place `i` becomes with one more line. */
  predicate AdvancedFor(q: Query, ls: seq<ParsedLogLine>, i: nat, advanced: PendingMatch) {
    && i < |ls| <= i + Wait(q) + 1
    && advanced == PendingAt(q, ls, i)
    && (IsComplete(advanced) <==> i + Wait(q) < |ls|)
  }

  /** `advanced` is what is pending after one more line, before the completed one is moved. */
  predicate Advanced(q: Query, ls: seq<ParsedLogLine>, ps: seq<nat>, c: nat, advanced: seq<PendingMatch>) {
    && c + |advanced| == |ps|
    && forall j :: c <= j < |ps| ==> AdvancedFor(q, ls, ps[j], advanced[j - c])
  }

  lemma AdvanceOne(q: Query, ls: seq<ParsedLogLine>, p: ParsedLogLine, i: nat, pending: PendingMatch)
    requires i < |ls| <= i + Wait(q) && pending == PendingAt(q, ls, i)
    ensures AdvancedFor(q, ls + [p], i, Advance(pending, p.entry))
  {
    AdvanceTracks(q, ls, p, i);
  }

  lemma AdvanceAll(
    q: Query, ls: seq<ParsedLogLine>, p: ParsedLogLine, ps: seq<nat>, results: seq<GrepMatch>,
    pending: seq<PendingMatch>, advanced: seq<PendingMatch>)
    requires StreamingOver(q, ls, ps, results, pending)
    requires |advanced| == |pending|
    requires forall j :: 0 <= j < |pending| ==> advanced[j] == Advance(pending[j], p.entry)
    ensures Advanced(q, ls + [p], ps, |results|, advanced)
  {
    var c := |results|;
    forall j | c <= j < |ps| ensures AdvancedFor(q, ls + [p], ps[j], advanced[j - c]) {
      AdvanceOne(q, ls, p, ps[j], pending[j - c]);
    }
  }

  /** At most one match completes per line, and it is the oldest. */
  lemma OnlyOldestCompletes(q: Query, ls: seq<ParsedLogLine>, ps: seq<nat>, c: nat, advanced: seq<PendingMatch>)
    requires Advanced(q, ls, ps, c, advanced) && Increasing(ps)
    ensures forall k :: 1 <= k < |advanced| ==> IsWaiting(advanced[k])
  {
    forall k | 1 <= k < |advanced| ensures IsWaiting(advanced[k]) {
      assert ps[c] < ps[c + k];
      assert advanced[k] == advanced[(c + k) - c];
    }
  }

  lemma MoveNone(
    q: Query, ls: seq<ParsedLogLine>, ps: seq<nat>, results: seq<GrepMatch>, advanced: seq<PendingMatch>)
    requires MatchesAt(q, ls, ps, results) && Advanced(q, ls, ps, |results|, advanced)
    requires forall j :: 0 <= j < |results| ==> ps[j] + Wait(q) < |ls|
    requires forall k :: 0 <= k < |advanced| ==> IsWaiting(advanced[k])
    ensures StreamingOver(q, ls, ps, results, advanced)
  {
    var c := |results|;
    forall j | c <= j < |ps| ensures ps[j] < |ls| <= ps[j] + Wait(q) {
      assert IsWaiting(advanced[j - c]);
    }
  }

  lemma OldestIsFinal(
    q: Query, ls: seq<ParsedLogLine>, ps: seq<nat>, results: seq<GrepMatch>, advanced: seq<PendingMatch>)
    requires MatchesAt(q, ls, ps, results) && Advanced(q, ls, ps, |results|, advanced)
    requires forall j :: 0 <= j < |results| ==> ps[j] + Wait(q) < |ls|
    requires advanced != [] && IsComplete(advanced[0])
    ensures MatchesAt(q, ls, ps, results + [advanced[0].found])
    ensures forall j :: 0 <= j < |results| + 1 ==> ps[j] + Wait(q) < |ls|
  {
    var c := |results|;
    assert advanced[c - c] == PendingAt(q, ls, ps[c]);
  }

  lemma YoungerStay(q: Query, ls: seq<ParsedLogLine>, ps: seq<nat>, c: nat, advanced: seq<PendingMatch>)
    requires Advanced(q, ls, ps, c, advanced) && advanced != []
    requires forall k :: 1 <= k < |advanced| ==> IsWaiting(advanced[k])
    ensures forall j :: c + 1 <= j < |ps| ==> ps[j] < |ls| <= ps[j] + Wait(q)
    ensures forall j :: c + 1 <= j < |ps| ==> advanced[1..][j - (c + 1)] == PendingAt(q, ls, ps[j])
  {
    forall j | c + 1 <= j < |ps|
      ensures ps[j] < |ls| <= ps[j] + Wait(q) && advanced[1..][j - (c + 1)] == PendingAt(q, ls, ps[j])
    {
      assert advanced[1..][j - (c + 1)] == advanced[j - c];
      assert IsWaiting(advanced[j - c]);
    }
  }

  lemma MoveOldest(
    q: Query, ls: seq<ParsedLogLine>, ps: seq<nat>, results: seq<GrepMatch>, advanced: seq<PendingMatch>)
    requires MatchesAt(q, ls, ps, results) && Advanced(q, ls, ps, |results|, advanced)
    requires forall j :: 0 <= j < |results| ==> ps[j] + Wait(q) < |ls|
    requires advanced != [] && IsComplete(advanced[0])
    requires forall k :: 1 <= k < |advanced| ==> IsWaiting(advanced[k])
    ensures StreamingOver(q, ls, ps, results + [advanced[0].found], advanced[1..])
  {
    OldestIsFinal(q, ls, ps, results, advanced);
    YoungerStay(q, ls, ps, |results|, advanced);
  }

  /** Reading one more selected line, up to moving the completed match. */
  lemma LineStep(
    q: Query, ls: seq<ParsedLogLine>, p: ParsedLogLine, ps: seq<nat>, results: seq<GrepMatch>,
    pending: seq<PendingMatch>, advanced: seq<PendingMatch>)
    requires StreamingOver(q, ls, ps, results, pending) && Increasing(ps)
    requires |advanced| == |pending|
    requires forall j :: 0 <= j < |pending| ==> advanced[j] == Advance(pending[j], p.entry)
    ensures var results' := results + Found(FilterTo(IsComplete, advanced, |advanced|));
            && StreamingOver(q, ls + [p], ps, results', FilterTo(IsWaiting, advanced, |advanced|))
            && |results'| <= |results| + 1
  {
    var longer := ls + [p];
    AdvanceAll(q, ls, p, ps, results, pending, advanced);
    OnlyOldestCompletes(q, longer, ps, |results|, advanced);
    MatchesStay(q, ls, longer, ps, results);
    if advanced != [] && IsComplete(advanced[0]) {
      OldestMoves(advanced);
      MoveOldest(q, longer, ps, results, advanced);
    } else {
      AllStay(advanced);
      MoveNone(q, longer, ps, results, advanced);
      assert results + [] == results;
    }
  }

  lemma OldestMoves(advanced: seq<PendingMatch>)
    requires advanced != [] && IsComplete(advanced[0])
    requires forall k :: 1 <= k < |advanced| ==> IsWaiting(advanced[k])
    ensures FilterTo(IsWaiting, advanced, |advanced|) == advanced[1..]
    ensures Found(FilterTo(IsComplete, advanced, |advanced|)) == [advanced[0].found]
  {
    var n := |advanced|;
    FilterYounger(advanced, n);
    assert advanced[1..n] == advanced[1..];
    FilterFirst(advanced);
  }

  lemma AllStay(advanced: seq<PendingMatch>)
    requires forall k :: 0 <= k < |advanced| ==> IsWaiting(advanced[k])
    ensures FilterTo(IsWaiting, advanced, |advanced|) == advanced
    ensures Found(FilterTo(IsComplete, advanced, |advanced|)) == []
  {
    if advanced != [] {
      var n := |advanced|;
      FilterYounger(advanced, n);
      assert advanced[1..n] == advanced[1..];
      FilterFirst(advanced);
    }
  }

  /** A match on the newest line becomes pending. */
  lemma NewMatchPends(
    q: Query, ls: seq<ParsedLogLine>, p: ParsedLogLine, ps: seq<nat>, results: seq<GrepMatch>,
    pending: seq<PendingMatch>)
    requires StreamingOver(q, ls + [p], ps, results, pending)
    ensures StreamingOver(q, ls + [p], ps + [|ls|], results,
                          pending + [PendingMatch(GrepMatch(p.entry, Before(ls, |ls|, q.before), []), q.after)])
  {
    var longer := ls + [p];
    NewestPending(q, ls, p);
    var ps', pending' := ps + [|ls|], pending + [PendingAt(q, longer, |ls|)];
    forall j | |results| <= j < |ps'| ensures pending'[j - |results|] == PendingAt(q, longer, ps'[j]) {
      if j < |ps| {
        assert ps'[j] == ps[j];
      }
    }
  }

  lemma NewestPending(q: Query, ls: seq<ParsedLogLine>, p: ParsedLogLine)
    ensures PendingAt(q, ls + [p], |ls|)
         == PendingMatch(GrepMatch(p.entry, Before(ls, |ls|, q.before), []), q.after)
  {
    var longer, n := ls + [p], |ls|;
    assert longer[n - Min(q.before, n)..n] == ls[n - Min(q.before, n)..n];
    assert After(longer, n, q.after) == [];
  }

  /** The search may stop as soon as 1000 matches are complete. */
  lemma EarlyStop(
    q: Query, seen: seq<ParsedLogLine>, p: ParsedLogLine, ls: seq<ParsedLogLine>,
    results: seq<GrepMatch>, pending: seq<PendingMatch>)
    requires seen + [p] <= ls && |results| == MAX_GREP_MATCHES
    requires StreamingOver(q, seen + [p], Positions(q.isMatch, seen, |seen|), results, pending)
    ensures IsAnswer(q, ls, results)
  {
    var ps, all := Positions(q.isMatch, seen, |seen|), Positions(q.isMatch, ls, |ls|);
    PositionsOfPrefix(q.isMatch, seen, ls, |seen|);
    PositionsGrow(q.isMatch, ls, |seen|, |ls|);
    MatchesStay(q, seen + [p], ls, ps, results);
    assert forall j :: 0 <= j < |results| ==> all[j] == ps[j];
  }

  // ----- The before-buffer

  function Window(ls: seq<ParsedLogLine>, before: nat): seq<ParsedLogLine> {
    ls[|ls| - Min(before, |ls|)..]
  }

  lemma WindowNext(ls: seq<ParsedLogLine>, p: ParsedLogLine, before: nat)
    ensures before == 0 ==> Window(ls + [p], before) == []
    ensures before > 0 ==>
              (var grown := Window(ls, before) + [p];
               Window(ls + [p], before) == if |grown| > before then grown[1..] else grown)
  {
  }

  // ----- The search

  /** The current line goes to the pending matches, and the one it completes to the results. */
  method CollectCompleted(
    q: Query, ghost ls: seq<ParsedLogLine>, parsed: ParsedLogLine,
    pending0: seq<PendingMatch>, results0: seq<GrepMatch>)
    returns (pending: seq<PendingMatch>, results: seq<GrepMatch>)
    requires Streaming(q, ls, results0, pending0)
    ensures |results| <= |results0| + 1
    ensures StreamingOver(q, ls + [parsed], Positions(q.isMatch, ls, |ls|), results, pending)
  {
    PositionsExact(q.isMatch, ls, |ls|);
    var advanced := AdvancePending(pending0, parsed.entry);
    pending, results := MoveCompleted(advanced, results0);
    LineStep(q, ls, parsed, Positions(q.isMatch, ls, |ls|), results0, pending0, advanced);
  }

  /** The current line is tested itself. */
  method TestLine(
    q: Query, ghost ls: seq<ParsedLogLine>, parsed: ParsedLogLine, beforeBuffer: seq<ParsedLogLine>,
    pending0: seq<PendingMatch>, ghost results: seq<GrepMatch>)
    returns (pending: seq<PendingMatch>)
    requires StreamingOver(q, ls + [parsed], Positions(q.isMatch, ls, |ls|), results, pending0)
    requires beforeBuffer == Window(ls, q.before)
    ensures Streaming(q, ls + [parsed], results, pending)
  {
    pending := pending0;
    PositionsOfPrefix(q.isMatch, ls, ls + [parsed], |ls|);
    if q.isMatch(parsed.original) {
      NewMatchPends(q, ls, parsed, Positions(q.isMatch, ls, |ls|), results, pending);
      var contextBefore := Entries(beforeBuffer);
      assert contextBefore == Before(ls, |ls|, q.before);
      pending := pending + [PendingMatch(GrepMatch(parsed.entry, contextBefore, []), q.after)];
    }
  }

  /** The current line enters the before-buffer. */
  method SlideWindow(ghost ls: seq<ParsedLogLine>, parsed: ParsedLogLine, before: nat, buffer0: seq<ParsedLogLine>)
    returns (buffer: seq<ParsedLogLine>)
    requires buffer0 == Window(ls, before)
    ensures buffer == Window(ls + [parsed], before)
  {
    buffer := buffer0;
    WindowNext(ls, parsed, before);
    if before > 0 {
      buffer := buffer + [parsed];
      if |buffer| > before {
        buffer := buffer[1..];
      }
    }
  }

  /** One selected line; `stop` when the cap is reached. */
  method ReadSelected(
    q: Query, ghost ls: seq<ParsedLogLine>, parsed: ParsedLogLine, window0: seq<ParsedLogLine>,
    pending0: seq<PendingMatch>, results0: seq<GrepMatch>)
    returns (stop: bool, window: seq<ParsedLogLine>, pending: seq<PendingMatch>, results: seq<GrepMatch>)
    requires Streaming(q, ls, results0, pending0) && window0 == Window(ls, q.before)
    requires |results0| < MAX_GREP_MATCHES
    ensures stop ==> |results| == MAX_GREP_MATCHES
                     && StreamingOver(q, ls + [parsed], Positions(q.isMatch, ls, |ls|), results, pending)
    ensures !stop ==> |results| < MAX_GREP_MATCHES
                      && Streaming(q, ls + [parsed], results, pending) && window == Window(ls + [parsed], q.before)
  {
    window := window0;
    pending, results := CollectCompleted(q, ls, parsed, pending0, results0);
    stop := |results| >= MAX_GREP_MATCHES;
    if !stop {
      pending := TestLine(q, ls, parsed, window, pending, results);
      window := SlideWindow(ls, parsed, q.before, window);
    }
  }

  /** Matches still pending at the end of the file are reported with the context there is. */
  method Finalize(q: Query, ghost ls: seq<ParsedLogLine>, pending: seq<PendingMatch>, results0: seq<GrepMatch>)
    returns (results: seq<GrepMatch>)
    requires Streaming(q, ls, results0, pending) && |results0| < MAX_GREP_MATCHES
    ensures IsAnswer(q, ls, results)
  {
    ghost var ps := Positions(q.isMatch, ls, |ls|);
    ghost var c := |results0|;
    results := results0;
    var i := 0;
    while i < |pending| && |results| < MAX_GREP_MATCHES
      invariant 0 <= i <= |pending| && |results| == c + i <= MAX_GREP_MATCHES
      invariant MatchesAt(q, ls, ps, results)
    {
      assert pending[i] == pending[(c + i) - c] == PendingAt(q, ls, ps[c + i]);
      results := results + [pending[i].found];
      i := i + 1;
    }
  }

  /** What the search holds after the first `n` lines of the file. */
  ghost predicate Searching(
    view: View, q: Query, all: seq<string>, n: nat, ls: seq<ParsedLogLine>,
    window: seq<ParsedLogLine>, pending: seq<PendingMatch>, results: seq<GrepMatch>)
  {
    && n <= |all| && ls == Selected(view, q, all, n)
    && window == Window(ls, q.before)
    && |results| < MAX_GREP_MATCHES && Streaming(q, ls, results, pending)
  }

  /** One line of the file, through the time filter; `stop` when the answer is complete. */
  method ReadLine(
    view: View, q: Query, ghost all: seq<string>, line: string, index: nat, ghost ls0: seq<ParsedLogLine>,
    window0: seq<ParsedLogLine>, pending0: seq<PendingMatch>, results0: seq<GrepMatch>)
    returns (stop: bool, window: seq<ParsedLogLine>, pending: seq<PendingMatch>, results: seq<GrepMatch>,
             ghost ls: seq<ParsedLogLine>)
    requires index < |all| && line == all[index]
    requires Searching(view, q, all, index, ls0, window0, pending0, results0)
    ensures stop ==> IsAnswer(q, Selected(view, q, all, |all|), results)
    ensures !stop ==> Searching(view, q, all, index + 1, ls, window, pending, results)
  {
    stop, window, pending, results, ls := false, window0, pending0, results0, ls0;
    var parsed := ParsedAt(view, line, index);
    if InRange(q, parsed.entry.timestamp) {
      stop, window, pending, results := ReadSelected(q, ls0, parsed, window0, pending0, results0);
      ls := ls0 + [parsed];
      if stop {
        SelectedGrows(view, q, all, index + 1);
        EarlyStop(q, ls0, parsed, Selected(view, q, all, |all|), results, pending);
      }
    }
  }

  lemma SearchingStart(view: View, q: Query, all: seq<string>)
    ensures Searching(view, q, all, 0, [], [], [], [])
  {
  }

  /** The reader has yielded the first `n` lines of its file, and `line` is the next one, if any. */
  ghost predicate AtLine(reader: LineReader, all: seq<string>, n: nat, line: Option<string>)
    reads reader
  {
    && reader.Valid() && reader.all == all && n <= |all|
    && reader.index == n + (if line.Some? then 1 else 0)
    && line == if n < |all| then Some(all[n]) else None
  }

  /** Where the loop over the lines stands: at line `n`, with everything before it searched. */
  ghost predicate AtRound(
    reader: LineReader, view: View, q: Query, all: seq<string>, n: nat, line: Option<string>,
    window: seq<ParsedLogLine>, pending: seq<PendingMatch>, results: seq<GrepMatch>)
    reads reader
  {
    && AtLine(reader, all, n, line)
    && exists ls :: Searching(view, q, all, n, ls, window, pending, results)
  }

  method FirstRound(view: View, q: Query, reader: LineReader) returns (line: Option<string>)
    requires reader.Valid() && reader.index == 0
    modifies reader
    ensures AtRound(reader, view, q, reader.all, 0, line, [], [], [])
  {
    line := reader.NextLineLossy();
    SearchingStart(view, q, reader.all);
  }

  /** One round of the loop: a line is searched and the next one read. */
  method Round(
    view: View, q: Query, reader: LineReader, ghost all: seq<string>, index: nat, line0: string,
    window0: seq<ParsedLogLine>, pending0: seq<PendingMatch>, results0: seq<GrepMatch>)
    returns (line: Option<string>, stop: bool, window: seq<ParsedLogLine>,
             pending: seq<PendingMatch>, results: seq<GrepMatch>)
    requires AtRound(reader, view, q, all, index, Some(line0), window0, pending0, results0)
    modifies reader
    ensures stop ==> IsAnswer(q, Selected(view, q, all, |all|), results)
    ensures !stop ==> index < |all| && AtRound(reader, view, q, all, index + 1, line, window, pending, results)
  {
    ghost var ls :| Searching(view, q, all, index, ls, window0, pending0, results0);
    stop, window, pending, results, ls := ReadLine(view, q, all, line0, index, ls, window0, pending0, results0);
    if stop {
      return None, stop, window, pending, results;
    }
    line := reader.NextLineLossy();
  }

  method LastRound(
    view: View, q: Query, reader: LineReader, ghost all: seq<string>, ghost n: nat,
    ghost window: seq<ParsedLogLine>, pending: seq<PendingMatch>, results0: seq<GrepMatch>)
    returns (results: seq<GrepMatch>)
    requires AtRound(reader, view, q, all, n, None, window, pending, results0)
    ensures IsAnswer(q, Selected(view, q, all, |all|), results)
  {
    ghost var ls :| Searching(view, q, all, n, ls, window, pending, results0);
    results := Finalize(q, ls, pending, results0);
  }

  /** The loop over the lines of the file. */
  method SearchLines(view: View, q: Query, reader: LineReader) returns (results: seq<GrepMatch>)
    requires reader.Valid() && reader.index == 0
    modifies reader
    ensures IsAnswer(q, Selected(view, q, reader.all, |reader.all|), results)
  {
    ghost var all := reader.all;
    var beforeBuffer: seq<ParsedLogLine> := [];
    var pending: seq<PendingMatch> := [];
    results := [];
    var lineNum := 0;
    var line := FirstRound(view, q, reader);
    while line.Some?
      invariant AtRound(reader, view, q, all, lineNum, line, beforeBuffer, pending, results)
      decreases |all| - lineNum
    {
      var stop;
      line, stop, beforeBuffer, pending, results :=
        Round(view, q, reader, all, lineNum, line.value, beforeBuffer, pending, results);
      if stop {
        return;
      }
      lineNum := lineNum + 1;
    }
    results := LastRound(view, q, reader, all, lineNum, beforeBuffer, pending, results);
  }

  /**
   The streaming search, with its window, its pending list and its early
   return, gives exactly the declarative answer for every file and query.
   */
  method GrepLogFile(view: View, q: Query, file: Bytes) returns (results: seq<GrepMatch>)
    ensures var all := ReadLines(view.decode, file);
            IsAnswer(q, Selected(view, q, all, |all|), results)
    ensures AnswersFor(view, q, file, results)
  {
    var reader := new LineReader(file, view.decode);
    results := SearchLines(view, q, reader);
    AnswerExact(view, q, file, results);
  }

  // ----- A search request

  /** How a request ends; the failures in the order in which they are looked for. */
  datatype GrepReply = Matches(matches: seq<GrepMatch>) | FileNotFound | InvalidTime | InvalidPattern

  /** The meaning of the context fields: `before` and `after` go before the common `context`, none exceeds 1000. */
  predicate IsContext(size: nat, own: Option<u32>, common: Option<u32>) {
    var asked := if own.Some? then own.value else if common.Some? then common.value else 3;
    size <= 1000 && size <= asked && (size == asked || size == 1000)
  }

  /** What every answer to a request keeps to, whatever the context sizes. */
  ghost predicate KeepsTo(
    view: View, file: Bytes, times: TimeRange, pattern: string -> bool, matches: seq<GrepMatch>)
  {
    var all := ReadLines(view.decode, file);
    && |matches| <= 1000
    && (forall j, e :: 0 <= j < |matches| && e in Reported(matches[j]) ==> Within(times, e.timestamp))
    && (|matches| < 1000 ==>
          forall i :: 0 <= i < |all| && pattern(all[i]) && Within(times, view.parse(all[i]).timestamp) ==>
            exists j :: 0 <= j < |matches| && ShowsLine(view, file, i, matches[j].matchedLine))
  }

  lemma AnswerKeepsTo(view: View, q: Query, file: Bytes, ms: seq<GrepMatch>)
    requires AnswersFor(view, q, file, ms)
    ensures KeepsTo(view, file, TimeRange(q.since, q.until), q.isMatch, ms)
  {
    var times, all := TimeRange(q.since, q.until), ReadLines(view.decode, file);
    forall j, e | 0 <= j < |ms| && e in Reported(ms[j]) ensures Within(times, e.timestamp) {
      ReportedInRange(view, q, file, ms, j, e);
    }
    if |ms| < 1000 {
      forall i | 0 <= i < |all| && q.isMatch(all[i]) && Within(times, view.parse(all[i]).timestamp)
        ensures exists j :: 0 <= j < |ms| && ShowsLine(view, file, i, ms[j].matchedLine)
      {
        FewMatchesAreAll(view, q, file, ms, i);
      }
    }
  }

  /** A request against the file of a process; None for a missing file, an unreadable time or a bad pattern. */
  method GrepLogs(
    view: View, file: Option<Bytes>, times: Option<TimeRange>, pattern: Option<string -> bool>,
    context: Option<u32>, before: Option<u32>, after: Option<u32>)
    returns (reply: GrepReply)
    ensures reply == FileNotFound <==> file.None?
    ensures reply == InvalidTime <==> file.Some? && times.None?
    ensures reply == InvalidPattern <==> file.Some? && times.Some? && pattern.None?
    ensures reply.Matches? ==>
              exists b: nat, a: nat :: IsContext(b, before, context) && IsContext(a, after, context)
                && var q := Query(pattern.value, b, a, times.value.since, times.value.until);
                   AnswersFor(view, q, file.value, reply.matches)
    ensures reply.Matches? ==> KeepsTo(view, file.value, times.value, pattern.value, reply.matches)
  {
    if file.None? {
      return FileNotFound;
    }
    if times.None? {
      return InvalidTime;
    }
    if pattern.None? {
      return InvalidPattern;
    }
    var common := ClampGrepContext(if context.Some? then context.value else DEFAULT_CONTEXT);
    var b := if before.Some? then ClampGrepContext(before.value) else common;
    var a := if after.Some? then ClampGrepContext(after.value) else common;
    var q := Query(pattern.value, b, a, times.value.since, times.value.until);
    var matches := GrepLogFile(view, q, file.value);
    AnswerKeepsTo(view, q, file.value, matches);
    assert IsContext(b, before, context) && IsContext(a, after, context);
    reply := Matches(matches);
  }
}
