/**
 Cutting a process's output into log entries: the meaning.

 Chunks arrive in any sizes. An unterminated rest is carried from chunk to
 chunk; when it outgrows MAX_LINE_BUFFER_SIZE it is flushed as a line of its
 own, and at the end of the stream whatever is left becomes the last line.
 */
module LineCapture {
  import opened Sequences
  import opened LineSplitting

  const CHUNK_SIZE := 8192
  const MAX_LINE_BUFFER_SIZE := 1024 * 1024

  /** Why an entry ends where it does; all but Newline had a line feed added. */
  datatype Ending = Newline | ForcedFlush | EndOfStream

  datatype Entry = Entry(content: Bytes, ending: Ending)

  /** The entries cut off so far and the rest that is carried over. */
  datatype Cut = Cut(entries: seq<Entry>, rest: Bytes)

  function Terminated(lines: seq<Bytes>): seq<Entry> {
    Map(l => Entry(l, Newline), lines)
  }

  function Contents(entries: seq<Entry>): seq<Bytes> {
    Map((e: Entry) => e.content, entries)
  }

  /** The bytes of an entry that the process wrote. */
  function Original(e: Entry): Bytes {
    if e.ending == Newline || e.content == [] then e.content else e.content[..|e.content| - 1]
  }

  function Originals(entries: seq<Entry>): seq<Bytes> {
    Map(Original, entries)
  }

  predicate Overflows(buffer: Bytes, chunk: Bytes) {
    |Remainder(buffer + chunk)| > MAX_LINE_BUFFER_SIZE
  }

  /** One chunk: all lines it completes, then the forced flush of an oversized rest. */
  function Feed(buffer: Bytes, chunk: Bytes): Cut {
    var lines, rest := CompleteLines(buffer + chunk), Remainder(buffer + chunk);
    if |rest| > MAX_LINE_BUFFER_SIZE
    then Cut(Terminated(lines) + [Entry(rest + [LF], ForcedFlush)], [])
    else Cut(Terminated(lines), rest)
  }

  function FeedAll(buffer: Bytes, chunks: seq<Bytes>): Cut
    decreases |chunks|
  {
    if chunks == [] then Cut([], buffer)
    else
      var first := Feed(buffer, chunks[0]);
      var others := FeedAll(first.rest, chunks[1..]);
      Cut(first.entries + others.entries, others.rest)
  }

  function Finish(rest: Bytes): seq<Entry> {
    if rest == [] then [] else [Entry(rest + [LF], EndOfStream)]
  }

  /** All entries of a stream whose buffer already holds `buffer`. */
  function CaptureFrom(buffer: Bytes, chunks: seq<Bytes>): seq<Entry> {
    FeedAll(buffer, chunks).entries + Finish(FeedAll(buffer, chunks).rest)
  }

  function Capture(chunks: seq<Bytes>): seq<Entry> {
    CaptureFrom([], chunks)
  }

  // ----- Batching

  lemma {:induction false} FeedAllAppend(buffer: Bytes, a: seq<Bytes>, b: seq<Bytes>)
    ensures FeedAll(buffer, a + b).entries == FeedAll(buffer, a).entries + FeedAll(FeedAll(buffer, a).rest, b).entries
    ensures FeedAll(buffer, a + b).rest == FeedAll(FeedAll(buffer, a).rest, b).rest
    decreases |a|
  {
    if a == [] {
      assert a + b == b;
    } else {
      assert (a + b)[1..] == a[1..] + b;
      FeedAllAppend(Feed(buffer, a[0]).rest, a[1..], b);
    }
  }

  // ----- Bounds and shape

  lemma FeedRest(buffer: Bytes, chunk: Bytes)
    ensures LfFree(Feed(buffer, chunk).rest)
    ensures |Feed(buffer, chunk).rest| <= MAX_LINE_BUFFER_SIZE
  {
    RemainderLfFree(buffer + chunk);
  }

  /** After any number of chunks the carried rest holds no line feed and at most 1 MiB. */
  lemma {:induction false} CarriedRestBounded(buffer: Bytes, chunks: seq<Bytes>)
    requires LfFree(buffer) && |buffer| <= MAX_LINE_BUFFER_SIZE
    ensures LfFree(FeedAll(buffer, chunks).rest)
    ensures |FeedAll(buffer, chunks).rest| <= MAX_LINE_BUFFER_SIZE
    decreases |chunks|
  {
    if chunks != [] {
      FeedRest(buffer, chunks[0]);
      CarriedRestBounded(Feed(buffer, chunks[0]).rest, chunks[1..]);
    }
  }

  predicate EntriesWithin(entries: seq<Entry>, bound: nat) {
    forall i :: 0 <= i < |entries| ==> |entries[i].content| <= bound
  }

  lemma {:induction false} PieceWithin(s: Bytes)
    ensures forall i :: 0 <= i < |CompleteLines(s)| ==> |CompleteLines(s)[i]| <= |s|
    ensures |Remainder(s)| <= |s|
    decreases |s|
  {
    var p := FirstLf(s);
    if p < |s| {
      var tail := s[p + 1..];
      PieceWithin(tail);
      var lines := CompleteLines(s);
      assert lines == [s[..p + 1]] + CompleteLines(tail);
      forall i | 0 <= i < |lines| ensures |lines[i]| <= |s| {
        assert i > 0 ==> lines[i] == CompleteLines(tail)[i - 1];
      }
    }
  }

  /** With reader chunks of at most CHUNK_SIZE bytes no entry exceeds 1 MiB + 8193 bytes. */
  lemma {:induction false} EntrySizeBounded(buffer: Bytes, chunks: seq<Bytes>)
    requires LfFree(buffer) && |buffer| <= MAX_LINE_BUFFER_SIZE
    requires forall i :: 0 <= i < |chunks| ==> |chunks[i]| <= CHUNK_SIZE
    ensures EntriesWithin(CaptureFrom(buffer, chunks), MAX_LINE_BUFFER_SIZE + CHUNK_SIZE + 1)
    decreases |chunks|
  {
    if chunks != [] {
      var first := Feed(buffer, chunks[0]);
      PieceWithin(buffer + chunks[0]);
      FeedRest(buffer, chunks[0]);
      EntrySizeBounded(first.rest, chunks[1..]);
      CaptureFromUnfold(buffer, chunks);
    }
  }

  lemma CaptureFromUnfold(buffer: Bytes, chunks: seq<Bytes>)
    requires chunks != []
    ensures CaptureFrom(buffer, chunks)
         == Feed(buffer, chunks[0]).entries + CaptureFrom(Feed(buffer, chunks[0]).rest, chunks[1..])
  {
  }

  /** Every entry is one line: a single line feed, at its end. */
  lemma {:induction false} EntriesAreLines(buffer: Bytes, chunks: seq<Bytes>)
    requires LfFree(buffer)
    ensures AreLines(Contents(CaptureFrom(buffer, chunks)))
    decreases |chunks|
  {
    if chunks == [] {
      assert (buffer + [LF])[..|buffer|] == buffer;
    } else {
      FeedEntriesAreLines(buffer, chunks[0]);
      FeedRest(buffer, chunks[0]);
      EntriesAreLines(Feed(buffer, chunks[0]).rest, chunks[1..]);
      CaptureFromUnfold(buffer, chunks);
    }
  }

  lemma FeedEntriesAreLines(buffer: Bytes, chunk: Bytes)
    ensures AreLines(Contents(Feed(buffer, chunk).entries))
  {
    CompleteLinesAreLines(buffer + chunk);
    RemainderLfFree(buffer + chunk);
    var rest := Remainder(buffer + chunk);
    assert (rest + [LF])[..|rest|] == rest;
  }

  // ----- Conservation

  lemma FeedConserves(buffer: Bytes, chunk: Bytes)
    ensures Flatten(Originals(Feed(buffer, chunk).entries)) + Feed(buffer, chunk).rest == buffer + chunk
  {
    var lines, rest := CompleteLines(buffer + chunk), Remainder(buffer + chunk);
    SplitRejoins(buffer + chunk);
    assert Originals(Terminated(lines)) == lines;
    if |rest| > MAX_LINE_BUFFER_SIZE {
      var forced := Entry(rest + [LF], ForcedFlush);
      assert Original(forced) == rest;
      assert Originals(Terminated(lines) + [forced]) == lines + [rest];
      FlattenSnoc(lines, rest);
    }
  }

  lemma ContentsAppend(a: seq<Entry>, b: seq<Entry>)
    ensures Contents(a + b) == Contents(a) + Contents(b)
    ensures Originals(a + b) == Originals(a) + Originals(b)
  {
  }

  lemma FinishConserves(rest: Bytes)
    ensures Flatten(Originals(Finish(rest))) == rest
  {
    if rest != [] {
      var last := Entry(rest + [LF], EndOfStream);
      assert Original(last) == rest;
      assert Originals([last]) == [rest];
      assert Flatten([rest]) == rest + Flatten([]);
    }
  }

  lemma ConserveStep(first: Cut, others: seq<Entry>, data: Bytes, more: Bytes)
    requires Flatten(Originals(first.entries)) + first.rest == data
    requires Flatten(Originals(others)) == first.rest + more
    ensures Flatten(Originals(first.entries + others)) == data + more
  {
    var x, y := Originals(first.entries), Originals(others);
    ContentsAppend(first.entries, others);
    FlattenAppend(x, y);
    ConcatAssoc(Flatten(x), first.rest, more);
  }

  /** Dropping the added line feeds from the entries gives back the process's output, byte for byte. */
  lemma {:induction false} CaptureConserves(buffer: Bytes, chunks: seq<Bytes>)
    ensures Flatten(Originals(CaptureFrom(buffer, chunks))) == buffer + Flatten(chunks)
    decreases |chunks|
  {
    if chunks == [] {
      FinishConserves(buffer);
      assert [] + Finish(buffer) == Finish(buffer);
      assert buffer + Flatten(chunks) == buffer;
    } else {
      var first := Feed(buffer, chunks[0]);
      CaptureFromUnfold(buffer, chunks);
      CaptureConserves(first.rest, chunks[1..]);
      FeedConserves(buffer, chunks[0]);
      ConserveStep(first, CaptureFrom(first.rest, chunks[1..]), buffer + chunks[0], Flatten(chunks[1..]));
      ConcatAssoc(buffer, chunks[0], Flatten(chunks[1..]));
    }
  }

  // ----- When the entries are the lines

  /** How many forced flushes are followed by more output, and so split a line in two. */
  function SplitCount(buffer: Bytes, chunks: seq<Bytes>): nat
    decreases |chunks|
  {
    if chunks == [] then 0
    else
      (if Overflows(buffer, chunks[0]) && Flatten(chunks[1..]) != [] then 1 else 0)
      + SplitCount(Feed(buffer, chunks[0]).rest, chunks[1..])
  }

  lemma AllLinesOfPrefixed(prefix: Bytes, s: Bytes)
    requires LfFree(prefix) && s != []
    ensures |AllLines(prefix + s)| == |AllLines(s)|
  {
    var p := FirstLf(s);
    if p == |s| {
      assert LfFree(prefix + s);
      SplitLfFree(prefix + s);
      SplitLfFree(s);
    } else {
      var l, t := s[..p + 1], s[p + 1..];
      assert l[..p] == s[..p];
      assert s == l + t;
      assert prefix + s == (prefix + l) + t;
      assert (prefix + l)[..|prefix| + p] == prefix + l[..p];
      SplitFirst(l, t);
      SplitFirst(prefix + l, t);
    }
  }

  lemma AllLinesAppend(a: Bytes, b: Bytes)
    ensures AllLines(a + b) == CompleteLines(a) + AllLines(Remainder(a) + b)
  {
    SplitAppend(a, b);
  }

  lemma {:induction false} EmptyTail(chunks: seq<Bytes>)
    requires Flatten(chunks) == []
    ensures CaptureFrom([], chunks) == []
    decreases |chunks|
  {
    if chunks != [] {
      assert chunks[0] == [] && Flatten(chunks[1..]) == [];
      assert [] + chunks[0] == [];
      EmptyTail(chunks[1..]);
      CaptureFromUnfold([], chunks);
    }
  }

  /** `entries` hold the lines of `data`, except for `splits` lines cut in two. */
  predicate Accounts(entries: seq<Entry>, data: Bytes, splits: nat) {
    && |entries| == |AllLines(data)| + splits
    && (splits == 0 ==> Contents(entries) == AllLines(data))
  }

  lemma UnforcedAccounts(data: Bytes, more: Bytes, others: seq<Entry>, splits: nat)
    requires Accounts(others, Remainder(data) + more, splits)
    ensures Accounts(Terminated(CompleteLines(data)) + others, data + more, splits)
  {
    AllLinesAppend(data, more);
    ContentsAppend(Terminated(CompleteLines(data)), others);
    assert Contents(Terminated(CompleteLines(data))) == CompleteLines(data);
  }

  /** A forced flush followed by output: one entry more than lines. */
  lemma SplittingFlushAccounts(data: Bytes, more: Bytes, others: seq<Entry>, splits: nat)
    requires more != [] && Accounts(others, more, splits)
    ensures Accounts(Terminated(CompleteLines(data)) + [Entry(Remainder(data) + [LF], ForcedFlush)] + others,
                     data + more, splits + 1)
  {
    AllLinesAppend(data, more);
    RemainderLfFree(data);
    AllLinesOfPrefixed(Remainder(data), more);
  }

  /** A forced flush of the very end of the output is just its last line. */
  lemma FinalFlushAccounts(data: Bytes)
    requires Remainder(data) != []
    ensures Accounts(Terminated(CompleteLines(data)) + [Entry(Remainder(data) + [LF], ForcedFlush)], data, 0)
  {
    ContentsAppend(Terminated(CompleteLines(data)), [Entry(Remainder(data) + [LF], ForcedFlush)]);
    assert Contents(Terminated(CompleteLines(data))) == CompleteLines(data);
  }

  /** Each split adds exactly one entry; with no split the entries are the lines of the output. */
  lemma {:induction false} CaptureCount(buffer: Bytes, chunks: seq<Bytes>)
    requires LfFree(buffer)
    ensures Accounts(CaptureFrom(buffer, chunks), buffer + Flatten(chunks), SplitCount(buffer, chunks))
    decreases |chunks|
  {
    if chunks == [] {
      assert buffer + Flatten(chunks) == buffer;
      SplitLfFree(buffer);
    } else {
      var data, more := buffer + chunks[0], Flatten(chunks[1..]);
      var first := Feed(buffer, chunks[0]);
      assert buffer + Flatten(chunks) == data + more;
      CaptureFromUnfold(buffer, chunks);
      FeedRest(buffer, chunks[0]);
      CaptureCount(first.rest, chunks[1..]);
      var others, splits := CaptureFrom(first.rest, chunks[1..]), SplitCount(first.rest, chunks[1..]);
      if !Overflows(buffer, chunks[0]) {
        UnforcedAccounts(data, more, others, splits);
      } else if more != [] {
        assert first.rest + more == more;
        SplittingFlushAccounts(data, more, others, splits);
      } else {
        EmptyTail(chunks[1..]);
        assert first.entries + others == first.entries;
        assert data + more == data;
        FinalFlushAccounts(data);
        NothingMoreToSplit([], chunks[1..]);
      }
    }
  }

  lemma {:induction false} NothingMoreToSplit(buffer: Bytes, chunks: seq<Bytes>)
    requires Flatten(chunks) == []
    ensures SplitCount(buffer, chunks) == 0
    decreases |chunks|
  {
    if chunks != [] {
      assert chunks[0] == [] && Flatten(chunks[1..]) == [];
      NothingMoreToSplit(Feed(buffer, chunks[0]).rest, chunks[1..]);
    }
  }

  /** The captured entries are the lines of the output if and only if no forced flush is followed by more output. */
  lemma CaptureExact(chunks: seq<Bytes>)
    ensures Contents(Capture(chunks)) == AllLines(Flatten(chunks)) <==> SplitCount([], chunks) == 0
  {
    CaptureCount([], chunks);
    assert [] + Flatten(chunks) == Flatten(chunks);
    AccountsExact(Capture(chunks), Flatten(chunks), SplitCount([], chunks));
  }

  lemma AccountsExact(entries: seq<Entry>, data: Bytes, splits: nat)
    requires Accounts(entries, data, splits)
    ensures Contents(entries) == AllLines(data) <==> splits == 0
  {
  }

  /** Any two chunkings of the same output that split no line give the same entries. */
  lemma ChunkingIrrelevant(a: seq<Bytes>, b: seq<Bytes>)
    requires Flatten(a) == Flatten(b)
    requires SplitCount([], a) == 0 && SplitCount([], b) == 0
    ensures Contents(Capture(a)) == Contents(Capture(b))
  {
    CaptureExact(a);
    CaptureExact(b);
  }

  predicate LinesWithin(lines: seq<Bytes>, bound: nat) {
    forall i :: 0 <= i < |lines| ==> |lines[i]| <= bound
  }

  lemma SuffixWithin(front: seq<Bytes>, back: seq<Bytes>, bound: nat)
    requires LinesWithin(front + back, bound)
    ensures LinesWithin(back, bound)
  {
    assert forall i :: 0 <= i < |back| ==> back[i] == (front + back)[|front| + i];
  }

  lemma RestWithin(data: Bytes, more: Bytes, bound: nat)
    requires LinesWithin(AllLines(data + more), bound + 1)
    ensures |Remainder(data)| <= bound
    ensures LinesWithin(AllLines(Remainder(data) + more), bound + 1)
  {
    var rest := Remainder(data);
    AllLinesAppend(data, more);
    SuffixWithin(CompleteLines(data), AllLines(rest + more), bound + 1);
    RemainderLfFree(data);
    if rest != [] {
      FirstLineCovers(rest, more);
    }
  }

  lemma FirstLineCovers(rest: Bytes, more: Bytes)
    requires LfFree(rest) && rest != []
    ensures AllLines(rest + more) != [] && |AllLines(rest + more)[0]| >= |rest| + 1
  {
    var s := rest + more;
    var p := FirstLf(s);
    assert forall i :: 0 <= i < |rest| ==> s[i] == rest[i];
    assert p >= |rest|;
  }

  /** An output without lines longer than 1 MiB is captured exactly, however it is chunked. */
  lemma {:induction false} ShortLinesNeverSplit(buffer: Bytes, chunks: seq<Bytes>)
    requires LfFree(buffer)
    requires LinesWithin(AllLines(buffer + Flatten(chunks)), MAX_LINE_BUFFER_SIZE + 1)
    ensures SplitCount(buffer, chunks) == 0
    decreases |chunks|
  {
    if chunks != [] {
      assert buffer + Flatten(chunks) == (buffer + chunks[0]) + Flatten(chunks[1..]);
      RestWithin(buffer + chunks[0], Flatten(chunks[1..]), MAX_LINE_BUFFER_SIZE);
      FeedRest(buffer, chunks[0]);
      ShortLinesNeverSplit(Feed(buffer, chunks[0]).rest, chunks[1..]);
    }
  }

  /** A line that outgrows the buffer by more than one reader chunk is always split. */
  lemma LongLineAlwaysSplit(chunks: seq<Bytes>)
    requires forall j :: 0 <= j < |chunks| ==> |chunks[j]| <= CHUNK_SIZE
    ensures !LinesWithin(AllLines(Flatten(chunks)), MAX_LINE_BUFFER_SIZE + CHUNK_SIZE + 1) ==>
              SplitCount([], chunks) > 0
  {
    if SplitCount([], chunks) == 0 {
      CaptureExact(chunks);
      EntrySizeBounded([], chunks);
      var entries := Capture(chunks);
      assert forall i :: 0 <= i < |entries| ==> Contents(entries)[i] == entries[i].content;
    }
  }

  // ----- The outputs that are always captured exactly

  /** No line, its line feed included, and no unterminated rest is longer than 1 MiB and one byte. */
  predicate FitsBuffer(data: Bytes) {
    && LinesWithin(CompleteLines(data), MAX_LINE_BUFFER_SIZE + 1)
    && |Remainder(data)| <= MAX_LINE_BUFFER_SIZE + 1
  }

  lemma FitsRest(data: Bytes, more: Bytes)
    requires FitsBuffer(data + more)
    ensures FitsBuffer(Remainder(data) + more)
  {
    SplitAppend(data, more);
    SuffixWithin(CompleteLines(data), CompleteLines(Remainder(data) + more), MAX_LINE_BUFFER_SIZE + 1);
  }

  lemma FirstLineLength(s: Bytes)
    ensures FirstLf(s) < |s| ==> CompleteLines(s) != [] && |CompleteLines(s)[0]| == FirstLf(s) + 1
    ensures FirstLf(s) == |s| ==> Remainder(s) == s
  {
  }

  /** What follows an oversized rest makes its line too long. */
  lemma OversizedRestEnds(rest: Bytes, more: Bytes)
    requires LfFree(rest) && |rest| > MAX_LINE_BUFFER_SIZE && FitsBuffer(rest + more)
    ensures more == []
  {
    var s := rest + more;
    var p := FirstLf(s);
    assert forall i :: 0 <= i < |rest| ==> s[i] == rest[i];
    assert p >= |rest|;
    FirstLineLength(s);
  }

  lemma {:induction false} FittingNeverSplit(buffer: Bytes, chunks: seq<Bytes>)
    requires LfFree(buffer) && FitsBuffer(buffer + Flatten(chunks))
    ensures SplitCount(buffer, chunks) == 0
    decreases |chunks|
  {
    if chunks != [] {
      var data, more := buffer + chunks[0], Flatten(chunks[1..]);
      ConcatAssoc(buffer, chunks[0], more);
      FitsRest(data, more);
      RemainderLfFree(data);
      if Overflows(buffer, chunks[0]) {
        OversizedRestEnds(Remainder(data), more);
        NothingMoreToSplit([], chunks[1..]);
      } else {
        FittingNeverSplit(Remainder(data), chunks[1..]);
      }
    }
  }

  /** The output in chunks of one byte. */
  function Bytewise(s: Bytes): seq<Bytes> {
    if s == [] then [] else [[s[0]]] + Bytewise(s[1..])
  }

  lemma {:induction false} BytewiseFlattens(s: Bytes)
    ensures Flatten(Bytewise(s)) == s
    ensures forall i :: 0 <= i < |Bytewise(s)| ==> |Bytewise(s)[i]| == 1
    decreases |s|
  {
    if s != [] {
      BytewiseFlattens(s[1..]);
      assert Bytewise(s)[1..] == Bytewise(s[1..]);
    }
  }

  lemma FitsBehindLine(line: Bytes, more: Bytes)
    requires IsLine(line) && |line| <= MAX_LINE_BUFFER_SIZE + 1 && FitsBuffer(more)
    ensures FitsBuffer(line + more)
  {
    SplitFirst(line, more);
  }

  /** Byte by byte, an output that does not fit is split. */
  lemma {:induction false} UnsplitFits(buffer: Bytes, s: Bytes)
    requires LfFree(buffer) && |buffer| <= MAX_LINE_BUFFER_SIZE && SplitCount(buffer, Bytewise(s)) == 0
    ensures FitsBuffer(buffer + s)
    decreases |s|
  {
    if s == [] {
      assert buffer + s == buffer;
      SplitLfFree(buffer);
    } else {
      var data := buffer + [s[0]];
      assert Bytewise(s)[1..] == Bytewise(s[1..]);
      BytewiseFlattens(s[1..]);
      ConcatAssoc(buffer, [s[0]], s[1..]);
      assert [s[0]] + s[1..] == s;
      UnsplitByte(buffer, s[0], Bytewise(s[1..]));
      if s[0] == LF {
        LineEndsHere(buffer);
        UnsplitFits([], s[1..]);
        assert [] + s[1..] == s[1..];
        FitsBehindLine(data, s[1..]);
      } else if |data| <= MAX_LINE_BUFFER_SIZE {
        UnsplitFits(data, s[1..]);
      } else {
        assert data + s[1..] == data;
        SplitLfFree(data);
      }
    }
  }

  /** What a byte does to an output that is not split. */
  lemma UnsplitByte(buffer: Bytes, b: byte, others: seq<Bytes>)
    requires LfFree(buffer) && |buffer| <= MAX_LINE_BUFFER_SIZE && SplitCount(buffer, [[b]] + others) == 0
    ensures b == LF ==> SplitCount([], others) == 0
    ensures b != LF && |buffer| < MAX_LINE_BUFFER_SIZE ==> SplitCount(buffer + [b], others) == 0
    ensures b != LF && |buffer| == MAX_LINE_BUFFER_SIZE ==> Flatten(others) == []
  {
    assert ([[b]] + others)[1..] == others;
    if b == LF {
      LineEndsHere(buffer);
    } else {
      SplitLfFree(buffer + [b]);
    }
  }

  lemma LineEndsHere(buffer: Bytes)
    requires LfFree(buffer)
    ensures IsLine(buffer + [LF]) && Remainder(buffer + [LF]) == []
  {
    var line := buffer + [LF];
    assert line[..|buffer|] == buffer;
    SplitFirst(line, []);
    assert line + [] == line;
  }

  /** What the reader can deliver: chunks of 1 to 8192 bytes. */
  predicate ReaderChunks(chunks: seq<Bytes>) {
    forall i :: 0 <= i < |chunks| ==> 1 <= |chunks[i]| <= CHUNK_SIZE
  }

  ghost predicate AlwaysExact(data: Bytes) {
    forall chunks :: ReaderChunks(chunks) && Flatten(chunks) == data ==> Contents(Capture(chunks)) == AllLines(data)
  }

  /** An output is captured exactly in whatever chunks it is read if and only if it fits the buffer. */
  lemma AlwaysExactIffFits(data: Bytes)
    ensures AlwaysExact(data) <==> FitsBuffer(data)
  {
    if FitsBuffer(data) {
      forall chunks | ReaderChunks(chunks) && Flatten(chunks) == data
        ensures Contents(Capture(chunks)) == AllLines(data)
      {
        assert [] + data == data;
        FittingNeverSplit([], chunks);
        CaptureExact(chunks);
      }
    } else {
      var chunks := Bytewise(data);
      BytewiseFlattens(data);
      assert ReaderChunks(chunks);
      assert [] + data == data;
      if SplitCount([], chunks) == 0 {
        UnsplitFits([], data);
      }
      CaptureExact(chunks);
    }
  }

  // ----- A split line

  function Repeated(chunk: Bytes, n: nat): seq<Bytes> {
    if n == 0 then [] else [chunk] + Repeated(chunk, n - 1)
  }

  function FullChunk(): Bytes {
    seq(CHUNK_SIZE, i => 97)
  }

  lemma {:induction false} RepeatedFlattens(n: nat, last: Bytes)
    requires LfFree(last)
    ensures var all := Repeated(FullChunk(), n) + [last];
            && |all| == n + 1 && (forall j :: 0 <= j < n ==> all[j] == FullChunk()) && all[n] == last
            && |Flatten(all)| == CHUNK_SIZE * n + |last| && LfFree(Flatten(all))
    decreases n
  {
    var all := Repeated(FullChunk(), n) + [last];
    if n == 0 {
      assert all == [last];
      FlattenSnoc([], last);
      assert [] + last == last;
    } else {
      RepeatedFlattens(n - 1, last);
      assert all == [FullChunk()] + (Repeated(FullChunk(), n - 1) + [last]);
      assert all[1..] == Repeated(FullChunk(), n - 1) + [last];
    }
  }

  /** 129 full chunks and one more byte, without a line feed: one line, captured as two entries. */
  lemma LongLineSplit()
    ensures var chunks := Repeated(FullChunk(), 129) + [[97]];
            && AllLines(Flatten(chunks)) == [Flatten(chunks) + [LF]]
            && SplitCount([], chunks) > 0 && Contents(Capture(chunks)) != AllLines(Flatten(chunks))
  {
    var chunks := Repeated(FullChunk(), 129) + [[97]];
    RepeatedFlattens(129, [97]);
    SplitLfFree(Flatten(chunks));
    assert |AllLines(Flatten(chunks))[0]| == CHUNK_SIZE * 129 + 2;
    LongLineAlwaysSplit(chunks);
    CaptureExact(chunks);
  }
}
