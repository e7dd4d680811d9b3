/**
 The batch processor of one output stream: batches chunks, drains a line
 buffer in place and hands every entry to the file writer, the wait-for-log
 test and the event hub. Proved against the meaning in LineCapture.
 */
module HyperLog {
  import opened Sequences
  import opened LineSplitting
  import opened LineCapture

  const BATCH_SIZE := 4
  const MAX_LINES_PER_PUBLISH := 10

  /** What wakes the processor: a chunk from the reader, or the batch timer. */
  datatype Event = Chunk(bytes: Bytes) | BatchTimeout

  function ChunkOf(event: Event): Option<Bytes> {
    if event.Chunk? then Some(event.bytes) else None
  }

  function ChunksOf(events: seq<Event>): seq<Bytes> {
    Collect(ChunkOf, events)
  }

  /** The chunks are the bytes of the chunk events, all of them, in order; the timer adds none. */
  lemma ChunksExact(events: seq<Event>) returns (places: seq<nat>)
    ensures Increasing(places) && |ChunksOf(events)| == |places|
    ensures forall i: nat :: i in places <==> i < |events| && events[i].Chunk?
    ensures forall k :: 0 <= k < |places| ==> places[k] < |events| && events[places[k]] == Chunk(ChunksOf(events)[k])
  {
    places := CollectExact(ChunkOf, events);
  }

  /** The lines the wait-for-log pattern is tested on: all but the forced flushes. */
  function Testable(entries: seq<Entry>): seq<Bytes> {
    Contents(Filter((e: Entry) => e.ending != ForcedFlush, entries))
  }

  lemma TestableAppend(a: seq<Entry>, b: seq<Entry>)
    ensures Testable(a + b) == Testable(a) + Testable(b)
  {
    FilterAppend((e: Entry) => e.ending != ForcedFlush, a, b);
  }

  lemma {:induction false} TestableTerminated(lines: seq<Bytes>)
    ensures Testable(Terminated(lines)) == lines
  {
    if lines != [] {
      TestableTerminated(lines[1..]);
      TestableCons(Entry(lines[0], Newline), Terminated(lines[1..]));
      assert Terminated(lines) == [Entry(lines[0], Newline)] + Terminated(lines[1..]);
    }
  }

  lemma TestableCons(e: Entry, others: seq<Entry>)
    ensures Testable([e] + others) == (if e.ending != ForcedFlush then [e.content] else []) + Testable(others)
  {
    var kept := Filter((e: Entry) => e.ending != ForcedFlush, others);
    assert ([e] + others)[1..] == others;
    assert Contents([e] + kept) == [e.content] + Contents(kept);
    assert [] + kept == kept;
  }

  class HyperLogStreamer {
    const isUtf8: Bytes -> bool     // whether the bytes decode
    const trimEnd: Bytes -> Bytes   // drops trailing white space
    const hasPattern: bool

    var batch: seq<Bytes>
    var lineBuffer: Bytes
    var written: seq<Bytes>         // entries handed to the batch writer
    var tested: seq<Bytes>          // lines handed to the wait-for-log test
    var published: seq<Bytes>       // log events published on the hub

    constructor (isUtf8: Bytes -> bool, trimEnd: Bytes -> Bytes, hasPattern: bool)
      ensures this.isUtf8 == isUtf8 && this.trimEnd == trimEnd && this.hasPattern == hasPattern
      ensures batch == [] && lineBuffer == [] && written == [] && tested == [] && published == []
    {
      this.isUtf8, this.trimEnd, this.hasPattern := isUtf8, trimEnd, hasPattern;
      batch, lineBuffer, written, tested, published := [], [], [], [], [];
    }

    /** Entries as the hub sees them: the ones that decode, trimmed. */
    function Publishable(contents: seq<Bytes>): seq<Bytes> {
      Map(trimEnd, Filter(isUtf8, contents))
    }

    /** `publish_log_event` trims once more. */
    function Events(contents: seq<Bytes>): seq<Bytes> {
      Map(trimEnd, Publishable(contents))
    }

    function TestedOf(entries: seq<Entry>): seq<Bytes> {
      if hasPattern then Testable(entries) else []
    }

    lemma PublishableAppend(a: seq<Bytes>, b: seq<Bytes>)
      ensures Publishable(a + b) == Publishable(a) + Publishable(b)
      ensures Events(a + b) == Events(a) + Events(b)
    {
      FilterAppend(isUtf8, a, b);
    }

    lemma PublishableOne(line: Bytes)
      ensures Publishable([line]) == if isUtf8(line) then [trimEnd(line)] else []
    {
      assert Filter(isUtf8, [line]) == (if isUtf8(line) then [line] else []) + Filter(isUtf8, [line][1..]);
    }

    /** Hands one line to the wait-for-log test, unless it was cut by force, and to the file writer. */
    method Emit(line: Bytes, forced: bool) returns (publish: seq<Bytes>)
      modifies this`written, this`tested
      ensures written == old(written) + [line]
      ensures tested == old(tested) + (if hasPattern && !forced then [line] else [])
      ensures publish == Publishable([line])
    {
      if hasPattern && !forced {
        tested := tested + [line];
      }
      written := written + [line];
      publish := if isUtf8(line) then [trimEnd(line)] else [];
      PublishableOne(line);
    }

    /** The inner loop: drains the line buffer up to and including each line feed. */
    method DrainCompleteLines() returns (publish: seq<Bytes>)
      modifies this`lineBuffer, this`written, this`tested
      ensures lineBuffer == Remainder(old(lineBuffer))
      ensures written == old(written) + CompleteLines(old(lineBuffer))
      ensures tested == old(tested) + (if hasPattern then CompleteLines(old(lineBuffer)) else [])
      ensures publish == Publishable(CompleteLines(old(lineBuffer)))
    {
      ghost var lines, rest := CompleteLines(lineBuffer), Remainder(lineBuffer);
      ghost var written0, tested0 := written, tested;
      ghost var drained: seq<Bytes> := [];
      publish := [];
      var newlinePos := FirstLf(lineBuffer);
      while newlinePos < |lineBuffer|
        invariant newlinePos == FirstLf(lineBuffer)
        invariant drained + CompleteLines(lineBuffer) == lines
        invariant Remainder(lineBuffer) == rest
        invariant written == written0 + drained
        invariant tested == tested0 + (if hasPattern then drained else [])
        invariant publish == Publishable(drained)
        decreases |lineBuffer|
      {
        var line := lineBuffer[..newlinePos + 1];
        lineBuffer := lineBuffer[newlinePos + 1..];
        var event := Emit(line, false);
        publish := publish + event;
        PublishableAppend(drained, [line]);
        ConcatAssoc(drained, [line], CompleteLines(lineBuffer));
        ConcatAssoc(written0, drained, [line]);
        ConcatAssoc(tested0, drained, [line]);
        drained := drained + [line];
        newlinePos := FirstLf(lineBuffer);
      }
      assert drained == lines;
    }

    /** One chunk: append, drain the complete lines, force out an oversized rest. */
    method ProcessChunk(chunk: Bytes) returns (publish: seq<Bytes>)
      modifies this`lineBuffer, this`written, this`tested
      ensures var cut := Feed(old(lineBuffer), chunk);
              && lineBuffer == cut.rest
              && written == old(written) + Contents(cut.entries)
              && tested == old(tested) + TestedOf(cut.entries)
              && publish == Publishable(Contents(cut.entries))
    {
      ghost var before := lineBuffer;
      lineBuffer := lineBuffer + chunk;
      ghost var lines := CompleteLines(lineBuffer);
      publish := DrainCompleteLines();
      ChunkWithoutFlush(lines);
      if |lineBuffer| > MAX_LINE_BUFFER_SIZE {
        ghost var forced := Entry(lineBuffer + [LF], ForcedFlush);
        var forcedLine := lineBuffer + [LF];
        lineBuffer := [];
        var event := Emit(forcedLine, true);
        publish := publish + event;
        ChunkWithFlush(lines, forced);
      }
    }

    lemma ChunkWithoutFlush(lines: seq<Bytes>)
      ensures Contents(Terminated(lines)) == lines
      ensures Testable(Terminated(lines)) == lines
    {
      TestableTerminated(lines);
    }

    lemma ChunkWithFlush(lines: seq<Bytes>, forced: Entry)
      requires forced.ending == ForcedFlush
      ensures Contents(Terminated(lines) + [forced]) == lines + [forced.content]
      ensures Testable(Terminated(lines) + [forced]) == lines
      ensures Publishable(lines + [forced.content]) == Publishable(lines) + Publishable([forced.content])
    {
      TestableTerminated(lines);
      TestableAppend(Terminated(lines), [forced]);
      assert Testable([forced]) == [] by {
        assert Filter((e: Entry) => e.ending != ForcedFlush, [forced][1..]) == [];
      }
      PublishableAppend(lines, [forced.content]);
    }

    /** Publishes in groups of ten, which the hub cannot tell from one by one. */
    method Publish(lines: seq<Bytes>)
      modifies this`published
      ensures published == old(published) + Map(trimEnd, lines)
    {
      var i := 0;
      while i < |lines|
        invariant 0 <= i <= |lines|
        invariant published == old(published) + Map(trimEnd, lines[..i])
      {
        var end := Min(i + MAX_LINES_PER_PUBLISH, |lines|);
        while i < end
          invariant i <= end <= |lines|
          invariant published == old(published) + Map(trimEnd, lines[..i])
        {
          published := published + [trimEnd(lines[i])];
          assert Map(trimEnd, lines[..i + 1]) == Map(trimEnd, lines[..i]) + [trimEnd(lines[i])];
          i := i + 1;
        }
      }
      assert lines[..i] == lines;
    }

    method ProcessBatch()
      modifies this
      ensures batch == []
      ensures var cut := FeedAll(old(lineBuffer), old(batch));
              && lineBuffer == cut.rest
              && written == old(written) + Contents(cut.entries)
              && tested == old(tested) + TestedOf(cut.entries)
              && published == old(published) + Events(Contents(cut.entries))
    {
      ghost var buffer0, written0, tested0 := lineBuffer, written, tested;
      var chunks := batch;
      batch := [];
      var linesToPublish: seq<Bytes> := [];
      ghost var entries: seq<Entry> := [];
      var i := 0;
      while i < |chunks|
        invariant 0 <= i <= |chunks|
        invariant batch == [] && published == old(published)
        invariant Cut(entries, lineBuffer) == FeedAll(buffer0, chunks[..i])
        invariant written == written0 + Contents(entries)
        invariant tested == tested0 + TestedOf(entries)
        invariant linesToPublish == Publishable(Contents(entries))
      {
        ghost var cut := Feed(lineBuffer, chunks[i]);
        NextChunk(buffer0, chunks, i);
        var publish := ProcessChunk(chunks[i]);
        linesToPublish := linesToPublish + publish;
        Extend(entries, cut.entries);
        ConcatAssoc(written0, Contents(entries), Contents(cut.entries));
        ConcatAssoc(tested0, TestedOf(entries), TestedOf(cut.entries));
        entries := entries + cut.entries;
        i := i + 1;
      }
      assert chunks[..i] == chunks;
      Publish(linesToPublish);
    }

    lemma NextChunk(buffer: Bytes, chunks: seq<Bytes>, i: nat)
      requires i < |chunks|
      ensures var cut := Feed(FeedAll(buffer, chunks[..i]).rest, chunks[i]);
              && FeedAll(buffer, chunks[..i + 1]).entries == FeedAll(buffer, chunks[..i]).entries + cut.entries
              && FeedAll(buffer, chunks[..i + 1]).rest == cut.rest
    {
      assert chunks[..i + 1] == chunks[..i] + [chunks[i]];
      FeedAllAppend(buffer, chunks[..i], [chunks[i]]);
      FeedOne(FeedAll(buffer, chunks[..i]).rest, chunks[i]);
    }

    lemma FeedOne(buffer: Bytes, chunk: Bytes)
      ensures FeedAll(buffer, [chunk]) == Feed(buffer, chunk)
    {
      var cut := Feed(buffer, chunk);
      assert [chunk][1..] == [];
      assert FeedAll(cut.rest, []) == Cut([], cut.rest);
      assert cut.entries + [] == cut.entries;
    }

    /** Contributions add up. */
    lemma Extend(a: seq<Entry>, b: seq<Entry>)
      ensures Contents(a + b) == Contents(a) + Contents(b)
      ensures TestedOf(a + b) == TestedOf(a) + TestedOf(b)
      ensures Publishable(Contents(a + b)) == Publishable(Contents(a)) + Publishable(Contents(b))
      ensures Events(Contents(a + b)) == Events(Contents(a)) + Events(Contents(b))
    {
      ContentsAppend(a, b);
      TestableAppend(a, b);
      PublishableAppend(Contents(a), Contents(b));
    }

    /** What the processor has produced for the chunks it has taken out of its batch. */
    ghost predicate Produced(chunks: seq<Bytes>)
      reads this
    {
      var cut := FeedAll([], chunks);
      && lineBuffer == cut.rest
      && written == Contents(cut.entries)
      && tested == TestedOf(cut.entries)
      && published == Events(Contents(cut.entries))
    }

    /** ProcessBatch as a step from one produced prefix to the next. */
    method Flush(ghost done: seq<Bytes>)
      requires Produced(done)
      modifies this
      ensures batch == [] && Produced(done + old(batch))
    {
      FeedAllAppend([], done, batch);
      Extend(FeedAll([], done).entries, FeedAll(lineBuffer, batch).entries);
      ProcessBatch();
    }

    /** A left-over rest gets a line feed and goes through the ordinary path with an empty chunk. */
    method FlushAtEof(ghost chunks: seq<Bytes>)
      requires Produced(chunks) && batch == []
      modifies this
      ensures batch == []
      ensures written == Contents(Capture(chunks))
      ensures tested == TestedOf(Capture(chunks))
      ensures published == Events(Contents(Capture(chunks)))
    {
      ghost var cut := FeedAll([], chunks);
      CarriedRestBounded([], chunks);
      Extend(cut.entries, Finish(cut.rest));
      if lineBuffer != [] {
        EofLine(cut.rest);
        lineBuffer := lineBuffer + [LF];
        batch := [[]];
        ProcessBatch();
      } else {
        assert Finish(cut.rest) == [];
        assert cut.entries + [] == cut.entries;
      }
    }

    lemma EofLine(rest: Bytes)
      requires rest != [] && LfFree(rest)
      ensures Contents(FeedAll(rest + [LF], [[]]).entries) == Contents(Finish(rest))
      ensures Testable(FeedAll(rest + [LF], [[]]).entries) == Testable(Finish(rest))
    {
      var line := rest + [LF];
      FeedOne(line, []);
      assert line[..|rest|] == rest;
      SplitFirst(line, []);
      assert line + [] == line;
      TestableTerminated([line]);
      assert Finish(rest)[1..] == [];
    }

    /** One round of the processor loop. */
    method TakeEvent(event: Event, ghost done: seq<Bytes>) returns (ghost done': seq<Bytes>)
      requires |batch| < BATCH_SIZE && Produced(done)
      modifies this
      ensures |batch| < BATCH_SIZE && Produced(done')
      ensures done' + batch == (done + old(batch)) + AsSeq(ChunkOf(event))
      ensures event == BatchTimeout ==> batch == []
    {
      done' := done;
      ghost var taken := batch;
      match event {
        case Chunk(bytes) =>
          batch := batch + [bytes];
          taken := batch;
          ConcatAssoc(done, old(batch), [bytes]);
          if |batch| >= BATCH_SIZE {
            Flush(done);
            done' := done + taken;
          }
        case BatchTimeout =>
          if batch != [] {
            Flush(done);
            done' := done + taken;
          }
      }
    }

    /**
     The processor loop, for every sequence of chunks and timer wake-ups. The
     grouping into batches leaves no trace: what is written, tested and
     published is a function of the chunks alone.
     */
    method Run(events: seq<Event>)
      requires batch == [] && lineBuffer == [] && written == [] && tested == [] && published == []
      modifies this
      ensures batch == []
      ensures written == Contents(Capture(ChunksOf(events)))
      ensures tested == TestedOf(Capture(ChunksOf(events)))
      ensures published == Events(Contents(Capture(ChunksOf(events))))
    {
      ghost var done: seq<Bytes> := [];
      for i := 0 to |events|
        invariant |batch| < BATCH_SIZE
        invariant done + batch == ChunksOf(events[..i])
        invariant Produced(done)
      {
        CollectNext(ChunkOf, events, i);
        done := TakeEvent(events[i], done);
      }
      assert events[..|events|] == events;
      if batch != [] {
        ghost var taken := batch;
        Flush(done);
        done := done + taken;
      }
      assert done == ChunksOf(events);
      FlushAtEof(done);
    }
  }
}
