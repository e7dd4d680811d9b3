/**
 The batch writer of one output stream: a bounded queue, a batch and an
 append-only file. Whatever the order of writes, receives and timer ticks,
 the file holds the accepted records in order and loses none.
 */
module BatchWriter {
  import opened Sequences
  import opened LineSplitting
  import opened RecordFormat

  const WRITE_BATCH_SIZE := 100
  const CHANNEL_BUFFER_SIZE := 10_000

  /** A file that another run left in the middle of a line gets its line feed first. */
  predicate NeedsNewline(file: Bytes) {
    file != [] && file[|file| - 1] != LF
  }

  function Repaired(file: Bytes): Bytes {
    if NeedsNewline(file) then file + [LF] else file
  }

  /** What can happen to a running writer. */
  datatype Event = Write(record: LogRecord) | Receive | Tick

  function WriteOf(event: Event): Option<LogRecord> {
    if event.Write? then Some(event.record) else None
  }

  function WritesOf(events: seq<Event>): seq<LogRecord> {
    Collect(WriteOf, events)
  }

  /** The writes are the records of the write events, all of them, in order. */
  lemma WritesExact(events: seq<Event>) returns (places: seq<nat>)
    ensures Increasing(places) && |WritesOf(events)| == |places|
    ensures forall i: nat :: i in places <==> i < |events| && events[i].Write?
    ensures forall k :: 0 <= k < |places| ==> places[k] < |events| && events[places[k]] == Write(WritesOf(events)[k])
  {
    places := CollectExact(WriteOf, events);
  }

  lemma FormattedFurther(codec: Codec, start: Bytes, before: seq<LogRecord>, added: seq<LogRecord>)
    ensures (start + FormatAll(codec, before)) + FormatAll(codec, added) == start + FormatAll(codec, before + added)
  {
    FormatAllAppend(codec, before, added);
    ConcatAssoc(start, FormatAll(codec, before), FormatAll(codec, added));
  }

  lemma NothingToFlush(codec: Codec, flushed: seq<LogRecord>, batch: seq<LogRecord>, file: Bytes)
    requires batch == []
    ensures flushed + batch == flushed && file + FormatAll(codec, batch) == file
  {
  }

  lemma FlushedFurther(flushed: seq<LogRecord>, batch: seq<LogRecord>, queue: seq<LogRecord>)
    ensures flushed + (batch + queue) == (flushed + batch) + ([] + queue)
  {
  }

  class BatchLogWriter {
    const codec: Codec
    var queue: seq<LogRecord>       // the bounded channel
    var batch: seq<LogRecord>
    var file: Bytes

    ghost const initial: Bytes
    ghost var accepted: seq<LogRecord>    // everything a caller has handed over
    ghost var flushed: seq<LogRecord>     // everything appended to the file

    /** Nothing is lost, repeated or reordered between the callers and the file. */
    ghost predicate Valid()
      reads this
    {
      && |queue| <= CHANNEL_BUFFER_SIZE
      && |batch| <= WRITE_BATCH_SIZE
      && file == Repaired(initial) + FormatAll(codec, flushed)
      && accepted == flushed + (batch + queue)
    }

    /** Between two events the batch is never full. */
    ghost predicate Idle()
      reads this
    {
      Valid() && |batch| < WRITE_BATCH_SIZE
    }

    constructor (codec: Codec, file: Bytes)
      ensures Idle() && this.codec == codec && initial == file
      ensures accepted == [] && queue == [] && batch == []
      ensures this.file == Repaired(file)
    {
      this.codec, initial := codec, file;
      queue, batch, accepted, flushed := [], [], [], [];
      this.file := if file != [] && file[|file| - 1] != LF then file + [LF] else file;
      new;
      assert this.file == Repaired(initial) + FormatAll(codec, []);
    }

    /** Hands a record over, unless the channel is full and the caller has to wait. */
    method WriteRecord(r: LogRecord) returns (sent: bool)
      requires Idle()
      modifies this`queue, this`accepted
      ensures Idle()
      ensures sent == (|old(queue)| < CHANNEL_BUFFER_SIZE)
      ensures accepted == if sent then old(accepted) + [r] else old(accepted)
      ensures queue == if sent then old(queue) + [r] else old(queue)
    {
      sent := |queue| < CHANNEL_BUFFER_SIZE;
      if sent {
        ConcatAssoc(batch, queue, [r]);
        ConcatAssoc(flushed, batch + queue, [r]);
        queue := queue + [r];
        accepted := accepted + [r];
      }
    }

    /** Formats the whole batch into one buffer and appends it with a single write. */
    method FlushBatch()
      requires Valid()
      modifies this`batch, this`file, this`flushed
      ensures Idle() && batch == []
      ensures flushed == old(flushed) + old(batch)
      ensures file == old(file) + FormatAll(codec, old(batch))
    {
      if batch == [] {
        NothingToFlush(codec, flushed, batch, file);
        return;
      }
      var drained := batch;
      var buffer := FormatBatch(drained);
      FormattedFurther(codec, Repaired(initial), flushed, drained);
      FlushedFurther(flushed, drained, queue);
      file := file + buffer;
      flushed := flushed + drained;
      batch := [];
    }

    method FormatBatch(drained: seq<LogRecord>) returns (buffer: Bytes)
      ensures buffer == FormatAll(codec, drained)
    {
      buffer := [];
      var i := 0;
      while i < |drained|
        invariant 0 <= i <= |drained|
        invariant buffer + FormatAll(codec, drained[i..]) == FormatAll(codec, drained)
      {
        assert drained[i..][1..] == drained[i + 1..];
        ConcatAssoc(buffer, FormatRecord(codec, drained[i]), FormatAll(codec, drained[i + 1..]));
        buffer := AppendEntry(buffer, drained[i]);
        i := i + 1;
      }
    }

    /** TIMESTAMP [LEVEL] CONTENT, and a line feed unless the content ends with one. */
    method AppendEntry(buffer0: Bytes, entry: LogRecord) returns (buffer: Bytes)
      ensures buffer == buffer0 + FormatRecord(codec, entry)
    {
      var level := if entry.isStderr then "ERROR" else "INFO";
      buffer := buffer0 + Ascii(codec.stamp(entry.timestamp));
      buffer := buffer + Ascii(" [");
      buffer := buffer + Ascii(level);
      buffer := buffer + Ascii("] ");
      PrefixFrom(buffer0, entry);
      buffer := buffer + entry.content;
      ConcatAssoc(buffer0, Prefix(codec, entry), entry.content);
      if !EndsWithLf(entry.content) {
        ConcatAssoc(buffer0, Prefix(codec, entry) + entry.content, [LF]);
        buffer := buffer + [LF];
      } else {
        assert Prefix(codec, entry) + entry.content + [] == Prefix(codec, entry) + entry.content;
      }
    }

    lemma PrefixFrom(buffer: Bytes, r: LogRecord)
      ensures (((buffer + Ascii(codec.stamp(r.timestamp))) + Ascii(" [")) + Ascii(Tag(r.isStderr))) + Ascii("] ")
           == buffer + Prefix(codec, r)
    {
      var stamp, open, tag, close := Ascii(codec.stamp(r.timestamp)), Ascii(" ["), Ascii(Tag(r.isStderr)), Ascii("] ");
      ConcatAssoc(buffer, stamp, open);
      ConcatAssoc(buffer, stamp + open, tag);
      ConcatAssoc(buffer, stamp + open + tag, close);
    }

    /** The receive branch of the loop: one record, and a flush when the batch is full. */
    method ReceiveRecord()
      requires Idle() && queue != []
      modifies this`queue, this`batch, this`file, this`flushed
      ensures Idle() && queue == old(queue)[1..]
      ensures var taken := old(batch) + [old(queue)[0]];
              if |taken| < WRITE_BATCH_SIZE then batch == taken && file == old(file)
              else batch == [] && file == old(file) + FormatAll(codec, taken)
    {
      AtSeam(batch, queue);
      batch := batch + [queue[0]];
      queue := queue[1..];
      if |batch| >= WRITE_BATCH_SIZE {
        FlushBatch();
      }
    }

    /** The timer branch of the loop. */
    method TickTimer()
      requires Idle()
      modifies this`batch, this`file, this`flushed
      ensures Idle() && batch == []
      ensures file == old(file) + FormatAll(codec, old(batch))
    {
      if batch != [] {
        FlushBatch();
      } else {
        assert file == file + [];
      }
    }

    /** The sender is gone: the loop drains the channel, flushes and ends with nothing left over. */
    method Shutdown()
      requires Idle()
      modifies this`queue, this`batch, this`file, this`flushed
      ensures queue == [] && batch == []
      ensures file == Repaired(initial) + FormatAll(codec, accepted)
    {
      while queue != []
        invariant Idle()
        decreases |queue|
      {
        ReceiveRecord();
      }
      if batch != [] {
        FlushBatch();
      }
      assert accepted == flushed;
    }

    /** At any moment: the file, then the batch, then the channel make up all accepted records. */
    lemma NothingLost()
      requires Valid()
      ensures file + FormatAll(codec, batch) + FormatAll(codec, queue) == Repaired(initial) + FormatAll(codec, accepted)
    {
      FormatAllAppend(codec, batch, queue);
      FormatAllAppend(codec, flushed, batch + queue);
      ConcatAssoc(Repaired(initial), FormatAll(codec, flushed), FormatAll(codec, batch) + FormatAll(codec, queue));
      ConcatAssoc(file, FormatAll(codec, batch), FormatAll(codec, queue));
    }

    /** One round of the loop. A caller that finds the channel full waits for the next receive. */
    method Handle(event: Event)
      requires Idle()
      modifies this`queue, this`batch, this`file, this`flushed, this`accepted
      ensures Idle()
      ensures accepted == old(accepted) + AsSeq(WriteOf(event))
      ensures event == Receive && old(queue) != [] ==> queue == old(queue)[1..]
      ensures event == Tick ==> batch == [] && file == old(file) + FormatAll(codec, old(batch))
    {
      match event {
        case Write(r) =>
          if |queue| == CHANNEL_BUFFER_SIZE {
            ReceiveRecord();
          }
          var sent := WriteRecord(r);
        case Receive =>
          if queue != [] {
            ReceiveRecord();
          }
        case Tick =>
          TickTimer();
      }
    }

    /**
     Every schedule of writes, receives and ticks, followed by shutdown: the
     file is the repaired initial file and exactly the written records.
     */
    method Run(events: seq<Event>)
      requires Idle() && accepted == []
      modifies this`queue, this`batch, this`file, this`flushed, this`accepted
      ensures queue == [] && batch == []
      ensures file == Repaired(initial) + FormatAll(codec, WritesOf(events))
    {
      for i := 0 to |events|
        invariant Idle()
        invariant accepted == WritesOf(events[..i])
      {
        CollectNext(WriteOf, events, i);
        Handle(events[i]);
      }
      assert events[..|events|] == events;
      Shutdown();
    }
  }
}
