/**
 The batch writer's methods are the steps of the two-writer system: whatever
 one of them does to its queue, batch and file is a run of that system by its
 own writer, which appends the same bytes and leaves the other writer alone.
 */
module WriterRefinement {
  import opened LineSplitting
  import opened RecordFormat
  import opened BatchWriter
  import opened SharedLogFile

  /** The running writer `w` is in the state the system has for its stream. */
  ghost predicate Mirrors(s: State, isStderr: bool, w: BatchLogWriter)
    reads w
  {
    var v := WriterOf(s, isStderr);
    v.phase == Running && v.queue == w.queue && v.batch == w.batch
  }

  /** A run from `s` by one writer alone, which appends `added` to the shared file. */
  ghost predicate RunsFrom(codec: Codec, trace: seq<State>, s: State, isStderr: bool, added: Bytes) {
    && IsRun(codec, trace) && trace[0] == s
    && var last := trace[|trace| - 1];
       last.file == s.file + added && WriterOf(last, !isStderr) == WriterOf(s, !isStderr)
  }

  lemma OneStep(codec: Codec, s: State, s': State, isStderr: bool, a: Action)
    requires Step(codec, s, s', isStderr, a)
    ensures IsRun(codec, [s, s'])
  {
    assert Next(codec, s, s');
  }

  lemma TwoSteps(codec: Codec, s: State, s1: State, s2: State, isStderr: bool, a: Action, b: Action)
    requires Step(codec, s, s1, isStderr, a) && Step(codec, s1, s2, isStderr, b)
    ensures IsRun(codec, [s, s1, s2])
  {
    assert Next(codec, s, s1) && Next(codec, s1, s2);
  }

  /** Opening checks the last byte and, where needed, repairs. */
  method OpenRuns(codec: Codec, ghost s: State, isStderr: bool, file: Bytes)
    returns (w: BatchLogWriter, ghost trace: seq<State>)
    requires file == s.file
    requires WriterOf(s, isStderr) == NewWriter(WriterOf(s, isStderr).todo)
    ensures fresh(w) && w.Idle() && w.codec == codec
    ensures RunsFrom(codec, trace, s, isStderr, if NeedsNewline(file) then [LF] else [])
    ensures Mirrors(trace[|trace| - 1], isStderr, w) && trace[|trace| - 1].file == w.file
  {
    w := new BatchLogWriter(codec, file);
    ghost var v := WriterOf(s, isStderr);
    if NeedsNewline(file) {
      ghost var s1 := Update(s, isStderr, v.(phase := Repairing), s.file, []);
      ghost var s2 := Update(s1, isStderr, v.(phase := Running), s.file + [LF], [Newline]);
      TwoSteps(codec, s, s1, s2, isStderr, CheckTail, Repair);
      trace := [s, s1, s2];
    } else {
      ghost var s1 := Update(s, isStderr, v.(phase := Running), s.file, []);
      OneStep(codec, s, s1, isStderr, CheckTail);
      assert s.file + [] == s.file;
      trace := [s, s1];
    }
  }

  /** Handing over a record is one step, or none while the channel is full. */
  method WriteRuns(w: BatchLogWriter, ghost s: State, isStderr: bool, r: LogRecord)
    returns (sent: bool, ghost trace: seq<State>)
    requires w.Idle() && Mirrors(s, isStderr, w)
    requires WriterOf(s, isStderr).todo != [] && WriterOf(s, isStderr).todo[0] == r
    modifies w`queue, w`accepted
    ensures w.Idle() && RunsFrom(w.codec, trace, s, isStderr, [])
    ensures Mirrors(trace[|trace| - 1], isStderr, w)
    ensures WriterOf(trace[|trace| - 1], isStderr).todo
         == if sent then WriterOf(s, isStderr).todo[1..] else WriterOf(s, isStderr).todo
    ensures !sent ==> trace == [s]
  {
    ghost var v := WriterOf(s, isStderr);
    sent := w.WriteRecord(r);
    assert s.file + [] == s.file;
    if sent {
      ghost var s1 := Update(s, isStderr, v.(todo := v.todo[1..], queue := v.queue + [r]), s.file, []);
      OneStep(w.codec, s, s1, isStderr, Produce);
      trace := [s, s1];
    } else {
      trace := [s];
    }
  }

  ghost function Received(s: State, isStderr: bool): State
    requires WriterOf(s, isStderr).queue != []
  {
    var v := WriterOf(s, isStderr);
    Update(s, isStderr, v.(queue := v.queue[1..], batch := v.batch + [v.queue[0]]), s.file, [])
  }

  /** Receiving is one step, and a second one when it fills the batch. */
  method ReceiveRuns(w: BatchLogWriter, ghost s: State, isStderr: bool)
    returns (ghost trace: seq<State>, ghost added: Bytes)
    requires w.Idle() && Mirrors(s, isStderr, w) && w.queue != []
    modifies w`queue, w`batch, w`file, w`flushed
    ensures w.Idle() && w.file == old(w.file) + added
    ensures RunsFrom(w.codec, trace, s, isStderr, added) && Mirrors(trace[|trace| - 1], isStderr, w)
  {
    ghost var s1 := Received(s, isStderr);
    w.ReceiveRecord();
    if w.batch != [] {
      OneStep(w.codec, s, s1, isStderr, Action.Receive);
      trace, added := [s, s1], [];
      assert s.file + [] == s.file && w.file + [] == w.file;
    } else {
      ghost var s2 := Flushed(w.codec, s1, isStderr);
      TwoSteps(w.codec, s, s1, s2, isStderr, Action.Receive, Flush);
      trace, added := [s, s1, s2], FormatAll(w.codec, WriterOf(s1, isStderr).batch);
    }
  }

  /** A timer tick flushes what there is. */
  method TickRuns(w: BatchLogWriter, ghost s: State, isStderr: bool)
    returns (ghost trace: seq<State>, ghost added: Bytes)
    requires w.Idle() && Mirrors(s, isStderr, w)
    modifies w`batch, w`file, w`flushed
    ensures w.Idle() && w.file == old(w.file) + added
    ensures RunsFrom(w.codec, trace, s, isStderr, added) && Mirrors(trace[|trace| - 1], isStderr, w)
  {
    added := FormatAll(w.codec, w.batch);
    ghost var s1 := Flushed(w.codec, s, isStderr);
    if w.batch != [] {
      OneStep(w.codec, s, s1, isStderr, Flush);
      trace := [s, s1];
    } else {
      assert s.file + [] == s.file;
      trace := [s];
    }
    w.TickTimer();
  }
}
