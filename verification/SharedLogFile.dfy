/**
 Two batch writers on one log file: the stdout and the stderr stream of a
 process each have their own channel and batch, and append to the same file.
 Every interleaving of their steps is allowed.
 */
module SharedLogFile {
  import opened Sequences
  import opened LineSplitting
  import opened RecordFormat
  import opened LogReader
  import opened BatchWriter

  /** Where a writer is: opening the file, about to repair it, or in its loop. */
  datatype Phase = Opening | Repairing | Running

  datatype Writer = Writer(
    phase: Phase,
    todo: seq<LogRecord>,     // records its stream has yet to hand over
    queue: seq<LogRecord>,
    batch: seq<LogRecord>)

  /** What has been appended to the file: records, and line feeds of the repair on opening. */
  datatype Piece = Record(record: LogRecord) | Newline

  datatype State = State(file: Bytes, out: Writer, err: Writer, pieces: seq<Piece>)

  datatype Action = CheckTail | Repair | Produce | Receive | Flush

  function NewWriter(records: seq<LogRecord>): Writer {
    Writer(Opening, records, [], [])
  }

  ghost function Init(file: Bytes, out: seq<LogRecord>, err: seq<LogRecord>): State {
    State(file, NewWriter(out), NewWriter(err), [])
  }

  ghost function WriterOf(s: State, isStderr: bool): Writer {
    if isStderr then s.err else s.out
  }

  ghost function Update(s: State, isStderr: bool, w: Writer, file: Bytes, added: seq<Piece>): State {
    if isStderr then State(file, s.out, w, s.pieces + added) else State(file, w, s.err, s.pieces + added)
  }

  ghost function Records(rs: seq<LogRecord>): seq<Piece> {
    Map(r => Record(r), rs)
  }

  /** One atomic step of one writer. Flushing the batch is a single append. */
  ghost predicate Step(codec: Codec, s: State, s': State, isStderr: bool, a: Action) {
    var w := WriterOf(s, isStderr);
    match a
    case CheckTail =>
      && w.phase == Opening
      && s' == Update(s, isStderr, w.(phase := if NeedsNewline(s.file) then Repairing else Running), s.file, [])
    case Repair =>
      && w.phase == Repairing
      && s' == Update(s, isStderr, w.(phase := Running), s.file + [LF], [Newline])
    case Produce =>
      && w.todo != [] && |w.queue| < CHANNEL_BUFFER_SIZE
      && s' == Update(s, isStderr, w.(todo := w.todo[1..], queue := w.queue + [w.todo[0]]), s.file, [])
    case Receive =>
      && w.phase == Running && w.queue != [] && |w.batch| < WRITE_BATCH_SIZE
      && s' == Update(s, isStderr, w.(queue := w.queue[1..], batch := w.batch + [w.queue[0]]), s.file, [])
    case Flush =>
      && w.phase == Running && w.batch != []
      && s' == Update(s, isStderr, w.(batch := []), s.file + FormatAll(codec, w.batch), Records(w.batch))
  }

  ghost predicate Next(codec: Codec, s: State, s': State) {
    exists isStderr, a :: Step(codec, s, s', isStderr, a)
  }

  /** A run: `trace` leads from its first state to its last by steps. */
  ghost predicate IsRun(codec: Codec, trace: seq<State>) {
    && trace != []
    && forall i, j :: 0 <= i && j == i + 1 < |trace| ==> Next(codec, trace[i], trace[j])
  }

  /** Both streams are finished and both writers have shut down. */
  ghost predicate Finished(s: State) {
    && s.out.todo == [] && s.out.queue == [] && s.out.batch == []
    && s.err.todo == [] && s.err.queue == [] && s.err.batch == []
  }

  // ----- What every step keeps

  /** The line of the file that a piece makes. */
  function PieceLine(codec: Codec, p: Piece): Bytes {
    if p.Record? then FormatRecord(codec, p.record) else [LF]
  }

  function LineOf(codec: Codec): Piece -> Bytes {
    (p: Piece) => PieceLine(codec, p)
  }

  function PieceLines(codec: Codec, pieces: seq<Piece>): seq<Bytes> {
    Map(LineOf(codec), pieces)
  }

  function Render(codec: Codec, pieces: seq<Piece>): Bytes {
    Flatten(PieceLines(codec, pieces))
  }

  function RecordFrom(isStderr: bool): Piece -> Option<LogRecord> {
    (p: Piece) => if p.Record? && p.record.isStderr == isStderr then Some(p.record) else None
  }

  /** The records of one stream among the pieces, in order. */
  function Selected(isStderr: bool, pieces: seq<Piece>): seq<LogRecord> {
    Collect(RecordFrom(isStderr), pieces)
  }

  lemma RenderAppend(codec: Codec, a: seq<Piece>, b: seq<Piece>)
    ensures Render(codec, a + b) == Render(codec, a) + Render(codec, b)
  {
    MapAppend(LineOf(codec), a, b);
    FlattenAppend(PieceLines(codec, a), PieceLines(codec, b));
  }

  predicate AllFrom(isStderr: bool, rs: seq<LogRecord>) {
    forall i :: 0 <= i < |rs| ==> rs[i].isStderr == isStderr
  }

  lemma {:induction false} RecordsRendered(codec: Codec, rs: seq<LogRecord>)
    ensures Render(codec, Records(rs)) == FormatAll(codec, rs)
    decreases |rs|
  {
    if rs != [] {
      assert PieceLines(codec, Records(rs))[1..] == PieceLines(codec, Records(rs[1..]));
      RecordsRendered(codec, rs[1..]);
    }
  }

  lemma {:induction false} RecordsSelected(rs: seq<LogRecord>, isStderr: bool)
    requires AllFrom(isStderr, rs)
    ensures Selected(isStderr, Records(rs)) == rs
    ensures Selected(!isStderr, Records(rs)) == []
    decreases |rs|
  {
    if rs != [] {
      assert Records(rs)[1..] == Records(rs[1..]);
      RecordsSelected(rs[1..], isStderr);
    }
  }

  function Backlog(w: Writer): seq<LogRecord> {
    w.batch + (w.queue + w.todo)
  }

  /** Each stream's records are in the file or on their way, in their original order. */
  ghost predicate StreamKept(s: State, isStderr: bool, all: seq<LogRecord>) {
    && Selected(isStderr, s.pieces) + Backlog(WriterOf(s, isStderr)) == all
    && AllFrom(isStderr, Backlog(WriterOf(s, isStderr)))
  }

  ghost predicate Inv(codec: Codec, initial: Bytes, out: seq<LogRecord>, err: seq<LogRecord>, s: State) {
    && s.file == initial + Render(codec, s.pieces)
    && StreamKept(s, false, out)
    && StreamKept(s, true, err)
  }

  lemma InitInv(codec: Codec, initial: Bytes, out: seq<LogRecord>, err: seq<LogRecord>)
    requires AllFrom(false, out) && AllFrom(true, err)
    ensures Inv(codec, initial, out, err, Init(initial, out, err))
  {
    assert [] + ([] + out) == out && [] + ([] + err) == err;
    assert [] + out == out && [] + err == err;
    assert initial + [] == initial;
  }

  lemma BacklogShifts(w: Writer)
    ensures w.todo != [] ==> Backlog(w.(todo := w.todo[1..], queue := w.queue + [w.todo[0]])) == Backlog(w)
    ensures w.queue != [] ==> Backlog(w.(queue := w.queue[1..], batch := w.batch + [w.queue[0]])) == Backlog(w)
  {
    if w.todo != [] {
      AtSeam(w.queue, w.todo);
    }
    if w.queue != [] {
      AtSeam(w.batch, w.queue);
      ConcatAssoc(w.batch, w.queue, w.todo);
      ConcatAssoc(w.batch + [w.queue[0]], w.queue[1..], w.todo);
    }
  }

  ghost function Flushed(codec: Codec, s: State, isStderr: bool): State {
    var w := WriterOf(s, isStderr);
    Update(s, isStderr, w.(batch := []), s.file + FormatAll(codec, w.batch), Records(w.batch))
  }

  lemma BatchIsMine(s: State, isStderr: bool, mine: seq<LogRecord>)
    requires StreamKept(s, isStderr, mine)
    ensures AllFrom(isStderr, WriterOf(s, isStderr).batch)
    ensures AllFrom(isStderr, WriterOf(s, isStderr).queue + WriterOf(s, isStderr).todo)
  {
    var w := WriterOf(s, isStderr);
    var rest := w.queue + w.todo;
    assert forall i :: 0 <= i < |w.batch| ==> w.batch[i] == Backlog(w)[i];
    assert forall i :: 0 <= i < |rest| ==> rest[i] == Backlog(w)[|w.batch| + i];
  }

  lemma BatchMoves(selected: seq<LogRecord>, batch: seq<LogRecord>, rest: seq<LogRecord>)
    ensures (selected + batch) + ([] + rest) == selected + (batch + rest)
  {
  }

  lemma FlushKeepsMine(codec: Codec, s: State, isStderr: bool, mine: seq<LogRecord>)
    requires StreamKept(s, isStderr, mine)
    ensures StreamKept(Flushed(codec, s, isStderr), isStderr, mine)
  {
    var w := WriterOf(s, isStderr);
    BatchIsMine(s, isStderr, mine);
    RecordsSelected(w.batch, isStderr);
    CollectAppend(RecordFrom(isStderr), s.pieces, Records(w.batch));
    BatchMoves(Selected(isStderr, s.pieces), w.batch, w.queue + w.todo);
  }

  lemma FlushKeepsOther(codec: Codec, s: State, isStderr: bool, mine: seq<LogRecord>, other: seq<LogRecord>)
    requires StreamKept(s, isStderr, mine) && StreamKept(s, !isStderr, other)
    ensures StreamKept(Flushed(codec, s, isStderr), !isStderr, other)
    ensures Render(codec, Flushed(codec, s, isStderr).pieces)
         == Render(codec, s.pieces) + FormatAll(codec, WriterOf(s, isStderr).batch)
  {
    var w := WriterOf(s, isStderr);
    BatchIsMine(s, isStderr, mine);
    RecordsRendered(codec, w.batch);
    RecordsSelected(w.batch, isStderr);
    RenderAppend(codec, s.pieces, Records(w.batch));
    CollectAppend(RecordFrom(!isStderr), s.pieces, Records(w.batch));
    assert Selected(!isStderr, s.pieces) + [] == Selected(!isStderr, s.pieces);
  }

  lemma RepairKeepsStreams(codec: Codec, s: State, isStderr: bool)
    ensures Render(codec, s.pieces + [Newline]) == Render(codec, s.pieces) + [LF]
    ensures Selected(isStderr, s.pieces + [Newline]) == Selected(isStderr, s.pieces)
  {
    RenderAppend(codec, s.pieces, [Newline]);
    CollectAppend(RecordFrom(isStderr), s.pieces, [Newline]);
    CollectOne(RecordFrom(isStderr), Newline);
    assert PieceLines(codec, [Newline]) == [[LF]];
    FlattenSnoc([], [LF]);
    assert [] + [LF] == [LF] && [] + [[LF]] == [[LF]];
    assert Selected(isStderr, s.pieces) + [] == Selected(isStderr, s.pieces);
  }

  lemma StepKeepsInv(
    codec: Codec, initial: Bytes, out: seq<LogRecord>, err: seq<LogRecord>,
    s: State, s': State, isStderr: bool, a: Action)
    requires Inv(codec, initial, out, err, s) && Step(codec, s, s', isStderr, a)
    ensures Inv(codec, initial, out, err, s')
  {
    var w := WriterOf(s, isStderr);
    assert s.pieces + [] == s.pieces;
    match a {
      case CheckTail =>
      case Repair =>
        RepairKeepsStreams(codec, s, false);
        RepairKeepsStreams(codec, s, true);
        ConcatAssoc(initial, Render(codec, s.pieces), [LF]);
      case Produce =>
        BacklogShifts(w);
      case Receive =>
        BacklogShifts(w);
      case Flush =>
        var mine, other := if isStderr then err else out, if isStderr then out else err;
        FlushKeepsMine(codec, s, isStderr, mine);
        FlushKeepsOther(codec, s, isStderr, mine, other);
        ConcatAssoc(initial, Render(codec, s.pieces), FormatAll(codec, w.batch));
    }
  }

  lemma {:induction false} RunKeepsInv(
    codec: Codec, initial: Bytes, out: seq<LogRecord>, err: seq<LogRecord>, trace: seq<State>, n: nat)
    requires AllFrom(false, out) && AllFrom(true, err)
    requires IsRun(codec, trace) && trace[0] == Init(initial, out, err) && n < |trace|
    ensures Inv(codec, initial, out, err, trace[n])
  {
    if n == 0 {
      InitInv(codec, initial, out, err);
    } else {
      RunKeepsInv(codec, initial, out, err, trace, n - 1);
      assert Next(codec, trace[n - 1], trace[(n - 1) + 1]);
      var isStderr, a :| Step(codec, trace[n - 1], trace[n], isStderr, a);
      StepKeepsInv(codec, initial, out, err, trace[n - 1], trace[n], isStderr, a);
    }
  }

  /** When both writers are done, selecting a stream's records from the file gives back that stream. */
  lemma FinishedStreams(
    codec: Codec, initial: Bytes, out: seq<LogRecord>, err: seq<LogRecord>, trace: seq<State>)
    requires AllFrom(false, out) && AllFrom(true, err)
    requires IsRun(codec, trace) && trace[0] == Init(initial, out, err) && Finished(trace[|trace| - 1])
    ensures var s := trace[|trace| - 1];
            && s.file == initial + Render(codec, s.pieces)
            && Selected(false, s.pieces) == out
            && Selected(true, s.pieces) == err
  {
    var s := trace[|trace| - 1];
    RunKeepsInv(codec, initial, out, err, trace, |trace| - 1);
    assert Backlog(s.out) == [] && Backlog(s.err) == [];
  }

  // ----- Whole lines, and the newline repair

  function NewlineOf(p: Piece): Option<Piece> {
    if p.Newline? then Some(p) else None
  }

  function NewlineCount(pieces: seq<Piece>): nat {
    |Collect(NewlineOf, pieces)|
  }

  lemma {:induction false} NoNewlines(rs: seq<LogRecord>)
    ensures Collect(NewlineOf, Records(rs)) == []
    decreases |rs|
  {
    if rs != [] {
      assert Records(rs)[1..] == Records(rs[1..]);
      NoNewlines(rs[1..]);
    }
  }

  lemma OneNewlineMore(pieces: seq<Piece>)
    ensures NewlineCount(pieces + [Newline]) == NewlineCount(pieces) + 1
  {
    CollectAppend(NewlineOf, pieces, [Newline]);
    CollectOne(NewlineOf, Newline);
  }

  lemma NoNewlineMore(pieces: seq<Piece>, rs: seq<LogRecord>)
    ensures NewlineCount(pieces + Records(rs)) == NewlineCount(pieces)
  {
    CollectAppend(NewlineOf, pieces, Records(rs));
    NoNewlines(rs);
  }

  lemma {:induction false} FormatAllTerminated(codec: Codec, rs: seq<LogRecord>)
    requires rs != []
    ensures EndsWithLf(FormatAll(codec, rs))
  {
    var r, f := rs[0], FormatRecord(codec, rs[0]);
    if rs[1..] != [] {
      FormatAllTerminated(codec, rs[1..]);
    } else {
      assert f + FormatAll(codec, rs[1..]) == f;
    }
  }

  ghost function Repairs(w: Writer): nat {
    if w.phase == Repairing then 1 else 0
  }

  /** The repairs a writer may still make. */
  ghost function RepairsLeft(w: Writer): nat {
    if w.phase == Running then 0 else 1
  }

  /** The first thing appended to a file that ends in mid-line is a line feed, so no record joins a partial line. */
  ghost predicate LineSafe(initial: Bytes, s: State) {
    && (s.pieces == [] ==> s.file == initial)
    && (s.pieces != [] ==> EndsWithLf(s.file) && (NeedsNewline(initial) ==> s.pieces[0] == Newline))
    && (NeedsNewline(initial) && s.pieces == [] ==> s.out.phase != Running && s.err.phase != Running)
    && (!NeedsNewline(initial) ==> NewlineCount(s.pieces) + Repairs(s.out) + Repairs(s.err) == 0)
    && NewlineCount(s.pieces) + RepairsLeft(s.out) + RepairsLeft(s.err) <= 2
  }

  lemma RepairKeepsLineSafe(codec: Codec, initial: Bytes, s: State, s': State, isStderr: bool)
    requires LineSafe(initial, s) && Step(codec, s, s', isStderr, Repair)
    ensures LineSafe(initial, s')
  {
    OneNewlineMore(s.pieces);
    assert (s.pieces + [Newline])[0] == if s.pieces == [] then Newline else s.pieces[0];
  }

  lemma FlushKeepsLineSafe(codec: Codec, initial: Bytes, s: State, s': State, isStderr: bool)
    requires LineSafe(initial, s) && Step(codec, s, s', isStderr, Flush)
    ensures LineSafe(initial, s')
  {
    var w := WriterOf(s, isStderr);
    FormatAllTerminated(codec, w.batch);
    StillTerminated(s.file, FormatAll(codec, w.batch));
    NoNewlineMore(s.pieces, w.batch);
    FirstPieceStays(s.pieces, Records(w.batch));
  }

  lemma StillTerminated(file: Bytes, added: Bytes)
    requires EndsWithLf(added)
    ensures EndsWithLf(file + added)
  {
  }

  lemma FirstPieceStays(pieces: seq<Piece>, added: seq<Piece>)
    ensures pieces != [] ==> pieces + added != [] && (pieces + added)[0] == pieces[0]
  {
  }

  lemma StepKeepsLineSafe(codec: Codec, initial: Bytes, s: State, s': State, isStderr: bool, a: Action)
    requires LineSafe(initial, s) && Step(codec, s, s', isStderr, a)
    ensures LineSafe(initial, s')
  {
    match a {
      case Repair =>
        RepairKeepsLineSafe(codec, initial, s, s', isStderr);
      case Flush =>
        FlushKeepsLineSafe(codec, initial, s, s', isStderr);
      case _ =>
        assert s.pieces + [] == s.pieces;
    }
  }

  lemma {:induction false} RunKeepsLineSafe(
    codec: Codec, initial: Bytes, out: seq<LogRecord>, err: seq<LogRecord>, trace: seq<State>, n: nat)
    requires IsRun(codec, trace) && trace[0] == Init(initial, out, err) && n < |trace|
    ensures LineSafe(initial, trace[n])
  {
    if n > 0 {
      RunKeepsLineSafe(codec, initial, out, err, trace, n - 1);
      assert Next(codec, trace[n - 1], trace[(n - 1) + 1]);
      var isStderr, a :| Step(codec, trace[n - 1], trace[n], isStderr, a);
      StepKeepsLineSafe(codec, initial, trace[n - 1], trace[n], isStderr, a);
    }
  }

  /** No run ever repairs more than twice. */
  lemma AtMostTwoRepairs(
    codec: Codec, initial: Bytes, out: seq<LogRecord>, err: seq<LogRecord>, trace: seq<State>, n: nat)
    requires IsRun(codec, trace) && trace[0] == Init(initial, out, err) && n < |trace|
    ensures NewlineCount(trace[n].pieces) <= 2
    ensures !NeedsNewline(initial) ==> NewlineCount(trace[n].pieces) == 0
  {
    RunKeepsLineSafe(codec, initial, out, err, trace, n);
  }

  /** No run from this file ever writes more line feeds of its own than the one the file lacks. */
  ghost predicate NeverAddsBlankLine(codec: Codec, initial: Bytes, out: seq<LogRecord>, err: seq<LogRecord>) {
    forall trace: seq<State> :: IsRun(codec, trace) && trace[0] == Init(initial, out, err) ==>
      NewlineCount(trace[|trace| - 1].pieces) <= if NeedsNewline(initial) then 1 else 0
  }

  /** Both writers see the partial line before either repairs it. */
  ghost function RacingTrace(initial: Bytes, out: seq<LogRecord>, err: seq<LogRecord>): seq<State> {
    var w, e := NewWriter(out), NewWriter(err);
    [Init(initial, out, err),
     State(initial, w.(phase := Repairing), e, []),
     State(initial, w.(phase := Repairing), e.(phase := Repairing), []),
     State(initial + [LF], w.(phase := Running), e.(phase := Repairing), [Newline]),
     State(initial + [LF] + [LF], w.(phase := Running), e.(phase := Running), [Newline, Newline])]
  }

  lemma RacingRepairs(codec: Codec, initial: Bytes, out: seq<LogRecord>, err: seq<LogRecord>)
    requires NeedsNewline(initial)
    ensures IsRun(codec, RacingTrace(initial, out, err))
    ensures NewlineCount(RacingTrace(initial, out, err)[4].pieces) == 2
  {
    var t := RacingTrace(initial, out, err);
    assert Step(codec, t[0], t[1], false, CheckTail);
    assert Step(codec, t[1], t[2], true, CheckTail);
    assert [] + [Newline] == [Newline];
    assert Step(codec, t[2], t[3], false, Repair);
    assert [Newline] + [Newline] == [Newline, Newline];
    assert Step(codec, t[3], t[4], true, Repair);
    assert forall i :: 0 <= i < |t| - 1 ==> Next(codec, t[i], t[i + 1]);
    OneNewlineMore([]);
    OneNewlineMore([Newline]);
  }

  /**
   The repair on opening is a check followed by a write, so two writers can
   both repair the same file. This is harmless exactly for files that need no
   repair: all others have a run that leaves an empty line behind.
   */
  lemma RepairRaceExact(codec: Codec, initial: Bytes, out: seq<LogRecord>, err: seq<LogRecord>)
    ensures NeverAddsBlankLine(codec, initial, out, err) <==> !NeedsNewline(initial)
  {
    if NeedsNewline(initial) {
      RacingRepairs(codec, initial, out, err);
      var t := RacingTrace(initial, out, err);
      assert t[|t| - 1] == t[4];
    } else {
      forall trace: seq<State> | IsRun(codec, trace) && trace[0] == Init(initial, out, err)
        ensures NewlineCount(trace[|trace| - 1].pieces) <= 0
      {
        RunKeepsLineSafe(codec, initial, out, err, trace, |trace| - 1);
      }
    }
  }

  // ----- Progress

  ghost function WriterWork(w: Writer): nat {
    3 * |w.todo| + 2 * |w.queue| + |w.batch|
    + (match w.phase case Opening => 2 case Repairing => 1 case Running => 0)
  }

  ghost function Work(s: State): nat {
    WriterWork(s.out) + WriterWork(s.err)
  }

  /** Every step uses up work. */
  lemma StepDecreases(codec: Codec, s: State, s': State, isStderr: bool, a: Action)
    requires Step(codec, s, s', isStderr, a)
    ensures Work(s') < Work(s)
  {
  }

  /** What a writer with something left to do does next. */
  ghost function Upcoming(w: Writer): Action {
    match w.phase
    case Opening => CheckTail
    case Repairing => Repair
    case Running => if w.batch != [] then Flush else if w.queue != [] then Action.Receive else Produce
  }

  ghost predicate CanStep(codec: Codec, s: State) {
    exists s' :: Next(codec, s, s')
  }

  /** A writer that has not finished can take a step, whatever the other one does. */
  lemma UnfinishedCanStep(codec: Codec, s: State)
    ensures !Finished(s) ==> CanStep(codec, s)
  {
    if !Finished(s) {
      var isStderr := s.out.todo == [] && s.out.queue == [] && s.out.batch == [];
      var w := WriterOf(s, isStderr);
      var a := Upcoming(w);
      var s' :=
        match a
        case CheckTail =>
          Update(s, isStderr, w.(phase := if NeedsNewline(s.file) then Repairing else Running), s.file, [])
        case Repair => Update(s, isStderr, w.(phase := Running), s.file + [LF], [Newline])
        case Produce => Update(s, isStderr, w.(todo := w.todo[1..], queue := w.queue + [w.todo[0]]), s.file, [])
        case Receive => Update(s, isStderr, w.(queue := w.queue[1..], batch := w.batch + [w.queue[0]]), s.file, [])
        case Flush => Flushed(codec, s, isStderr);
      assert Step(codec, s, s', isStderr, a);
      assert Next(codec, s, s');
    }
  }

  lemma {:induction false} RunBounded(codec: Codec, trace: seq<State>, n: nat)
    requires IsRun(codec, trace) && n < |trace|
    ensures n + Work(trace[n]) <= Work(trace[0])
    decreases n
  {
    if n > 0 {
      RunBounded(codec, trace, n - 1);
      assert Next(codec, trace[n - 1], trace[n]);
      var isStderr, a :| Step(codec, trace[n - 1], trace[n], isStderr, a);
      StepDecreases(codec, trace[n - 1], trace[n], isStderr, a);
    }
  }

  /** Every interleaving ends, and one that cannot go on has finished both streams. */
  lemma MaximalRunFinishes(codec: Codec, trace: seq<State>)
    requires IsRun(codec, trace)
    ensures |trace| <= Work(trace[0]) + 1
    ensures !CanStep(codec, trace[|trace| - 1]) ==> Finished(trace[|trace| - 1])
  {
    RunBounded(codec, trace, |trace| - 1);
    UnfinishedCanStep(codec, trace[|trace| - 1]);
  }

  lemma StepKeepsNewlines(codec: Codec, s: State, s': State, isStderr: bool, a: Action)
    requires Step(codec, s, s', isStderr, a)
    ensures NewlineCount(s'.pieces) >= NewlineCount(s.pieces)
  {
    match a {
      case Repair =>
        OneNewlineMore(s.pieces);
      case Flush =>
        NoNewlineMore(s.pieces, WriterOf(s, isStderr).batch);
      case _ =>
        assert s.pieces + [] == s.pieces;
    }
  }

  /** Every run goes on to an end, and no repair is undone on the way. */
  lemma {:induction false} RunCanFinish(codec: Codec, trace: seq<State>) returns (longer: seq<State>)
    requires IsRun(codec, trace)
    ensures IsRun(codec, longer) && longer[0] == trace[0] && Finished(longer[|longer| - 1])
    ensures NewlineCount(longer[|longer| - 1].pieces) >= NewlineCount(trace[|trace| - 1].pieces)
    decreases Work(trace[|trace| - 1])
  {
    var s := trace[|trace| - 1];
    if Finished(s) {
      longer := trace;
    } else {
      UnfinishedCanStep(codec, s);
      var s' :| Next(codec, s, s');
      NextWorks(codec, s, s');
      longer := RunCanFinish(codec, trace + [s']);
    }
  }

  lemma NextWorks(codec: Codec, s: State, s': State)
    requires Next(codec, s, s')
    ensures Work(s') < Work(s) && NewlineCount(s'.pieces) >= NewlineCount(s.pieces)
  {
    var isStderr, a :| Step(codec, s, s', isStderr, a);
    StepDecreases(codec, s, s', isStderr, a);
    StepKeepsNewlines(codec, s, s', isStderr, a);
  }
}
