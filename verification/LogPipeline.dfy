/**
 The log pipeline end to end: output bytes are captured into entries, written
 through two racing batch writers and read back as log entries.
 */
module LogPipeline {
  import opened Sequences
  import opened LineSplitting
  import opened LineCapture
  import HyperLog
  import opened RecordFormat
  import opened LogReader
  import opened BatchWriter
  import opened SharedLogFile

  /** `records` carry exactly the entries captured from `chunks`, at whatever times. */
  ghost predicate Carries(records: seq<LogRecord>, chunks: seq<Bytes>, isStderr: bool) {
    var contents := Contents(Capture(chunks));
    && |records| == |contents|
    && forall i :: 0 <= i < |records| ==> records[i].content == contents[i] && records[i].isStderr == isStderr
  }

  /** The capture side delivers such records: whatever the wake-ups, one for each entry of the output. */
  method CaptureRecords(
    isUtf8: Bytes -> bool, trimEnd: Bytes -> Bytes, hasPattern: bool, events: seq<HyperLog.Event>,
    isStderr: bool, clock: nat -> Instant)
    returns (records: seq<LogRecord>)
    ensures Carries(records, HyperLog.ChunksOf(events), isStderr)
  {
    var streamer := new HyperLog.HyperLogStreamer(isUtf8, trimEnd, hasPattern);
    streamer.Run(events);
    var written := streamer.written;
    records := [];
    for i := 0 to |written|
      invariant |records| == i
      invariant forall k :: 0 <= k < i ==> records[k].content == written[k] && records[k].isStderr == isStderr
    {
      records := records + [LogRecord(clock(i), written[i], isStderr)];
    }
  }

  /** What a reader shows for a record. */
  function Shown(codec: Codec, r: LogRecord): Parsed {
    Parsed(codec.parseTime(codec.stamp(r.timestamp)),
           if r.isStderr then Stderr else Stdout,
           codec.decode(StripEnd(r.content)))
  }

  // ----- A file of whole lines

  lemma RemainderNeedsNewline(s: Bytes)
    ensures Remainder(s) != [] ==> NeedsNewline(s)
  {
    SplitRejoins(s);
    RemainderLfFree(s);
    var r := Remainder(s);
    if r != [] {
      assert s[|s| - 1] == r[|r| - 1];
    }
  }

  /** Appending lines to a terminated file appends just those lines. */
  lemma LinesAppended(base: Bytes, lines: seq<Bytes>)
    requires !NeedsNewline(base) && AreLines(lines)
    ensures RawLines(base + Flatten(lines)) == RawLines(base) + lines
  {
    var added := Flatten(lines);
    assert added + [] == added;
    SplitUnique(lines, []);
    RemainderNeedsNewline(base);
    SplitAppend(base, added);
    assert [] + added == added;
  }

  predicate ContentsAreLines(rs: seq<LogRecord>) {
    forall i :: 0 <= i < |rs| ==> IsLine(rs[i].content)
  }

  predicate PiecesAreLines(pieces: seq<Piece>) {
    forall i :: 0 <= i < |pieces| && pieces[i].Record? ==> IsLine(pieces[i].record.content)
  }

  lemma RenderedLines(codec: Codec, pieces: seq<Piece>)
    requires PiecesAreLines(pieces)
    ensures AreLines(PieceLines(codec, pieces))
  {
    forall i | 0 <= i < |pieces| ensures IsLine(PieceLines(codec, pieces)[i]) {
      if pieces[i].Record? {
        RecordIsLine(codec, pieces[i].record);
      }
    }
  }

  /** One record, written and read: its line decodes and parses to what is shown, its time to the millisecond. */
  lemma RecordRoundTrip(codec: Codec, r: LogRecord)
    requires KeepsAscii(codec.decode) && IsLine(r.content)
    ensures ParseLogLine(codec.parseTime, codec.decode(StripEnd(FormatRecord(codec, r)))) == Shown(codec, r)
    ensures KeepsMillis(codec) && FourDigitYear(r.timestamp) ==>
              Shown(codec, r).timestamp == Some(ToMillis(r.timestamp))
  {
    var prefix := Prefix(codec, r);
    RecordIsLine(codec, r);
    StripBehindPrefix(codec, r);
    ParseUndoesPrefix(codec, r, StripEnd(r.content));
  }

  lemma PrefixEndsInSpace(codec: Codec, r: LogRecord)
    ensures Prefix(codec, r) != [] && Prefix(codec, r)[|Prefix(codec, r)| - 1] == 32
  {
    var front := Ascii(codec.stamp(r.timestamp)) + Ascii(" [") + Ascii(Tag(r.isStderr));
    assert Prefix(codec, r) == front + Ascii("] ");
  }

  /** The line end is stripped from the content, never from the prefix. */
  lemma StripBehindPrefix(codec: Codec, r: LogRecord)
    requires IsLine(r.content)
    ensures StripEnd(Prefix(codec, r) + r.content) == Prefix(codec, r) + StripEnd(r.content)
  {
    PrefixEndsInSpace(codec, r);
    StripBehind(Prefix(codec, r), r.content);
  }

  lemma StripBehind(prefix: Bytes, content: Bytes)
    requires IsLine(content) && prefix != [] && prefix[|prefix| - 1] != CR
    ensures StripEnd(prefix + content) == prefix + StripEnd(content)
  {
    var raw := prefix + content;
    assert raw[..|raw| - 1] == prefix + content[..|content| - 1];
    StripCrBehind(prefix, content[..|content| - 1]);
  }

  lemma StripCrBehind(prefix: Bytes, body: Bytes)
    requires prefix != [] && prefix[|prefix| - 1] != CR
    ensures StripCr(prefix + body) == prefix + StripCr(body)
  {
    var l := prefix + body;
    if body != [] {
      assert l[|l| - 1] == body[|body| - 1];
      assert l[..|l| - 1] == prefix + body[..|body| - 1];
    } else {
      assert l == prefix;
    }
  }

  // ----- Reading the pieces

  /** What a reader shows for a piece; a line feed of a repair is an empty line of stdout. */
  function ShownPiece(codec: Codec, p: Piece): Parsed {
    if p.Record? then Shown(codec, p.record) else Parsed(None, Stdout, "")
  }

  function ShownPieces(codec: Codec, pieces: seq<Piece>): seq<Parsed> {
    Map(p => ShownPiece(codec, p), pieces)
  }

  lemma PieceRoundTrip(codec: Codec, p: Piece)
    requires KeepsAscii(codec.decode) && (p.Record? ==> IsLine(p.record.content))
    ensures ParseLogLine(codec.parseTime, codec.decode(StripEnd(PieceLine(codec, p)))) == ShownPiece(codec, p)
  {
    if p.Record? {
      RecordRoundTrip(codec, p.record);
    } else {
      assert StripEnd([LF]) == [];
    }
  }

  /** The parsed lines of a file behind its first `skip` lines. */
  function ParsedFrom(codec: Codec, file: Bytes, skip: nat): seq<Parsed>
    requires skip <= |ReadLines(codec.decode, file)|
  {
    Map(line => ParseLogLine(codec.parseTime, line), ReadLines(codec.decode, file)[skip..])
  }

  function Decoded(codec: Codec, lines: seq<Bytes>): seq<string> {
    Map(l => codec.decode(StripEnd(l)), lines)
  }

  /** A file of whole pieces reads back as its old lines and then the pieces, one by one. */
  lemma FileRoundTrip(codec: Codec, base: Bytes, pieces: seq<Piece>)
    requires KeepsAscii(codec.decode) && !NeedsNewline(base) && PiecesAreLines(pieces)
    ensures var file, skip := base + Render(codec, pieces), |ReadLines(codec.decode, base)|;
            && |ReadLines(codec.decode, file)| == skip + |pieces|
            && ReadLines(codec.decode, file)[..skip] == ReadLines(codec.decode, base)
            && ParsedFrom(codec, file, skip) == ShownPieces(codec, pieces)
  {
    var before, added := ReadLines(codec.decode, base), Decoded(codec, PieceLines(codec, pieces));
    PiecesRead(codec, base, pieces);
    assert (before + added)[|before|..] == added && (before + added)[..|before|] == before;
    PiecesParse(codec, pieces);
  }

  lemma PiecesRead(codec: Codec, base: Bytes, pieces: seq<Piece>)
    requires !NeedsNewline(base) && PiecesAreLines(pieces)
    ensures ReadLines(codec.decode, base + Render(codec, pieces))
         == ReadLines(codec.decode, base) + Decoded(codec, PieceLines(codec, pieces))
  {
    RenderedLines(codec, pieces);
    LinesAppended(base, PieceLines(codec, pieces));
  }

  lemma PiecesParse(codec: Codec, pieces: seq<Piece>)
    requires KeepsAscii(codec.decode) && PiecesAreLines(pieces)
    ensures Map(line => ParseLogLine(codec.parseTime, line), Decoded(codec, PieceLines(codec, pieces)))
         == ShownPieces(codec, pieces)
  {
    var lines := Decoded(codec, PieceLines(codec, pieces));
    forall i | 0 <= i < |pieces| ensures ParseLogLine(codec.parseTime, lines[i]) == ShownPiece(codec, pieces[i]) {
      PieceRoundTrip(codec, pieces[i]);
    }
  }

  // ----- The two streams told apart

  function LevelOf(isStderr: bool): Level {
    if isStderr then Stderr else Stdout
  }

  function ContentAt(level: Level): Parsed -> Option<string> {
    (p: Parsed) => if p.level == level then Some(p.content) else None
  }

  /** The contents shown at one level. */
  function AtLevel(level: Level, ps: seq<Parsed>): seq<string> {
    Collect(ContentAt(level), ps)
  }

  function ContentsShown(codec: Codec, rs: seq<LogRecord>): seq<string> {
    Map((r: LogRecord) => codec.decode(StripEnd(r.content)), rs)
  }

  /** `more` is `lines` with one empty line added somewhere. */
  ghost predicate OneBlankMore(lines: seq<string>, more: seq<string>) {
    exists p :: 0 <= p <= |lines| && more == lines[..p] + [""] + lines[p..]
  }

  lemma ShownUnfold(codec: Codec, pieces: seq<Piece>, isStderr: bool)
    requires pieces != []
    ensures AtLevel(LevelOf(isStderr), ShownPieces(codec, pieces))
         == AsSeq(ContentAt(LevelOf(isStderr))(ShownPiece(codec, pieces[0])))
            + AtLevel(LevelOf(isStderr), ShownPieces(codec, pieces[1..]))
    ensures ContentsShown(codec, Selected(isStderr, pieces))
         == ContentsShown(codec, AsSeq(RecordFrom(isStderr)(pieces[0])))
            + ContentsShown(codec, Selected(isStderr, pieces[1..]))
    ensures NewlineCount(pieces) == (if pieces[0].Newline? then 1 else 0) + NewlineCount(pieces[1..])
  {
    assert ShownPieces(codec, pieces)[1..] == ShownPieces(codec, pieces[1..]);
  }

  /** Stderr shows exactly its records. */
  lemma {:induction false} StderrShown(codec: Codec, pieces: seq<Piece>)
    ensures AtLevel(Stderr, ShownPieces(codec, pieces)) == ContentsShown(codec, Selected(true, pieces))
    decreases |pieces|
  {
    if pieces != [] {
      StderrShown(codec, pieces[1..]);
      ShownUnfold(codec, pieces, true);
    }
  }

  lemma FirstShown(codec: Codec, p: Piece)
    ensures AsSeq(ContentAt(Stdout)(ShownPiece(codec, p)))
         == if p.Newline? then [""] else ContentsShown(codec, AsSeq(RecordFrom(false)(p)))
    ensures p.Newline? ==> ContentsShown(codec, AsSeq(RecordFrom(false)(p))) == []
  {
  }

  /** Stdout shows one line for each of its records and one for each repair. */
  lemma {:induction false} StdoutCount(codec: Codec, pieces: seq<Piece>)
    ensures |AtLevel(Stdout, ShownPieces(codec, pieces))| == |Selected(false, pieces)| + NewlineCount(pieces)
    decreases |pieces|
  {
    if pieces != [] {
      StdoutCount(codec, pieces[1..]);
      ShownUnfold(codec, pieces, false);
      FirstShown(codec, pieces[0]);
      assert |ContentsShown(codec, Selected(false, pieces))| == |Selected(false, pieces)|;
    }
  }

  lemma {:induction false} StdoutShown(codec: Codec, pieces: seq<Piece>)
    requires NewlineCount(pieces) == 0
    ensures AtLevel(Stdout, ShownPieces(codec, pieces)) == ContentsShown(codec, Selected(false, pieces))
    decreases |pieces|
  {
    if pieces != [] {
      ShownUnfold(codec, pieces, false);
      FirstShown(codec, pieces[0]);
      StdoutShown(codec, pieces[1..]);
    }
  }

  lemma BlankBehind(first: seq<string>, lines: seq<string>, more: seq<string>)
    requires OneBlankMore(lines, more)
    ensures OneBlankMore(first + lines, first + more)
  {
    var p :| 0 <= p <= |lines| && more == lines[..p] + [""] + lines[p..];
    var all, at := first + lines, |first| + p;
    assert all[..at] == first + lines[..p] && all[at..] == lines[p..];
    assert first + more == all[..at] + [""] + all[at..];
  }

  lemma BlankFirst(lines: seq<string>)
    ensures OneBlankMore([] + lines, [""] + lines)
  {
    assert [] + lines == lines && [""] + lines == lines[..0] + [""] + lines[0..];
  }

  /** With one repair among the pieces, stdout shows one empty line more than its records. */
  lemma {:induction false} StdoutBlank(codec: Codec, pieces: seq<Piece>)
    requires NewlineCount(pieces) == 1
    ensures OneBlankMore(ContentsShown(codec, Selected(false, pieces)), AtLevel(Stdout, ShownPieces(codec, pieces)))
    decreases |pieces|
  {
    ShownUnfold(codec, pieces, false);
    FirstShown(codec, pieces[0]);
    var first := ContentsShown(codec, AsSeq(RecordFrom(false)(pieces[0])));
    var lines := ContentsShown(codec, Selected(false, pieces[1..]));
    var shown := AtLevel(Stdout, ShownPieces(codec, pieces[1..]));
    if pieces[0].Newline? {
      StdoutShown(codec, pieces[1..]);
      BlankFirst(lines);
    } else {
      StdoutBlank(codec, pieces[1..]);
      BlankBehind(first, lines, shown);
    }
  }

  // ----- End to end

  lemma CarriedAreLines(records: seq<LogRecord>, chunks: seq<Bytes>, isStderr: bool)
    requires Carries(records, chunks, isStderr)
    ensures ContentsAreLines(records) && AllFrom(isStderr, records)
  {
    EntriesAreLines([], chunks);
  }

  lemma CarriedShown(codec: Codec, records: seq<LogRecord>, chunks: seq<Bytes>, isStderr: bool)
    requires Carries(records, chunks, isStderr)
    ensures ContentsShown(codec, records) == Decoded(codec, Contents(Capture(chunks)))
  {
  }

  lemma {:induction false} StreamsCover(pieces: seq<Piece>)
    requires ContentsAreLines(Selected(false, pieces)) && ContentsAreLines(Selected(true, pieces))
    ensures PiecesAreLines(pieces)
    decreases |pieces|
  {
    if pieces != [] {
      StreamsCoverTail(pieces, false);
      StreamsCoverTail(pieces, true);
      StreamsCover(pieces[1..]);
      forall i | 0 <= i < |pieces| && pieces[i].Record? ensures IsLine(pieces[i].record.content) {
        if i > 0 {
          assert pieces[i] == pieces[1..][i - 1];
        } else {
          assert Selected(pieces[0].record.isStderr, pieces)[0] == pieces[0].record;
        }
      }
    }
  }

  lemma StreamsCoverTail(pieces: seq<Piece>, isStderr: bool)
    requires pieces != [] && ContentsAreLines(Selected(isStderr, pieces))
    ensures ContentsAreLines(Selected(isStderr, pieces[1..]))
  {
    var all, tail := Selected(isStderr, pieces), Selected(isStderr, pieces[1..]);
    forall i | 0 <= i < |tail| ensures IsLine(tail[i].content) {
      assert tail[i] == all[i + (|all| - |tail|)];
    }
  }

  /** The repair of a file is invisible to its readers. */
  lemma RepairKeepsLines(decode: Bytes -> string, file: Bytes)
    ensures !NeedsNewline(Repaired(file)) && ReadLines(decode, Repaired(file)) == ReadLines(decode, file)
  {
    if NeedsNewline(file) {
      var rest := Remainder(file);
      RemainderLfFree(file);
      UnterminatedRest(file);
      SplitAppend(file, [LF]);
      assert (rest + [LF])[..|rest|] == rest;
      SplitFirst(rest + [LF], []);
      assert (rest + [LF]) + [] == rest + [LF];
      assert StripEnd(rest + [LF]) == StripEnd(rest);
    }
  }

  lemma {:induction false} UnterminatedRest(file: Bytes)
    requires NeedsNewline(file)
    ensures Remainder(file) != []
    decreases |file|
  {
    var p := FirstLf(file);
    if p < |file| {
      UnterminatedRest(file[p + 1..]);
    }
  }

  /**
   What a reader sees of both streams when the file was repaired `repairs`
   times: stderr exactly, and stdout exactly if and only if there was at most
   one repair. A second repair shows as one empty line.
   */
  ghost predicate ReadsBack(shown: seq<Parsed>, out: seq<string>, err: seq<string>, repairs: nat) {
    && AtLevel(Stderr, shown) == err
    && (AtLevel(Stdout, shown) == out <==> repairs <= 1)
    && (repairs == 2 ==> OneBlankMore(out, AtLevel(Stdout, shown)))
  }

  /** The pieces behind the repair that completes a partial line. */
  function BehindRepair(initial: Bytes, pieces: seq<Piece>): seq<Piece> {
    if NeedsNewline(initial) && pieces != [] then pieces[1..] else pieces
  }

  lemma RepairComesFirst(codec: Codec, initial: Bytes, s: State)
    requires LineSafe(initial, s) && s.pieces != []
    ensures var rest := BehindRepair(initial, s.pieces);
            && initial + Render(codec, s.pieces) == Repaired(initial) + Render(codec, rest)
            && Selected(false, rest) == Selected(false, s.pieces) && Selected(true, rest) == Selected(true, s.pieces)
            && NewlineCount(s.pieces) == NewlineCount(rest) + (if NeedsNewline(initial) then 1 else 0)
            && (!NeedsNewline(initial) ==> NewlineCount(rest) == 0)
  {
    if NeedsNewline(initial) {
      var rest := s.pieces[1..];
      assert PieceLines(codec, s.pieces)[1..] == PieceLines(codec, rest);
      ConcatAssoc(initial, [LF], Render(codec, rest));
    }
  }

  lemma PiecesReadBack(codec: Codec, pieces: seq<Piece>, repairs: nat)
    requires NewlineCount(pieces) <= 1 && (repairs <= 1 <==> NewlineCount(pieces) == 0)
    ensures ReadsBack(ShownPieces(codec, pieces), ContentsShown(codec, Selected(false, pieces)),
                      ContentsShown(codec, Selected(true, pieces)), repairs)
  {
    StderrShown(codec, pieces);
    StdoutCount(codec, pieces);
    if NewlineCount(pieces) == 1 {
      StdoutBlank(codec, pieces);
    } else {
      StdoutShown(codec, pieces);
    }
  }

  /** The file of a run, read behind its old lines. */
  lemma RunReadsBack(codec: Codec, initial: Bytes, s: State)
    requires KeepsAscii(codec.decode) && LineSafe(initial, s) && s.file == initial + Render(codec, s.pieces)
    requires ContentsAreLines(Selected(false, s.pieces)) && ContentsAreLines(Selected(true, s.pieces))
    ensures var skip := |ReadLines(codec.decode, initial)|;
            && |ReadLines(codec.decode, s.file)| >= skip
            && ReadLines(codec.decode, s.file)[..skip] == ReadLines(codec.decode, initial)
            && ReadsBack(ParsedFrom(codec, s.file, skip), ContentsShown(codec, Selected(false, s.pieces)),
                         ContentsShown(codec, Selected(true, s.pieces)), NewlineCount(s.pieces))
  {
    if s.pieces != [] {
      var rest := BehindRepair(initial, s.pieces);
      RepairComesFirst(codec, initial, s);
      StreamsCover(rest);
      RepairKeepsLines(codec.decode, initial);
      FileRoundTrip(codec, Repaired(initial), rest);
      PiecesReadBack(codec, rest, NewlineCount(s.pieces));
    } else {
      assert s.file == initial;
      var all := ReadLines(codec.decode, initial);
      assert all[..|all|] == all && all[|all|..] == [];
      PiecesReadBack(codec, [], 0);
      assert ParsedFrom(codec, s.file, |all|) == ShownPieces(codec, []);
    }
  }

  /**
   Both streams of a process, captured in any chunks, written through their
   own queues and batches in any interleaving, and read back: the file's old
   lines are untouched, and the new lines of each level are exactly the
   entries captured from that level's stream, in order, but for the one empty
   line that two racing repairs of the file leave in stdout.
   */
  lemma StreamsRoundTrip(
    codec: Codec, initial: Bytes, chunksOut: seq<Bytes>, chunksErr: seq<Bytes>,
    out: seq<LogRecord>, err: seq<LogRecord>, trace: seq<State>)
    requires KeepsAscii(codec.decode)
    requires Carries(out, chunksOut, false) && Carries(err, chunksErr, true)
    requires IsRun(codec, trace) && trace[0] == Init(initial, out, err) && Finished(trace[|trace| - 1])
    ensures var s, skip := trace[|trace| - 1], |ReadLines(codec.decode, initial)|;
            && |ReadLines(codec.decode, s.file)| >= skip
            && ReadLines(codec.decode, s.file)[..skip] == ReadLines(codec.decode, initial)
            && NewlineCount(s.pieces) <= (if NeedsNewline(initial) then 2 else 0)
            && ReadsBack(ParsedFrom(codec, s.file, skip), Decoded(codec, Contents(Capture(chunksOut))),
                         Decoded(codec, Contents(Capture(chunksErr))), NewlineCount(s.pieces))
  {
    var s := trace[|trace| - 1];
    CarriedAreLines(out, chunksOut, false);
    CarriedAreLines(err, chunksErr, true);
    FinishedStreams(codec, initial, out, err, trace);
    RunKeepsLineSafe(codec, initial, out, err, trace, |trace| - 1);
    AtMostTwoRepairs(codec, initial, out, err, trace, |trace| - 1);
    RunReadsBack(codec, initial, s);
    CarriedShown(codec, out, chunksOut, false);
    CarriedShown(codec, err, chunksErr, true);
  }

  /** A run of both writers from this file to the end. */
  ghost predicate IsFullRun(
    codec: Codec, initial: Bytes, out: seq<LogRecord>, err: seq<LogRecord>, trace: seq<State>)
  {
    IsRun(codec, trace) && trace[0] == Init(initial, out, err) && Finished(trace[|trace| - 1])
  }

  /** The new lines of stdout as a reader of the final file sees them. */
  function StdoutSeen(codec: Codec, initial: Bytes, file: Bytes): seq<string> {
    var all, skip := ReadLines(codec.decode, file), |ReadLines(codec.decode, initial)|;
    if skip <= |all| then AtLevel(Stdout, ParsedFrom(codec, file, skip)) else []
  }

  /** However the writers interleave, stdout reads back as what was captured from it. */
  ghost predicate StdoutAlwaysReadsBack(
    codec: Codec, initial: Bytes, chunksOut: seq<Bytes>, out: seq<LogRecord>, err: seq<LogRecord>)
  {
    forall trace: seq<State> :: IsFullRun(codec, initial, out, err, trace) ==>
      StdoutSeen(codec, initial, trace[|trace| - 1].file) == Decoded(codec, Contents(Capture(chunksOut)))
  }

  /** Some run repairs the unterminated file twice and finishes. */
  lemma RacingRunFinishes(codec: Codec, initial: Bytes, out: seq<LogRecord>, err: seq<LogRecord>)
    returns (trace: seq<State>)
    requires NeedsNewline(initial)
    ensures IsFullRun(codec, initial, out, err, trace) && NewlineCount(trace[|trace| - 1].pieces) == 2
  {
    RacingRepairs(codec, initial, out, err);
    trace := RunCanFinish(codec, RacingTrace(initial, out, err));
    AtMostTwoRepairs(codec, initial, out, err, trace, |trace| - 1);
  }

  /** A reader is sure to see stdout exactly if and only if the file did not end in mid-line when it was opened. */
  lemma StdoutExactIffTerminated(
    codec: Codec, initial: Bytes, chunksOut: seq<Bytes>, chunksErr: seq<Bytes>,
    out: seq<LogRecord>, err: seq<LogRecord>)
    requires KeepsAscii(codec.decode)
    requires Carries(out, chunksOut, false) && Carries(err, chunksErr, true)
    ensures StdoutAlwaysReadsBack(codec, initial, chunksOut, out, err) <==> !NeedsNewline(initial)
  {
    if NeedsNewline(initial) {
      var trace := RacingRunFinishes(codec, initial, out, err);
      StreamsRoundTrip(codec, initial, chunksOut, chunksErr, out, err, trace);
      assert IsFullRun(codec, initial, out, err, trace);
    } else {
      forall trace: seq<State> | IsFullRun(codec, initial, out, err, trace)
        ensures StdoutSeen(codec, initial, trace[|trace| - 1].file) == Decoded(codec, Contents(Capture(chunksOut)))
      {
        StreamsRoundTrip(codec, initial, chunksOut, chunksErr, out, err, trace);
      }
    }
  }

  /** Where no forced flush split a line, what is read back is the output itself, line by line. */
  lemma OutputRoundTrip(
    codec: Codec, initial: Bytes, chunksOut: seq<Bytes>, chunksErr: seq<Bytes>,
    out: seq<LogRecord>, err: seq<LogRecord>, trace: seq<State>)
    requires KeepsAscii(codec.decode)
    requires Carries(out, chunksOut, false) && Carries(err, chunksErr, true)
    requires IsRun(codec, trace) && trace[0] == Init(initial, out, err) && Finished(trace[|trace| - 1])
    requires SplitCount([], chunksOut) == 0 && SplitCount([], chunksErr) == 0
    ensures var s, skip := trace[|trace| - 1], |ReadLines(codec.decode, initial)|;
            && |ReadLines(codec.decode, s.file)| >= skip
            && ReadsBack(ParsedFrom(codec, s.file, skip), Decoded(codec, AllLines(Flatten(chunksOut))),
                         Decoded(codec, AllLines(Flatten(chunksErr))), NewlineCount(s.pieces))
  {
    StreamsRoundTrip(codec, initial, chunksOut, chunksErr, out, err, trace);
    CaptureExact(chunksOut);
    CaptureExact(chunksErr);
  }

  /** A tail shows the parsed lines under consecutive numbers, counted from 1 at the top of the file. */
  lemma TailShowsParsed(codec: Codec, file: Bytes, start: nat, name: Option<string>, j: nat)
    requires start <= |ReadLines(codec.decode, file)| && j < |ReadLines(codec.decode, file)| - start
    ensures var entries := EntriesFrom(ViewOf(codec), ReadLines(codec.decode, file), start, name);
            var parsed := ParsedFrom(codec, file, start)[j];
            var number := (start + j + 1) % 0x1_0000_0000;
            entries[j] == LogEntry(number, parsed.content, parsed.timestamp, parsed.level, name)
  {
  }

  function AsParsed(entries: seq<LogEntry>): seq<Parsed> {
    Map((e: LogEntry) => Parsed(e.timestamp, e.level, e.content), entries)
  }

  /**
   From the process to the reader: a tail that starts behind the file's old
   lines shows, at each level, exactly the lines of that stream's output (and
   in stdout the empty line of a second repair), numbered on from the old lines.
   */
  lemma TailRecoversOutput(
    codec: Codec, initial: Bytes, chunksOut: seq<Bytes>, chunksErr: seq<Bytes>,
    out: seq<LogRecord>, err: seq<LogRecord>, trace: seq<State>, name: string)
    returns (entries: seq<LogEntry>)
    requires KeepsAscii(codec.decode)
    requires Carries(out, chunksOut, false) && Carries(err, chunksErr, true)
    requires IsRun(codec, trace) && trace[0] == Init(initial, out, err) && Finished(trace[|trace| - 1])
    requires SplitCount([], chunksOut) == 0 && SplitCount([], chunksErr) == 0
    ensures var s, skip := trace[|trace| - 1], |ReadLines(codec.decode, initial)|;
            && skip <= |ReadLines(codec.decode, s.file)|
            && entries == EntriesFrom(ViewOf(codec), ReadLines(codec.decode, s.file), skip, Some(name))
            && ShowsOutput(codec, s.file, entries, skip, Decoded(codec, AllLines(Flatten(chunksOut))),
                           Decoded(codec, AllLines(Flatten(chunksErr))), NewlineCount(s.pieces))
  {
    var s, skip := trace[|trace| - 1], |ReadLines(codec.decode, initial)|;
    OutputRoundTrip(codec, initial, chunksOut, chunksErr, out, err, trace);
    entries := TailReadsBack(
      codec, s.file, skip, Some(name),
      Decoded(codec, AllLines(Flatten(chunksOut))), Decoded(codec, AllLines(Flatten(chunksErr))),
      NewlineCount(s.pieces));
  }

  /**
   The entries of a tail behind `start` lines: both streams as they read back,
   each entry a line of the file under the number of lines up to it.
   */
  ghost predicate ShowsOutput(
    codec: Codec, file: Bytes, entries: seq<LogEntry>, start: nat, out: seq<string>, err: seq<string>, repairs: nat)
  {
    && ReadsBack(AsParsed(entries), out, err, repairs)
    && (forall j :: 0 <= j < |entries| ==> entries[j].lineNumber == (start + j + 1) % 0x1_0000_0000)
    && (forall j :: 0 <= j < |entries| ==> ShowsLine(ViewOf(codec), file, start + j, entries[j]))
  }

  /** What parsed lines read back as, the tail's entries do. */
  lemma TailReadsBack(
    codec: Codec, file: Bytes, start: nat, name: Option<string>, out: seq<string>, err: seq<string>, repairs: nat)
    returns (entries: seq<LogEntry>)
    requires start <= |ReadLines(codec.decode, file)|
    requires ReadsBack(ParsedFrom(codec, file, start), out, err, repairs)
    ensures entries == EntriesFrom(ViewOf(codec), ReadLines(codec.decode, file), start, name)
    ensures ShowsOutput(codec, file, entries, start, out, err, repairs)
  {
    entries := EntriesFrom(ViewOf(codec), ReadLines(codec.decode, file), start, name);
    EntriesParse(codec, file, start, name);
    EntriesShow(ViewOf(codec), file, start, name);
  }

  lemma EntriesParse(codec: Codec, file: Bytes, start: nat, name: Option<string>)
    requires start <= |ReadLines(codec.decode, file)|
    ensures var entries := EntriesFrom(ViewOf(codec), ReadLines(codec.decode, file), start, name);
            && AsParsed(entries) == ParsedFrom(codec, file, start)
            && forall j :: 0 <= j < |entries| ==> entries[j].lineNumber == (start + j + 1) % 0x1_0000_0000
  {
    var entries := EntriesFrom(ViewOf(codec), ReadLines(codec.decode, file), start, name);
    forall j | 0 <= j < |entries| ensures AsParsed(entries)[j] == ParsedFrom(codec, file, start)[j] {
      TailShowsParsed(codec, file, start, name, j);
    }
  }
}
