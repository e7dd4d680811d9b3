/**
 The wait-for-log handshake: the stdout and the stderr reader test their lines
 against one pattern and share a flag, a matched line, a timeout mark and a
 one-shot sender; the starter of the process waits on the other end. Each
 lock is one atomic step, and every interleaving is allowed.
 */
module WaitForLog {
  import opened Sequences
  import opened LineSplitting

  /** Where a reader is between two locks. */
  datatype Pc =
    | Idle
    | SetFlag(line: Bytes)        // the line matched, the flag is not yet set
    | StoreLine(line: Bytes)
    | Notify                      // about to take the sender
    | ReadTimedOut                // arming the timer: read "not matched", about to read "not timed out"
    | Armed                       // waiting with the timer enabled
    | TakeOnTimeout               // timeout marked, about to take the sender
    | Ended

  datatype Reader = Reader(pc: Pc, seen: seq<Bytes>, todo: seq<Bytes>)

  datatype Waiter = Waiting | GotSignal | GotClosed | GaveUp

  datatype State = State(
    matched: bool,
    matchedLine: Option<Bytes>,
    timedOut: bool,
    sender: bool,      // still there to be taken
    sent: nat,         // ready signals delivered
    out: Reader,
    err: Reader,
    waiter: Waiter)

  datatype Action = Test | Flag | Store | Signal | Arm | Enable | Chunk | Fire | Drop | End

  ghost function Init(out: seq<Bytes>, err: seq<Bytes>): State {
    State(false, None, false, true, 0, Reader(Idle, [], out), Reader(Idle, [], err), Waiting)
  }

  function ReaderOf(s: State, isStderr: bool): Reader {
    if isStderr then s.err else s.out
  }

  function With(s: State, isStderr: bool, r: Reader): State {
    if isStderr then s.(err := r) else s.(out := r)
  }

  function At(s: State, isStderr: bool, pc: Pc): State {
    With(s, isStderr, ReaderOf(s, isStderr).(pc := pc))
  }

  /** One lock of one reader. */
  ghost predicate ReaderStep(isMatch: Bytes -> bool, s: State, s': State, isStderr: bool, a: Action) {
    var r := ReaderOf(s, isStderr);
    match a
    case Test =>    // reads the flag; an earlier match makes the line go untested
      && r.pc == Idle && r.todo != []
      && var line := r.todo[0];
         s' == With(s, isStderr, Reader(if !s.matched && isMatch(line) then SetFlag(line) else Idle,
                                        r.seen + [line], r.todo[1..]))
    case Flag =>
      r.pc.SetFlag? && s' == At(s.(matched := true), isStderr, StoreLine(r.pc.line))
    case Store =>
      r.pc.StoreLine? && s' == At(s.(matchedLine := Some(r.pc.line)), isStderr, Notify)
    case Signal =>
      && r.pc == Notify
      && s' == At(s.(sender := false, sent := if s.sender && s.waiter == Waiting then s.sent + 1 else s.sent),
                  isStderr, Idle)
    case Arm =>
      r.pc == Idle && !s.matched && s' == At(s, isStderr, ReadTimedOut)
    case Enable =>
      r.pc == ReadTimedOut && s' == At(s, isStderr, if s.timedOut then Idle else Armed)
    case Chunk =>   // output arrives before the timer fires
      r.pc == Armed && s' == At(s, isStderr, Idle)
    case Fire =>
      r.pc == Armed && s' == At(s.(timedOut := true), isStderr, TakeOnTimeout)
    case Drop =>
      r.pc == TakeOnTimeout && s' == At(s.(sender := false), isStderr, Idle)
    case End =>     // end of the stream: all lines are tested, the sender is dropped
      r.pc == Idle && r.todo == [] && s' == At(s.(sender := false), isStderr, Ended)
  }

  /** The waiter sees the signal, or the dropped sender, or runs out of patience. */
  ghost predicate WaiterStep(s: State, s': State) {
    && s.waiter == Waiting
    && (|| (s.sent > 0 && s' == s.(waiter := GotSignal))
        || (s.sent == 0 && !s.sender && s' == s.(waiter := GotClosed))
        || s' == s.(waiter := GaveUp))
  }

  ghost predicate Next(isMatch: Bytes -> bool, s: State, s': State) {
    WaiterStep(s, s') || exists isStderr, a :: ReaderStep(isMatch, s, s', isStderr, a)
  }

  ghost predicate IsRun(isMatch: Bytes -> bool, trace: seq<State>) {
    && trace != []
    && forall i, j :: 0 <= i && j == i + 1 < |trace| ==> Next(isMatch, trace[i], trace[j])
  }

  ghost predicate IsRunFrom(isMatch: Bytes -> bool, out: seq<Bytes>, err: seq<Bytes>, trace: seq<State>) {
    IsRun(isMatch, trace) && trace[0] == Init(out, err)
  }

  // ----- The invariant

  predicate NoMatch(isMatch: Bytes -> bool, lines: seq<Bytes>) {
    forall l :: l in lines ==> !isMatch(l)
  }

  ghost predicate ReaderInv(isMatch: Bytes -> bool, s: State, r: Reader, all: seq<Bytes>) {
    && r.seen + r.todo == all
    && (r.pc.SetFlag? ==> isMatch(r.pc.line) && r.pc.line in r.seen)
    && (r.pc.StoreLine? ==> s.matched && isMatch(r.pc.line) && r.pc.line in r.seen)
    && (r.pc == Notify ==> s.matchedLine.Some?)
    && (r.pc == TakeOnTimeout ==> s.timedOut)
    && (r.pc == Ended ==> r.todo == [] && !s.sender)
    // a reader lets a matching line go by only when a match is already recorded
    && (!s.matched && !r.pc.SetFlag? ==> NoMatch(isMatch, r.seen))
  }

  ghost predicate Inv(isMatch: Bytes -> bool, out: seq<Bytes>, err: seq<Bytes>, s: State) {
    && ReaderInv(isMatch, s, s.out, out)
    && ReaderInv(isMatch, s, s.err, err)
    && (s.matchedLine.Some? ==>
          && s.matched && isMatch(s.matchedLine.value)
          && (s.matchedLine.value in s.out.seen || s.matchedLine.value in s.err.seen))
    && (s.matched ==> exists l :: (l in s.out.seen || l in s.err.seen) && isMatch(l))
    && s.sent <= 1
    && (s.sent == 1 ==> !s.sender && s.matchedLine.Some?)
    && (s.waiter == GotSignal ==> s.sent == 1)
    && (s.waiter == GotClosed ==> s.sent == 0 && !s.sender)
    && (!s.sender && s.sent == 0 ==> s.timedOut || s.out.pc == Ended || s.err.pc == Ended || s.waiter != Waiting)
    && (s.waiter == GotClosed ==> s.timedOut || s.out.pc == Ended || s.err.pc == Ended)
  }

  lemma TestKeepsInv(
    isMatch: Bytes -> bool, out: seq<Bytes>, err: seq<Bytes>, s: State, s': State, isStderr: bool)
    requires Inv(isMatch, out, err, s) && ReaderStep(isMatch, s, s', isStderr, Test)
    ensures Inv(isMatch, out, err, s')
  {
    var r := ReaderOf(s, isStderr);
    assert r.todo == [r.todo[0]] + r.todo[1..];
    ConcatAssoc(r.seen, [r.todo[0]], r.todo[1..]);
  }

  lemma FlagKeepsInv(
    isMatch: Bytes -> bool, out: seq<Bytes>, err: seq<Bytes>, s: State, s': State, isStderr: bool)
    requires Inv(isMatch, out, err, s) && ReaderStep(isMatch, s, s', isStderr, Flag)
    ensures Inv(isMatch, out, err, s')
  {
  }

  lemma StoreKeepsInv(
    isMatch: Bytes -> bool, out: seq<Bytes>, err: seq<Bytes>, s: State, s': State, isStderr: bool)
    requires Inv(isMatch, out, err, s) && ReaderStep(isMatch, s, s', isStderr, Store)
    ensures Inv(isMatch, out, err, s')
  {
  }

  lemma SignalKeepsInv(
    isMatch: Bytes -> bool, out: seq<Bytes>, err: seq<Bytes>, s: State, s': State, isStderr: bool)
    requires Inv(isMatch, out, err, s) && ReaderStep(isMatch, s, s', isStderr, Signal)
    ensures Inv(isMatch, out, err, s')
  {
  }

  lemma ArmKeepsInv(
    isMatch: Bytes -> bool, out: seq<Bytes>, err: seq<Bytes>, s: State, s': State, isStderr: bool)
    requires Inv(isMatch, out, err, s) && ReaderStep(isMatch, s, s', isStderr, Arm)
    ensures Inv(isMatch, out, err, s')
  {
  }

  lemma EnableKeepsInv(
    isMatch: Bytes -> bool, out: seq<Bytes>, err: seq<Bytes>, s: State, s': State, isStderr: bool)
    requires Inv(isMatch, out, err, s) && ReaderStep(isMatch, s, s', isStderr, Enable)
    ensures Inv(isMatch, out, err, s')
  {
  }

  lemma ChunkKeepsInv(
    isMatch: Bytes -> bool, out: seq<Bytes>, err: seq<Bytes>, s: State, s': State, isStderr: bool)
    requires Inv(isMatch, out, err, s) && ReaderStep(isMatch, s, s', isStderr, Chunk)
    ensures Inv(isMatch, out, err, s')
  {
  }

  lemma FireKeepsInv(
    isMatch: Bytes -> bool, out: seq<Bytes>, err: seq<Bytes>, s: State, s': State, isStderr: bool)
    requires Inv(isMatch, out, err, s) && ReaderStep(isMatch, s, s', isStderr, Fire)
    ensures Inv(isMatch, out, err, s')
  {
  }

  lemma DropKeepsInv(
    isMatch: Bytes -> bool, out: seq<Bytes>, err: seq<Bytes>, s: State, s': State, isStderr: bool)
    requires Inv(isMatch, out, err, s) && ReaderStep(isMatch, s, s', isStderr, Drop)
    ensures Inv(isMatch, out, err, s')
  {
  }

  lemma EndKeepsInv(
    isMatch: Bytes -> bool, out: seq<Bytes>, err: seq<Bytes>, s: State, s': State, isStderr: bool)
    requires Inv(isMatch, out, err, s) && ReaderStep(isMatch, s, s', isStderr, End)
    ensures Inv(isMatch, out, err, s')
  {
  }

  lemma ReaderStepKeepsInv(
    isMatch: Bytes -> bool, out: seq<Bytes>, err: seq<Bytes>, s: State, s': State, isStderr: bool, a: Action)
    requires Inv(isMatch, out, err, s) && ReaderStep(isMatch, s, s', isStderr, a)
    ensures Inv(isMatch, out, err, s')
  {
    match a {
      case Test => TestKeepsInv(isMatch, out, err, s, s', isStderr);
      case Flag => FlagKeepsInv(isMatch, out, err, s, s', isStderr);
      case Store => StoreKeepsInv(isMatch, out, err, s, s', isStderr);
      case Signal => SignalKeepsInv(isMatch, out, err, s, s', isStderr);
      case Arm => ArmKeepsInv(isMatch, out, err, s, s', isStderr);
      case Enable => EnableKeepsInv(isMatch, out, err, s, s', isStderr);
      case Chunk => ChunkKeepsInv(isMatch, out, err, s, s', isStderr);
      case Fire => FireKeepsInv(isMatch, out, err, s, s', isStderr);
      case Drop => DropKeepsInv(isMatch, out, err, s, s', isStderr);
      case End => EndKeepsInv(isMatch, out, err, s, s', isStderr);
    }
  }

  lemma NextKeepsInv(isMatch: Bytes -> bool, out: seq<Bytes>, err: seq<Bytes>, s: State, s': State)
    requires Inv(isMatch, out, err, s) && Next(isMatch, s, s')
    ensures Inv(isMatch, out, err, s')
  {
    if !WaiterStep(s, s') {
      var isStderr, a :| ReaderStep(isMatch, s, s', isStderr, a);
      ReaderStepKeepsInv(isMatch, out, err, s, s', isStderr, a);
    }
  }

  lemma {:induction false} RunKeepsInv(
    isMatch: Bytes -> bool, out: seq<Bytes>, err: seq<Bytes>, trace: seq<State>, n: nat)
    requires IsRunFrom(isMatch, out, err, trace) && n < |trace|
    ensures Inv(isMatch, out, err, trace[n])
  {
    if n == 0 {
      assert [] + out == out && [] + err == err;
    } else {
      RunKeepsInv(isMatch, out, err, trace, n - 1);
      assert Next(isMatch, trace[n - 1], trace[(n - 1) + 1]);
      NextKeepsInv(isMatch, out, err, trace[n - 1], trace[n]);
    }
  }

  // ----- What the waiter can rely on

  /** A received signal means a match: the flag is set and a matching output line is stored, now and ever after. */
  lemma SignalMeansMatch(isMatch: Bytes -> bool, out: seq<Bytes>, err: seq<Bytes>, trace: seq<State>, n: nat)
    requires IsRunFrom(isMatch, out, err, trace) && n < |trace|
    ensures trace[n].sent <= 1
    ensures trace[n].waiter == GotSignal ==>
              && trace[n].sent == 1 && trace[n].matched && trace[n].matchedLine.Some?
              && isMatch(trace[n].matchedLine.value) && trace[n].matchedLine.value in out + err
  {
    RunKeepsInv(isMatch, out, err, trace, n);
    var s := trace[n];
    assert forall l :: l in s.out.seen + s.out.todo ==> l in out + err;
    assert forall l :: l in s.err.seen + s.err.todo ==> l in out + err;
  }

  lemma ReaderSenderGone(isMatch: Bytes -> bool, s: State, s': State, isStderr: bool, a: Action)
    requires ReaderStep(isMatch, s, s', isStderr, a) && !s.sender
    ensures !s'.sender && s'.sent == s.sent
  {
    match a {
      case Test =>
      case Flag =>
      case Store =>
      case Signal =>
      case Arm =>
      case Enable =>
      case Chunk =>
      case Fire =>
      case Drop =>
      case End =>
    }
  }

  lemma SenderGoneStep(isMatch: Bytes -> bool, s: State, s': State)
    requires Next(isMatch, s, s') && !s.sender
    ensures !s'.sender && s'.sent == s.sent
  {
    if !WaiterStep(s, s') {
      var isStderr, a :| ReaderStep(isMatch, s, s', isStderr, a);
      ReaderSenderGone(isMatch, s, s', isStderr, a);
    }
  }

  predicate SenderStaysGone(trace: seq<State>) {
    forall i, j :: 0 <= i && j == i + 1 < |trace| && !trace[i].sender ==>
      !trace[j].sender && trace[j].sent == trace[i].sent
  }

  lemma RunSenderStaysGone(isMatch: Bytes -> bool, trace: seq<State>)
    requires IsRun(isMatch, trace)
    ensures SenderStaysGone(trace)
  {
    forall i, j | 0 <= i && j == i + 1 < |trace| && !trace[i].sender
      ensures !trace[j].sender && trace[j].sent == trace[i].sent
    {
      SenderGoneStep(isMatch, trace[i], trace[j]);
    }
  }

  lemma {:induction false} GoneFrom(trace: seq<State>, i: nat, j: nat)
    requires SenderStaysGone(trace) && i <= j < |trace| && !trace[i].sender
    ensures !trace[j].sender && trace[j].sent == trace[i].sent
    decreases j
  {
    if i < j {
      GoneFrom(trace, i, j - 1);
    }
  }

  /** Once a timeout or an end of stream has taken the sender, no signal is ever sent. */
  lemma SenderGoneForGood(isMatch: Bytes -> bool, trace: seq<State>, i: nat, j: nat)
    requires IsRun(isMatch, trace) && i <= j < |trace| && !trace[i].sender
    ensures !trace[j].sender && trace[j].sent == trace[i].sent
  {
    RunSenderStaysGone(isMatch, trace);
    GoneFrom(trace, i, j);
  }

  /**
   Once both streams have ended, the flag tells exactly whether any line
   matched, timeouts or not, and the waiter is not left hanging.
   */
  lemma EndedStreamsDecide(isMatch: Bytes -> bool, out: seq<Bytes>, err: seq<Bytes>, trace: seq<State>, n: nat)
    requires IsRunFrom(isMatch, out, err, trace) && n < |trace|
    requires trace[n].out.pc == Ended && trace[n].err.pc == Ended
    ensures trace[n].matched <==> !NoMatch(isMatch, out) || !NoMatch(isMatch, err)
    ensures !trace[n].sender
    ensures trace[n].waiter == Waiting ==> exists s' :: WaiterStep(trace[n], s') && s'.waiter != GaveUp
  {
    RunKeepsInv(isMatch, out, err, trace, n);
    var s := trace[n];
    assert s.out.seen + [] == s.out.seen && s.err.seen + [] == s.err.seen;
    if s.waiter == Waiting {
      var s' := s.(waiter := if s.sent > 0 then GotSignal else GotClosed);
      assert WaiterStep(s, s');
    }
  }

  // ----- How the readers come to an end

  /** The match is recorded, and this reader has none of its own on the way. */
  predicate StoresNoMore(s: State, isStderr: bool) {
    var pc := ReaderOf(s, isStderr).pc;
    s.matched && !pc.SetFlag? && !pc.StoreLine?
  }

  /** This reader has no timer enabled, and will find that it needs none. */
  predicate FiresNoMore(s: State, isStderr: bool) {
    var pc := ReaderOf(s, isStderr).pc;
    !pc.Armed? && (s.timedOut || (s.matched && !pc.ReadTimedOut?))
  }

  lemma ReaderStepQuiets(
    isMatch: Bytes -> bool, s: State, s': State, isStderr: bool, a: Action, other: bool)
    requires ReaderStep(isMatch, s, s', isStderr, a)
    ensures StoresNoMore(s, other) ==>
              StoresNoMore(s', other) && (other == isStderr ==> s'.matchedLine == s.matchedLine)
    ensures FiresNoMore(s, other) ==>
              FiresNoMore(s', other) && (other == isStderr ==> s'.timedOut == s.timedOut)
  {
    match a {
      case Test =>
      case Flag =>
      case Store =>
      case Signal =>
      case Arm =>
      case Enable =>
      case Chunk =>
      case Fire =>
      case Drop =>
      case End =>
    }
  }

  lemma NextQuiets(isMatch: Bytes -> bool, s: State, s': State, isStderr: bool)
    requires Next(isMatch, s, s')
    ensures StoresNoMore(s, isStderr) ==> StoresNoMore(s', isStderr)
    ensures FiresNoMore(s, isStderr) ==> FiresNoMore(s', isStderr)
    ensures StoresNoMore(s, false) && StoresNoMore(s, true) ==> s'.matchedLine == s.matchedLine
    ensures FiresNoMore(s, false) && FiresNoMore(s, true) ==> s'.timedOut == s.timedOut
  {
    if !WaiterStep(s, s') {
      var reader, a :| ReaderStep(isMatch, s, s', reader, a);
      ReaderStepQuiets(isMatch, s, s', reader, a, isStderr);
      ReaderStepQuiets(isMatch, s, s', reader, a, reader);
    }
  }

  lemma BothQuiet(isMatch: Bytes -> bool, s: State, s': State)
    requires Next(isMatch, s, s')
    ensures StoresNoMore(s, false) && StoresNoMore(s, true) ==>
              StoresNoMore(s', false) && StoresNoMore(s', true) && s'.matchedLine == s.matchedLine
    ensures FiresNoMore(s, false) && FiresNoMore(s, true) ==>
              FiresNoMore(s', false) && FiresNoMore(s', true) && s'.timedOut == s.timedOut
  {
    NextQuiets(isMatch, s, s', false);
    NextQuiets(isMatch, s, s', true);
  }

  /**
   Once a match is recorded and no reader is about to store one, the stored
   line is the answer for ever. Once a match is recorded or time is up, and no
   timer is enabled, none ever fires.
   */
  lemma DecidedForGood(isMatch: Bytes -> bool, trace: seq<State>, i: nat, j: nat)
    requires IsRun(isMatch, trace) && i <= j < |trace|
    ensures StoresNoMore(trace[i], false) && StoresNoMore(trace[i], true) ==>
              trace[j].matchedLine == trace[i].matchedLine
    ensures FiresNoMore(trace[i], false) && FiresNoMore(trace[i], true) ==> trace[j].timedOut == trace[i].timedOut
  {
    var line, time := trace[i].matchedLine, trace[i].timedOut;
    var stored := Map(
      (s: State) => StoresNoMore(s, false) && StoresNoMore(s, true) && s.matchedLine == line, trace);
    var quiet := Map((s: State) => FiresNoMore(s, false) && FiresNoMore(s, true) && s.timedOut == time, trace);
    forall k, l | 0 <= k && l == k + 1 < |trace|
      ensures (stored[k] ==> stored[l]) && (quiet[k] ==> quiet[l])
    {
      BothQuiet(isMatch, trace[k], trace[l]);
    }
    if stored[i] {
      KeptAlong(stored, i, j);
    }
    if quiet[i] {
      KeptAlong(quiet, i, j);
    }
  }

  /** A timer that fires leads to the sender being dropped by the reader's next step, whatever happens in between. */
  lemma TimeoutDropsSender(isMatch: Bytes -> bool, s: State, fired: State, between: State, isStderr: bool)
    returns (dropped: State)
    requires ReaderStep(isMatch, s, fired, isStderr, Fire)
    requires ReaderOf(between, isStderr) == ReaderOf(fired, isStderr)
    ensures fired.timedOut && ReaderStep(isMatch, between, dropped, isStderr, Drop) && !dropped.sender
    ensures forall a, s' :: ReaderStep(isMatch, between, s', isStderr, a) ==> a == Drop
  {
    dropped := At(between.(sender := false), isStderr, Idle);
  }

  /** As long as nothing has matched and time is not up, a reader that waits for output can time out. */
  lemma TimerCanFire(isMatch: Bytes -> bool, s: State, isStderr: bool) returns (a: State, b: State, c: State, d: State)
    requires ReaderOf(s, isStderr).pc == Idle && !s.matched && !s.timedOut
    ensures ReaderStep(isMatch, s, a, isStderr, Arm) && ReaderStep(isMatch, a, b, isStderr, Enable)
    ensures ReaderStep(isMatch, b, c, isStderr, Fire) && ReaderStep(isMatch, c, d, isStderr, Drop)
    ensures d == s.(timedOut := true, sender := false)
  {
    a := At(s, isStderr, ReadTimedOut);
    b := At(a, isStderr, Armed);
    c := At(b.(timedOut := true), isStderr, TakeOnTimeout);
    d := At(c.(sender := false), isStderr, Idle);
  }

  /** How far a reader is from its end, in steps. */
  function Distance(r: Reader): nat {
    4 * |r.todo| + (match r.pc
                    case Idle => 1
                    case SetFlag(_) => 4
                    case StoreLine(_) => 3
                    case Notify => 2
                    case ReadTimedOut => 3
                    case Armed => 2
                    case TakeOnTimeout => 2
                    case Ended => 0)
  }

  /** Whatever the others do, a reader that has not ended can take a step towards its end. */
  lemma ReaderCanGoOn(isMatch: Bytes -> bool, s: State, isStderr: bool) returns (s': State, a: Action)
    requires ReaderOf(s, isStderr).pc != Ended
    ensures ReaderStep(isMatch, s, s', isStderr, a)
    ensures Distance(ReaderOf(s', isStderr)) < Distance(ReaderOf(s, isStderr))
  {
    var r := ReaderOf(s, isStderr);
    match r.pc {
      case Idle =>
        if r.todo == [] {
          a, s' := End, At(s.(sender := false), isStderr, Ended);
        } else {
          var pc := if !s.matched && isMatch(r.todo[0]) then SetFlag(r.todo[0]) else Idle;
          a, s' := Test, With(s, isStderr, Reader(pc, r.seen + [r.todo[0]], r.todo[1..]));
        }
      case SetFlag(line) => a, s' := Flag, At(s.(matched := true), isStderr, StoreLine(line));
      case StoreLine(line) => a, s' := Store, At(s.(matchedLine := Some(line)), isStderr, Notify);
      case Notify =>
        var sent := if s.sender && s.waiter == Waiting then s.sent + 1 else s.sent;
        a, s' := Signal, At(s.(sender := false, sent := sent), isStderr, Idle);
      case ReadTimedOut => a, s' := Enable, At(s, isStderr, if s.timedOut then Idle else Armed);
      case Armed => a, s' := Chunk, At(s, isStderr, Idle);
      case TakeOnTimeout => a, s' := Drop, At(s.(sender := false), isStderr, Idle);
    }
  }

  // ----- What the waiter cannot rely on

  /** Without any timeout, the waiter finds the sender dropped and nothing matched yet. */
  ghost predicate MissedWithoutTimeout(s: State) {
    !s.timedOut && s.waiter == GotClosed && !s.matched
  }

  ghost predicate CanMiss(isMatch: Bytes -> bool, out: seq<Bytes>, err: seq<Bytes>) {
    exists trace: seq<State> ::
      IsRunFrom(isMatch, out, err, trace) && MissedWithoutTimeout(trace[|trace| - 1])
  }

  ghost function QuietState(out: seq<Bytes>, err: seq<Bytes>, isStderr: bool, k: nat): State
    requires k <= |if isStderr then err else out|
  {
    var all := if isStderr then err else out;
    With(Init(out, err), isStderr, Reader(Idle, all[..k], all[k..]))
  }

  /** One stream runs to its end without a match before the other says anything. */
  ghost function QuietTrace(out: seq<Bytes>, err: seq<Bytes>, isStderr: bool): seq<State> {
    var n := |if isStderr then err else out|;
    var ended := At(QuietState(out, err, isStderr, n).(sender := false), isStderr, Ended);
    seq(n + 1, k requires 0 <= k <= n => QuietState(out, err, isStderr, k)) + [ended, ended.(waiter := GotClosed)]
  }

  lemma QuietTraceRuns(isMatch: Bytes -> bool, out: seq<Bytes>, err: seq<Bytes>, isStderr: bool)
    requires NoMatch(isMatch, if isStderr then err else out)
    ensures CanMiss(isMatch, out, err)
  {
    var all := if isStderr then err else out;
    var n, t := |all|, QuietTrace(out, err, isStderr);
    assert all[..0] == [] && all[0..] == all;
    forall i | 0 <= i < |t| - 1 ensures Next(isMatch, t[i], t[i + 1]) {
      if i < n {
        assert all[..i + 1] == all[..i] + [all[i]] && all[i..][1..] == all[i + 1..];
        assert ReaderStep(isMatch, t[i], t[i + 1], isStderr, Test);
      } else if i == n {
        assert ReaderStep(isMatch, t[i], t[i + 1], isStderr, End);
      } else {
        assert WaiterStep(t[i], t[i + 1]);
      }
    }
    assert MissedWithoutTimeout(t[|t| - 1]);
  }

  /**
   The end of either stream ends the wait, even while the other stream is
   still open. So the waiter can miss a later match, and it can do so exactly
   when one of the streams carries no matching line.
   */
  lemma CanMissExact(isMatch: Bytes -> bool, out: seq<Bytes>, err: seq<Bytes>)
    ensures CanMiss(isMatch, out, err) <==> NoMatch(isMatch, out) || NoMatch(isMatch, err)
  {
    if NoMatch(isMatch, out) {
      QuietTraceRuns(isMatch, out, err, false);
    } else if NoMatch(isMatch, err) {
      QuietTraceRuns(isMatch, out, err, true);
    } else {
      forall trace: seq<State> | IsRunFrom(isMatch, out, err, trace) ensures !MissedWithoutTimeout(trace[|trace| - 1]) {
        var s := trace[|trace| - 1];
        RunKeepsInv(isMatch, out, err, trace, |trace| - 1);
        assert s.out.seen + [] == s.out.seen && s.err.seen + [] == s.err.seen;
      }
    }
  }
}
