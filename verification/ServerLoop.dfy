/**
 The server's event loop: handler tasks put their messages on one bounded
 queue, the loop moves messages from the queue to the transport, and a drain
 phase finishes the work after the input has ended. Which of the possible
 steps comes next is open.
 */
module ServerLoop {
  import opened Sequences
  import opened JsonRpc

  const OUTGOING_CHANNEL_CAPACITY := 1024

  datatype Phase = Main | Draining | Closed

  /** A task runs, has returned, or has been joined by the loop. */
  datatype Life = Running | Returned | Joined

  datatype Handler = Handler(remaining: seq<Message>, life: Life)

  /** A message on its way out, and the handler it comes from. */
  datatype Outgoing = Outgoing(handler: nat, message: Message)

  datatype State = State(
    phase: Phase,
    handlers: seq<Handler>,     // one for each message received so far
    queue: seq<Outgoing>,
    sent: seq<Outgoing>)

  datatype Action =
    | Receive
    | EndOfInput
    | Produce(h: nat)
    | Return(h: nat)
    | Join(h: nat)
    | Send
    | Close

  predicate AllJoined(s: State) {
    forall h :: 0 <= h < |s.handlers| ==> s.handlers[h].life == Joined
  }

  function SetHandler(s: State, h: nat, handler: Handler): State
    requires h < |s.handlers|
  {
    s.(handlers := s.handlers[h := handler])
  }

  /** `input` is everything the transport will deliver, each message with what its handler emits. */
  function Exec(input: seq<seq<Message>>, s: State, a: Action): Option<State> {
    match a
    case Receive =>
      if s.phase == Main && |s.handlers| < |input|
      then Some(s.(handlers := s.handlers + [Handler(input[|s.handlers|], Running)])) else None
    case EndOfInput =>
      if s.phase == Main && |s.handlers| == |input| then Some(s.(phase := Draining)) else None
    case Produce(h) =>
      if h < |s.handlers| && s.handlers[h].remaining != [] && |s.queue| < OUTGOING_CHANNEL_CAPACITY
      then
        var remaining := s.handlers[h].remaining;
        Some(SetHandler(s, h, s.handlers[h].(remaining := remaining[1..]))
          .(queue := s.queue + [Outgoing(h, remaining[0])]))
      else None
    case Return(h) =>
      if h < |s.handlers| && s.handlers[h] == Handler([], Running)
      then Some(SetHandler(s, h, Handler([], Returned))) else None
    case Join(h) =>
      if s.phase != Closed && h < |s.handlers| && s.handlers[h].life == Returned
      then Some(SetHandler(s, h, s.handlers[h].(life := Joined))) else None
    case Send =>
      if s.phase != Closed && s.queue != []
      then Some(s.(queue := s.queue[1..], sent := s.sent + [s.queue[0]])) else None
    case Close =>
      if s.phase == Draining && AllJoined(s) && s.queue == [] then Some(s.(phase := Closed)) else None
  }

  predicate Step(input: seq<seq<Message>>, s: State, s': State, a: Action) {
    Exec(input, s, a) == Some(s')
  }

  ghost predicate Next(input: seq<seq<Message>>, s: State, s': State) {
    exists a :: Step(input, s, s', a)
  }

  ghost predicate IsRun(input: seq<seq<Message>>, trace: seq<State>) {
    && trace != [] && trace[0] == State(Main, [], [], [])
    && forall i, j :: 0 <= i && j == i + 1 < |trace| ==> Next(input, trace[i], trace[j])
  }

  // ----- Safety

  function SentBy(h: nat): Outgoing -> Option<Message> {
    (o: Outgoing) => if o.handler == h then Some(o.message) else None
  }

  /** What handler `h` has in `q`, in order. */
  function Of(q: seq<Outgoing>, h: nat): seq<Message> {
    Collect(SentBy(h), q)
  }

  /** What has been sent, then what is queued, then what is still to come is all of a handler's output. */
  predicate Conserved(input: seq<seq<Message>>, s: State, h: nat)
    requires h < |s.handlers| <= |input|
  {
    Of(s.sent + s.queue, h) + s.handlers[h].remaining == input[h]
  }

  ghost predicate Inv(input: seq<seq<Message>>, s: State) {
    && |s.handlers| <= |input|
    && |s.queue| <= OUTGOING_CHANNEL_CAPACITY
    && (s.phase != Main ==> |s.handlers| == |input|)
    && (s.phase == Closed ==> AllJoined(s) && s.queue == [])
    && (forall h :: 0 <= h < |s.handlers| ==> s.handlers[h].life != Running ==> s.handlers[h].remaining == [])
    && (forall h :: 0 <= h < |s.handlers| ==> Conserved(input, s, h))
    && (forall h :: h >= |s.handlers| ==> Of(s.sent + s.queue, h) == [])
  }

  lemma ProduceKeepsInv(input: seq<seq<Message>>, s: State, s': State, h: nat)
    requires Inv(input, s) && Step(input, s, s', Produce(h))
    ensures Inv(input, s')
  {
    var out := s.sent + s.queue;
    var message := s.handlers[h].remaining[0];
    var x := [Outgoing(h, message)];
    assert s'.sent + s'.queue == out + x by {
      ConcatAssoc(s.sent, s.queue, x);
    }
    assert Conserved(input, s, h);
    forall k: nat ensures Of(out + x, k) == Of(out, k) + (if k == h then [message] else []) {
      CollectAppend(SentBy(k), out, x);
      CollectOne(SentBy(k), Outgoing(h, message));
    }
    forall k | 0 <= k < |s'.handlers| ensures Conserved(input, s', k) {
      assert Conserved(input, s, k);
      if k == h {
        ConcatAssoc(Of(out, h), [message], s'.handlers[h].remaining);
        assert [message] + s'.handlers[h].remaining == s.handlers[h].remaining;
      } else {
        assert Of(out, k) + [] == Of(out, k);
      }
    }
  }

  lemma ReceiveKeepsInv(input: seq<seq<Message>>, s: State, s': State)
    requires Inv(input, s) && Step(input, s, s', Receive)
    ensures Inv(input, s')
  {
    var h := |s.handlers|;
    assert [] + input[h] == input[h];
    forall k | 0 <= k < |s'.handlers| ensures Conserved(input, s', k) {
      if k < h {
        assert Conserved(input, s, k);
      }
    }
  }

  lemma SendKeepsInv(input: seq<seq<Message>>, s: State, s': State)
    requires Inv(input, s) && Step(input, s, s', Send)
    ensures Inv(input, s')
  {
    AtSeam(s.sent, s.queue);
    forall k | 0 <= k < |s'.handlers| ensures Conserved(input, s', k) {
      assert Conserved(input, s, k);
    }
  }

  lemma LifeKeepsInv(input: seq<seq<Message>>, s: State, s': State, a: Action)
    requires Inv(input, s) && Step(input, s, s', a) && (a.Return? || a.Join?)
    ensures Inv(input, s')
  {
    forall k | 0 <= k < |s'.handlers| ensures Conserved(input, s', k) {
      assert Conserved(input, s, k);
    }
  }

  lemma PhaseKeepsInv(input: seq<seq<Message>>, s: State, s': State, a: Action)
    requires Inv(input, s) && Step(input, s, s', a) && (a.EndOfInput? || a.Close?)
    ensures Inv(input, s')
  {
    forall k | 0 <= k < |s'.handlers| ensures Conserved(input, s', k) {
      assert Conserved(input, s, k);
    }
  }

  lemma StepKeepsInv(input: seq<seq<Message>>, s: State, s': State, a: Action)
    requires Inv(input, s) && Step(input, s, s', a)
    ensures Inv(input, s')
  {
    match a {
      case Receive => ReceiveKeepsInv(input, s, s');
      case EndOfInput => PhaseKeepsInv(input, s, s', a);
      case Produce(h) => ProduceKeepsInv(input, s, s', h);
      case Return(h) => LifeKeepsInv(input, s, s', a);
      case Join(h) => LifeKeepsInv(input, s, s', a);
      case Send => SendKeepsInv(input, s, s');
      case Close => PhaseKeepsInv(input, s, s', a);
    }
  }

  lemma NextKeepsInv(input: seq<seq<Message>>, s: State, s': State)
    requires Inv(input, s) && Next(input, s, s')
    ensures Inv(input, s')
  {
    var a :| Step(input, s, s', a);
    StepKeepsInv(input, s, s', a);
  }

  /** At every moment of every schedule the queue is bounded and no handler's output is lost, doubled or reordered. */
  lemma {:induction false} RunKeepsInv(input: seq<seq<Message>>, trace: seq<State>, i: nat)
    requires IsRun(input, trace) && i < |trace|
    ensures Inv(input, trace[i])
    decreases i
  {
    if i > 0 {
      RunKeepsInv(input, trace, i - 1);
      NextKeepsInv(input, trace[i - 1], trace[i]);
    }
  }

  /** When the transport is closed, every handler's output has been sent, exactly once and in order. */
  lemma ClosedMeansSent(input: seq<seq<Message>>, trace: seq<State>, i: nat, h: nat)
    requires IsRun(input, trace) && i < |trace| && trace[i].phase == Closed
    requires h < |input|
    ensures Of(trace[i].sent, h) == input[h]
  {
    RunKeepsInv(input, trace, i);
    SentInFull(input, trace[i], h);
  }

  lemma SentInFull(input: seq<seq<Message>>, s: State, h: nat)
    requires Inv(input, s) && s.phase == Closed && h < |input|
    ensures Of(s.sent, h) == input[h]
  {
    assert s.sent + s.queue == s.sent;
    assert Conserved(input, s, h);
    assert Of(s.sent, h) + [] == Of(s.sent, h);
  }

  // ----- Progress

  function HandlerWork(handler: Handler): nat {
    2 * |handler.remaining| + (match handler.life case Running => 2 case Returned => 1 case Joined => 0)
  }

  function WorkOf(handlers: seq<Handler>, n: nat): nat
    requires n <= |handlers|
  {
    if n == 0 then 0 else WorkOf(handlers, n - 1) + HandlerWork(handlers[n - 1])
  }

  /** The work of input that has not been received, from position `i` on. */
  function InputWork(input: seq<seq<Message>>, i: nat): nat
    requires i <= |input|
    decreases |input| - i
  {
    if i == |input| then 0 else 2 * |input[i]| + 3 + InputWork(input, i + 1)
  }

  function Work(input: seq<seq<Message>>, s: State): nat
    requires |s.handlers| <= |input|
  {
    InputWork(input, |s.handlers|) + WorkOf(s.handlers, |s.handlers|) + |s.queue|
    + (match s.phase case Main => 2 case Draining => 1 case Closed => 0)
  }

  lemma {:induction false} WorkUnchanged(a: seq<Handler>, b: seq<Handler>, n: nat)
    requires n <= |a| && n <= |b| && forall i :: 0 <= i < n ==> a[i] == b[i]
    ensures WorkOf(a, n) == WorkOf(b, n)
    decreases n
  {
    if n > 0 {
      WorkUnchanged(a, b, n - 1);
    }
  }

  lemma {:induction false} WorkUpdated(handlers: seq<Handler>, h: nat, handler: Handler, n: nat)
    requires h < n <= |handlers|
    ensures WorkOf(handlers[h := handler], n) == WorkOf(handlers, n) - HandlerWork(handlers[h]) + HandlerWork(handler)
    decreases n
  {
    if h == n - 1 {
      WorkUnchanged(handlers[h := handler], handlers, n - 1);
    } else {
      WorkUpdated(handlers, h, handler, n - 1);
    }
  }

  /** Every step, of the loop or of a handler, uses up work: no schedule goes on for ever. */
  lemma StepDecreases(input: seq<seq<Message>>, s: State, s': State, a: Action)
    requires Inv(input, s) && Step(input, s, s', a)
    ensures |s'.handlers| <= |input| && Work(input, s') < Work(input, s)
  {
    match a {
      case Receive =>
        WorkUnchanged(s'.handlers, s.handlers, |s.handlers|);
      case Produce(h) =>
        WorkUpdated(s.handlers, h, s'.handlers[h], |s.handlers|);
      case Return(h) =>
        WorkUpdated(s.handlers, h, s'.handlers[h], |s.handlers|);
      case Join(h) =>
        WorkUpdated(s.handlers, h, s'.handlers[h], |s.handlers|);
      case _ =>
    }
  }

  lemma {:induction false} RunBounded(input: seq<seq<Message>>, trace: seq<State>, i: nat)
    requires IsRun(input, trace) && i < |trace|
    ensures |trace[i].handlers| <= |input|
    ensures i + Work(input, trace[i]) <= InputWork(input, 0) + 2
    decreases i
  {
    RunKeepsInv(input, trace, i);
    if i > 0 {
      RunBounded(input, trace, i - 1);
      RunKeepsInv(input, trace, i - 1);
      assert Next(input, trace[i - 1], trace[i]);
      var a :| Step(input, trace[i - 1], trace[i], a);
      StepDecreases(input, trace[i - 1], trace[i], a);
    }
  }

  /** Whoever is not blocked. */
  function EnabledAction(input: seq<seq<Message>>, s: State, busy: nat): Action {
    if s.phase == Main then (if |s.handlers| < |input| then Receive else EndOfInput)
    else if s.queue != [] then Send
    else if busy < |s.handlers| then
      (match s.handlers[busy].life
       case Returned => Join(busy)
       case _ => if s.handlers[busy].remaining != [] then Produce(busy) else Return(busy))
    else Close
  }

  /** Until the server has closed, some step is possible: a full queue never blocks everybody. */
  lemma NeverStuck(input: seq<seq<Message>>, s: State)
    requires Inv(input, s)
    ensures s.phase != Closed <==> exists a :: Exec(input, s, a).Some?
  {
    if s.phase != Closed {
      var busy := |s.handlers|;
      if !AllJoined(s) {
        busy :| 0 <= busy < |s.handlers| && s.handlers[busy].life != Joined;
      }
      assert Exec(input, s, EnabledAction(input, s, busy)).Some?;
    }
  }

  predicate Internal(a: Action) {
    a.Produce? || a.Return? || a.Join? || a.Send?
  }

  /** With a silent transport the server and its handlers still move, exactly as long as there is something to do. */
  lemma ProgressWithoutInput(input: seq<seq<Message>>, s: State)
    requires Inv(input, s) && s.phase != Closed
    ensures (exists a :: Internal(a) && Exec(input, s, a).Some?) <==> s.queue != [] || !AllJoined(s)
  {
    if s.queue != [] {
      assert Internal(Send) && Exec(input, s, Send).Some?;
    } else if !AllJoined(s) {
      var busy := FirstBusy(s.handlers, 0);
      var handler := s.handlers[busy];
      var a := if handler.life == Returned then Join(busy)
               else if handler.remaining != [] then Produce(busy) else Return(busy);
      assert Internal(a) && Exec(input, s, a).Some?;
    }
  }

  /**
   Every schedule ends, after at most a number of steps fixed by the input, and
   one that cannot be continued has closed with everything sent.
   */
  lemma MaximalRunCloses(input: seq<seq<Message>>, trace: seq<State>)
    requires IsRun(input, trace)
    ensures |trace| <= InputWork(input, 0) + 3
    ensures var last := trace[|trace| - 1];
            (forall a :: Exec(input, last, a).None?) ==>
              last.phase == Closed && forall h :: 0 <= h < |input| ==> Of(last.sent, h) == input[h]
  {
    var i := |trace| - 1;
    RunBounded(input, trace, i);
    RunKeepsInv(input, trace, i);
    NeverStuck(input, trace[i]);
    if trace[i].phase == Closed {
      forall h | 0 <= h < |input| ensures Of(trace[i].sent, h) == input[h] {
        ClosedMeansSent(input, trace, i, h);
      }
    }
  }

  // ----- The drain loop itself

  /** The first handler that has not been joined, or the number of handlers. */
  function FirstBusy(handlers: seq<Handler>, from: nat): (busy: nat)
    requires from <= |handlers| && forall h :: 0 <= h < from ==> handlers[h].life == Joined
    ensures busy <= |handlers| && forall h :: 0 <= h < busy ==> handlers[h].life == Joined
    ensures busy < |handlers| ==> handlers[busy].life != Joined
    decreases |handlers| - from
  {
    if from == |handlers| || handlers[from].life != Joined then from else FirstBusy(handlers, from + 1)
  }

  /**
   The drain loop under any scheduler: `pick` says what happens next, and where
   that is not possible something else does. It ends, with everything sent.
   */
  method Drain(input: seq<seq<Message>>, s0: State, pick: State -> Action) returns (s: State)
    requires Inv(input, s0) && s0.phase == Draining
    ensures Inv(input, s) && s.phase == Closed
    ensures forall h :: 0 <= h < |input| ==> Of(s.sent, h) == input[h]
  {
    s := s0;
    while !AllJoined(s) || s.queue != []
      invariant Inv(input, s) && s.phase == Draining
      decreases Work(input, s)
    {
      var a := pick(s);
      if Exec(input, s, a).None? {
        a := EnabledAction(input, s, FirstBusy(s.handlers, 0));
      }
      ghost var before := s;
      s := Exec(input, s, a).value;
      StepKeepsInv(input, before, s, a);
      StepDecreases(input, before, s, a);
    }
    ghost var before := s;
    s := s.(phase := Closed);
    assert Step(input, before, s, Close);
    StepKeepsInv(input, before, s, Close);
    forall h | 0 <= h < |input| ensures Of(s.sent, h) == input[h] {
      SentInFull(input, s, h);
    }
  }

  // ----- With the JSON-RPC handlers

  /**
   A server that has closed has answered: for every message it received, its
   notifications were sent and then its answer, whose ids are those asked for.
   */
  lemma EveryMessageAnswered(server: Server, messages: seq<Message>, trace: seq<State>, i: nat, h: nat)
    requires IsRun(seq(|messages|, k requires 0 <= k < |messages| => Emission(server, messages[k])), trace)
    requires i < |trace| && trace[i].phase == Closed && h < |messages|
    ensures Of(trace[i].sent, h) == Notes(server, messages[h]) + AsSeq(Respond(server, messages[h]))
    ensures Respond(server, messages[h]).Some? <==> Demanding(messages[h])
    ensures AnsweredIdsOfOption(Respond(server, messages[h])) == AskedIds(messages[h])
  {
    ClosedMeansSent(seq(|messages|, k requires 0 <= k < |messages| => Emission(server, messages[k])), trace, i, h);
    AnsweredExactly(server, messages[h]);
    IdsAnsweredInOrder(server, messages[h]);
  }
}
