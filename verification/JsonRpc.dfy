/**
 JSON-RPC dispatch: one message in, at most one message out, for arbitrarily
 nested batches. Two dispatchers share the request handling; one collects the
 notifications of a request, the other sends them at once.
 */
module JsonRpc {
  import opened Sequences

  const INVALID_REQUEST := -32600
  const METHOD_NOT_FOUND := -32601
  const INVALID_PARAMS := -32602
  const INTERNAL_ERROR := -32603
  const SERVER_ERROR := -32000

  /** A JSON value, as its text. */
  type Value = string

  datatype Id = Str(text: string) | Number(n: int) | Null

  datatype Result<T> = Ok(value: T) | Err(error: Error)

  datatype Error =
    | MethodNotFound(message: string)
    | InvalidParams(message: string)
    | ToolNotFound(name: string)
    | Internal(message: string)
    | Other(message: string)

  datatype RpcError = RpcError(code: int, message: string)

  datatype Message =
    | Request(version: string, name: string, params: Option<Value>, id: Id)
    | Response(result: Option<Value>, error: Option<RpcError>, id: Id)
    | Notification(name: string, params: Option<Value>)
    | Batch(messages: seq<Message>)

  /** What a tool does with a call: notifications while it runs, then its outcome. */
  datatype Run = Run(notes: seq<Message>, outcome: Result<Value>)

  /** A tool gets its arguments, the progress token and the id of the call. */
  type Tool = (Option<Value>, Option<string>, Id) -> Run

  /** The registered handlers, and the JSON library's view of parameters and texts. */
  datatype Server = Server(
    initialize: Value,
    toolsList: Value,
    shutdown: Value,
    tools: map<string, Tool>,
    custom: map<string, Option<Value> -> Result<Value>>,
    nameOf: Value -> Option<string>,
    tokenOf: Value -> Option<string>,
    argumentsOf: Value -> Option<Value>,
    content: Result<Value> -> Value)

  function InvalidRequest(id: Id): Message {
    Response(None, Some(RpcError(INVALID_REQUEST, "Invalid Request")), id)
  }

  function ToRpcError(error: Error): RpcError {
    match error
    case MethodNotFound(m) => RpcError(METHOD_NOT_FOUND, m)
    case InvalidParams(m) => RpcError(INVALID_PARAMS, m)
    case ToolNotFound(name) => RpcError(INVALID_PARAMS, "Tool not found: " + name)
    case Internal(m) => RpcError(INTERNAL_ERROR, m)
    case Other(m) => RpcError(SERVER_ERROR, m)
  }

  function CallTool(server: Server, params: Option<Value>, id: Id): Run {
    if params.None? then Run([], Err(InvalidParams("Missing parameters")))
    else if server.nameOf(params.value).None? then Run([], Err(InvalidParams("Missing tool name")))
    else
      var name := server.nameOf(params.value).value;
      if name !in server.tools then Run([], Err(ToolNotFound(name)))
      else
        var run := server.tools[name](server.argumentsOf(params.value), server.tokenOf(params.value), id);
        Run(run.notes, Ok(server.content(run.outcome)))
  }

  function CallCustom(server: Server, name: string, params: Option<Value>, id: Id): Run {
    if name in server.tools then
      server.tools[name](params, if params.Some? then server.tokenOf(params.value) else None, id)
    else if name in server.custom then Run([], server.custom[name](params))
    else Run([], Err(MethodNotFound("Method not found: " + name)))
  }

  function RunRequest(server: Server, req: Message): Run
    requires req.Request?
  {
    if req.name == "initialize" then Run([], Ok(server.initialize))
    else if req.name == "tools/list" then Run([], Ok(server.toolsList))
    else if req.name == "tools/call" then CallTool(server, req.params, req.id)
    else if req.name == "shutdown" then Run([], Ok(server.shutdown))
    else CallCustom(server, req.name, req.params, req.id)
  }

  /** The one response to a request. */
  function Answer(server: Server, req: Message): (r: Message)
    requires req.Request?
    ensures r.Response? && r.id == req.id
    ensures r.result.Some? <==> r.error.None?
  {
    if req.version != "2.0" then InvalidRequest(req.id)
    else match RunRequest(server, req).outcome
      case Ok(value) => Response(Some(value), None, req.id)
      case Err(error) => Response(None, Some(ToRpcError(error)), req.id)
  }

  function NotesOfRequest(server: Server, req: Message): seq<Message>
    requires req.Request?
  {
    if req.version != "2.0" then [] else RunRequest(server, req).notes
  }

  // ----- What a message amounts to

  function Respond(server: Server, m: Message): Option<Message>
    decreases m
  {
    match m
    case Request(_, _, _, _) => Some(Answer(server, m))
    case Notification(_, _) => None
    case Response(_, _, _) => None
    case Batch(ms) =>
      if ms == [] then Some(InvalidRequest(Null))
      else
        var rs := Responses(server, ms, |ms|);
        if rs == [] then None else Some(Batch(rs))
  }

  /** The responses of the first `n` members of a batch, in order. */
  function Responses(server: Server, ms: seq<Message>, n: nat): seq<Message>
    requires n <= |ms|
    decreases ms, n
  {
    if n == 0 then [] else Responses(server, ms, n - 1) + AsSeq(Respond(server, ms[n - 1]))
  }

  /** Every notification produced while the message is handled, in order. */
  function Notes(server: Server, m: Message): seq<Message>
    decreases m
  {
    match m
    case Request(_, _, _, _) => NotesOfRequest(server, m)
    case Notification(_, _) => []
    case Response(_, _, _) => []
    case Batch(ms) => NotesOf(server, ms, |ms|)
  }

  function NotesOf(server: Server, ms: seq<Message>, n: nat): seq<Message>
    requires n <= |ms|
    decreases ms, n
  {
    if n == 0 then [] else NotesOf(server, ms, n - 1) + Notes(server, ms[n - 1])
  }

  // ----- The two dispatchers

  /** What the queued dispatcher hands over. */
  function QueuedNotes(server: Server, m: Message): seq<Message> {
    if m.Batch? then [] else Notes(server, m)
  }

  datatype Sender = Queued | Realtime

  class Protocol {
    const server: Server
    var sender: Option<Sender>

    constructor (server: Server)
      ensures this.server == server && sender == None
    {
      this.server, sender := server, None;
    }

    method SetNotificationSender()
      modifies this`sender
      ensures sender == Some(Realtime)
    {
      sender := Some(Realtime);
    }

    /**
     The queued dispatcher. It leaves its own queue behind as the active sender,
     and the notifications of a batch's members go nowhere.
     */
    method HandleMessage(m: Message) returns (response: Option<Message>, notifications: seq<Message>)
      modifies this`sender
      ensures response == Respond(server, m)
      ensures notifications == QueuedNotes(server, m)
      ensures sender == Some(Queued)
      decreases m
    {
      sender := Some(Queued);
      notifications := [];
      match m {
        case Request(_, _, _, _) =>
          response := Some(Answer(server, m));
          notifications := NotesOfRequest(server, m);
        case Notification(_, _) =>
          response := None;
        case Response(_, _, _) =>
          response := None;
        case Batch(batch) =>
          if batch == [] {
            response := Some(InvalidRequest(Null));
          } else {
            var responses := [];
            for i := 0 to |batch|
              invariant responses == Responses(server, batch, i)
              invariant sender == Some(Queued)
            {
              var resp, _ := HandleMessage(batch[i]);
              if resp.Some? {
                responses := responses + [resp.value];
              }
            }
            response := if responses == [] then None else Some(Batch(responses));
          }
      }
    }

    /** The realtime dispatcher: `emitted` is what it has sent by the time it returns. */
    method HandleMessageRealtime(m: Message) returns (response: Option<Message>, emitted: seq<Message>)
      ensures response == Respond(server, m)
      ensures emitted == if sender == Some(Realtime) then Notes(server, m) else []
      decreases m
    {
      emitted := [];
      match m {
        case Request(_, _, _, _) =>
          response := Some(Answer(server, m));
          if sender == Some(Realtime) {
            emitted := NotesOfRequest(server, m);
          }
        case Notification(_, _) =>
          response := None;
        case Response(_, _, _) =>
          response := None;
        case Batch(batch) =>
          if batch == [] {
            response := Some(InvalidRequest(Null));
          } else {
            var responses := [];
            for i := 0 to |batch|
              invariant responses == Responses(server, batch, i)
              invariant emitted == if sender == Some(Realtime) then NotesOf(server, batch, i) else []
            {
              var resp, sent := HandleMessageRealtime(batch[i]);
              emitted := emitted + sent;
              if resp.Some? {
                responses := responses + [resp.value];
              }
            }
            response := if responses == [] then None else Some(Batch(responses));
          }
      }
    }
  }

  // ----- Section 6 of JSON-RPC 2.0

  /** The ids that must be answered, in order; an empty batch is answered under Null. */
  function AskedIds(m: Message): seq<Id>
    decreases m
  {
    match m
    case Request(_, _, _, id) => [id]
    case Notification(_, _) => []
    case Response(_, _, _) => []
    case Batch(ms) => if ms == [] then [Null] else AskedIdsOf(ms, |ms|)
  }

  function AskedIdsOf(ms: seq<Message>, n: nat): seq<Id>
    requires n <= |ms|
    decreases ms, n
  {
    if n == 0 then [] else AskedIdsOf(ms, n - 1) + AskedIds(ms[n - 1])
  }

  function AnsweredIds(m: Message): seq<Id>
    decreases m
  {
    match m
    case Response(_, _, id) => [id]
    case Batch(ms) => AnsweredIdsOf(ms, |ms|)
    case _ => []
  }

  function AnsweredIdsOf(ms: seq<Message>, n: nat): seq<Id>
    requires n <= |ms|
    decreases ms, n
  {
    if n == 0 then [] else AnsweredIdsOf(ms, n - 1) + AnsweredIds(ms[n - 1])
  }

  function AnsweredIdsOfOption(m: Option<Message>): seq<Id> {
    if m.Some? then AnsweredIds(m.value) else []
  }

  /** A request, or an empty batch at any depth. */
  predicate Demanding(m: Message)
    decreases m
  {
    m.Request? || (m.Batch? && (m.messages == [] || exists i :: 0 <= i < |m.messages| && Demanding(m.messages[i])))
  }

  /** A proper reply: responses with either a result or an error, in batches that are never empty. */
  predicate IsReply(m: Message)
    decreases m
  {
    match m
    case Response(result, error, _) => result.Some? <==> error.None?
    case Batch(ms) => ms != [] && forall i :: 0 <= i < |ms| ==> IsReply(ms[i])
    case _ => false
  }

  lemma {:induction false} AnsweredIdsPrefix(ms: seq<Message>, more: seq<Message>, n: nat)
    requires n <= |ms|
    ensures AnsweredIdsOf(ms + more, n) == AnsweredIdsOf(ms, n)
    decreases n
  {
    if n > 0 {
      AnsweredIdsPrefix(ms, more, n - 1);
    }
  }

  lemma AnsweredIdsAppend(ms: seq<Message>, r: Option<Message>)
    ensures var all := ms + AsSeq(r);
            AnsweredIdsOf(all, |all|) == AnsweredIdsOf(ms, |ms|) + AnsweredIdsOfOption(r)
  {
    var all := ms + AsSeq(r);
    if r.Some? {
      AnsweredIdsPrefix(ms, [r.value], |ms|);
      assert all[|ms|] == r.value;
    } else {
      assert all == ms;
    }
  }

  /** Flattened, the ids of the reply are the ids asked for, in order, each as often as asked. */
  lemma {:induction false} IdsAnsweredInOrder(server: Server, m: Message)
    ensures AnsweredIdsOfOption(Respond(server, m)) == AskedIds(m)
    decreases m
  {
    match m {
      case Batch(ms) =>
        IdsOfMembers(server, ms, |ms|);
      case _ =>
    }
  }

  lemma {:induction false} IdsOfMembers(server: Server, ms: seq<Message>, n: nat)
    requires n <= |ms|
    ensures var rs := Responses(server, ms, n);
            AnsweredIdsOf(rs, |rs|) == AskedIdsOf(ms, n)
    decreases ms, n
  {
    if n > 0 {
      IdsOfMembers(server, ms, n - 1);
      IdsAnsweredInOrder(server, ms[n - 1]);
      AnsweredIdsAppend(Responses(server, ms, n - 1), Respond(server, ms[n - 1]));
    }
  }

  /** There is an answer exactly when there is a request or an empty batch somewhere. */
  lemma {:induction false} AnsweredExactly(server: Server, m: Message)
    ensures Respond(server, m).Some? <==> Demanding(m)
    decreases m
  {
    if m.Batch? {
      MembersAnswered(server, m.messages, |m.messages|);
    }
  }

  lemma {:induction false} MembersAnswered(server: Server, ms: seq<Message>, n: nat)
    requires n <= |ms|
    ensures Responses(server, ms, n) != [] <==> exists i :: 0 <= i < n && Demanding(ms[i])
    decreases ms, n
  {
    if n > 0 {
      MembersAnswered(server, ms, n - 1);
      AnsweredExactly(server, ms[n - 1]);
      var before, last := Responses(server, ms, n - 1), AsSeq(Respond(server, ms[n - 1]));
      assert Responses(server, ms, n) == before + last;
      SomeDemanding(ms, n);
    }
  }

  lemma SomeDemanding(ms: seq<Message>, n: nat)
    requires 0 < n <= |ms|
    ensures (exists i :: 0 <= i < n && Demanding(ms[i]))
       <==> (exists i :: 0 <= i < n - 1 && Demanding(ms[i])) || Demanding(ms[n - 1])
  {
  }

  /** Whatever is answered is a proper reply, and only an empty batch is answered by less than a batch. */
  lemma {:induction false} RepliesAreProper(server: Server, m: Message)
    ensures Respond(server, m).Some? ==> IsReply(Respond(server, m).value)
    ensures m.Batch? && m.messages != [] && Respond(server, m).Some? ==> Respond(server, m).value.Batch?
    decreases m
  {
    if m.Batch? {
      MembersProper(server, m.messages, |m.messages|);
    }
  }

  lemma {:induction false} MembersProper(server: Server, ms: seq<Message>, n: nat)
    requires n <= |ms|
    ensures forall i :: 0 <= i < |Responses(server, ms, n)| ==> IsReply(Responses(server, ms, n)[i])
    decreases ms, n
  {
    if n > 0 {
      MembersProper(server, ms, n - 1);
      RepliesAreProper(server, ms[n - 1]);
    }
  }

  // ----- The methods

  /** The reply under this id that gives the outcome, with the standard code for each kind of failure. */
  predicate Gives(reply: Option<Message>, id: Id, outcome: Result<Value>) {
    && reply.Some? && reply.value.Response? && reply.value.id == id
    && match outcome
       case Ok(value) => reply.value.result == Some(value) && reply.value.error == None
       case Err(error) => reply.value.result == None && reply.value.error.Some?
                          && reply.value.error.value.code == (if error.MethodNotFound? then -32601
                                                              else if error.InvalidParams? then -32602
                                                              else if error.ToolNotFound? then -32602
                                                              else if error.Internal? then -32603
                                                              else -32000)
  }

  /** A request of the wrong version runs nothing and is answered Invalid Request; no other request is. */
  lemma InvalidRequestExact(server: Server, req: Message)
    requires req.Request?
    ensures req.version != "2.0" ==>
              && Respond(server, req) == Some(Response(None, Some(RpcError(-32600, "Invalid Request")), req.id))
              && Notes(server, req) == []
    ensures (Answer(server, req).error.Some? && Answer(server, req).error.value.code == -32600)
       <==> req.version != "2.0"
  {
  }

  /** Three methods have results of their own. */
  lemma BuiltInMethods(server: Server, params: Option<Value>, id: Id)
    ensures Gives(Respond(server, Request("2.0", "initialize", params, id)), id, Ok(server.initialize))
    ensures Gives(Respond(server, Request("2.0", "tools/list", params, id)), id, Ok(server.toolsList))
    ensures Gives(Respond(server, Request("2.0", "shutdown", params, id)), id, Ok(server.shutdown))
    ensures forall name :: name in ["initialize", "tools/list", "shutdown"] ==>
                             Notes(server, Request("2.0", name, params, id)) == []
  {
  }

  /**
   A call of a registered tool runs that tool on the call's own arguments,
   progress token and id. Its outcome, failure or not, is rendered as a result,
   and its notifications are those of the call.
   */
  lemma ToolCallRuns(server: Server, params: Value, id: Id, name: string)
    requires server.nameOf(params) == Some(name) && name in server.tools
    ensures var call := Request("2.0", "tools/call", Some(params), id);
            var run := server.tools[name](server.argumentsOf(params), server.tokenOf(params), id);
            && Gives(Respond(server, call), id, Ok(server.content(run.outcome)))
            && Notes(server, call) == run.notes
  {
  }

  /** A call without parameters, without a name or of an unknown tool runs nothing; its parameters are invalid. */
  lemma ToolCallRefused(server: Server, params: Option<Value>, id: Id)
    requires params.None? || server.nameOf(params.value).None? || server.nameOf(params.value).value !in server.tools
    ensures var call := Request("2.0", "tools/call", params, id);
            var message := if params.None? then "Missing parameters"
                           else if server.nameOf(params.value).None? then "Missing tool name"
                           else "Tool not found: " + server.nameOf(params.value).value;
            && Respond(server, call) == Some(Response(None, Some(RpcError(-32602, message)), id))
            && Notes(server, call) == []
  {
  }

  /**
   Any other method is a tool on the request's own parameters, or else a
   custom method, and gives its plain outcome; or else there is no such method.
   */
  lemma OtherMethods(server: Server, name: string, params: Option<Value>, id: Id)
    requires name !in ["initialize", "tools/list", "tools/call", "shutdown"]
    ensures var req := Request("2.0", name, params, id);
            if name in server.tools then
              var token := if params.Some? then server.tokenOf(params.value) else None;
              var run := server.tools[name](params, token, id);
              Gives(Respond(server, req), id, run.outcome) && Notes(server, req) == run.notes
            else
              && Notes(server, req) == []
              && if name in server.custom then Gives(Respond(server, req), id, server.custom[name](params))
                 else var unknown := RpcError(-32601, "Method not found: " + name);
                      Respond(server, req) == Some(Response(None, Some(unknown), id))
  {
  }

  /** A batch is answered by its members' answers and notifies what they notify, both in order. */
  lemma BatchInOrder(server: Server, ms: seq<Message>)
    requires ms != []
    ensures var answers := Flatten(Map(m => AsSeq(Respond(server, m)), ms));
            Respond(server, Batch(ms)) == if answers == [] then None else Some(Batch(answers))
    ensures Notes(server, Batch(ms)) == Flatten(Map(m => Notes(server, m), ms))
  {
    AnswersInOrder(server, m => AsSeq(Respond(server, m)), ms, |ms|);
    NotesInOrder(server, m => Notes(server, m), ms, |ms|);
    assert ms[..|ms|] == ms;
  }

  lemma {:induction false} AnswersInOrder(server: Server, answers: Message -> seq<Message>, ms: seq<Message>, n: nat)
    requires n <= |ms| && forall m :: answers(m) == AsSeq(Respond(server, m))
    ensures Responses(server, ms, n) == Flatten(Map(answers, ms[..n]))
    decreases n
  {
    if n > 0 {
      AnswersInOrder(server, answers, ms, n - 1);
      FlattenMapSnoc(answers, ms[..n - 1], ms[n - 1]);
      assert ms[..n] == ms[..n - 1] + [ms[n - 1]];
    }
  }

  lemma {:induction false} NotesInOrder(server: Server, notes: Message -> seq<Message>, ms: seq<Message>, n: nat)
    requires n <= |ms| && forall m :: notes(m) == Notes(server, m)
    ensures NotesOf(server, ms, n) == Flatten(Map(notes, ms[..n]))
    decreases n
  {
    if n > 0 {
      NotesInOrder(server, notes, ms, n - 1);
      FlattenMapSnoc(notes, ms[..n - 1], ms[n - 1]);
      assert ms[..n] == ms[..n - 1] + [ms[n - 1]];
    }
  }

  /** The requests in a message, at every depth. */
  function Requests(m: Message): seq<Message>
    decreases m
  {
    match m
    case Request(_, _, _, _) => [m]
    case Notification(_, _) => []
    case Response(_, _, _) => []
    case Batch(ms) => RequestsOf(ms, |ms|)
  }

  function RequestsOf(ms: seq<Message>, n: nat): seq<Message>
    requires n <= |ms|
    decreases ms, n
  {
    if n == 0 then [] else RequestsOf(ms, n - 1) + Requests(ms[n - 1])
  }

  /** No request among `rs` has its handler notify. */
  predicate AllSilent(server: Server, rs: seq<Message>) {
    forall i :: 0 <= i < |rs| && rs[i].Request? ==> NotesOfRequest(server, rs[i]) == []
  }

  lemma AllSilentAppend(server: Server, a: seq<Message>, b: seq<Message>)
    ensures AllSilent(server, a + b) <==> AllSilent(server, a) && AllSilent(server, b)
  {
    if AllSilent(server, a + b) {
      assert forall i :: 0 <= i < |a| ==> a[i] == (a + b)[i];
      assert forall i :: 0 <= i < |b| ==> b[i] == (a + b)[|a| + i];
    }
  }

  /** A message is handled without a notification exactly when none of its requests, at any depth, makes one. */
  lemma {:induction false} SilentExactly(server: Server, m: Message)
    ensures Notes(server, m) == [] <==> AllSilent(server, Requests(m))
    decreases m
  {
    if m.Batch? {
      SilentMembers(server, m.messages, |m.messages|);
    } else if m.Request? {
      assert Requests(m)[0] == m;
    }
  }

  lemma {:induction false} SilentMembers(server: Server, ms: seq<Message>, n: nat)
    requires n <= |ms|
    ensures NotesOf(server, ms, n) == [] <==> AllSilent(server, RequestsOf(ms, n))
    decreases ms, n
  {
    if n > 0 {
      SilentMembers(server, ms, n - 1);
      SilentExactly(server, ms[n - 1]);
      AllSilentAppend(server, RequestsOf(ms, n - 1), Requests(ms[n - 1]));
    }
  }

  /** The queued dispatcher loses nothing if and only if the message is no batch or none of its requests notifies. */
  lemma QueuedNotesExact(server: Server, m: Message)
    ensures QueuedNotes(server, m) == Notes(server, m) <==> !m.Batch? || AllSilent(server, Requests(m))
  {
    SilentExactly(server, m);
  }

  /** A call of a tool that reports its progress loses the report in a batch of one, and only there. */
  method DroppedInBatch() returns (alone: seq<Message>, inBatch: seq<Message>, realtime: seq<Message>)
    ensures alone == realtime == [Notification("notifications/progress", None)] && inBatch == []
  {
    var note := Notification("notifications/progress", None);
    var tool := (params: Option<Value>, token: Option<string>, id: Id) => Run([note], Ok("done"));
    var server := Server("", "", "", map["build" := tool], map[], v => None, v => None, v => None, r => "");
    var call := Request("2.0", "build", None, Number(1));
    assert RunRequest(server, call) == CallCustom(server, "build", None, Number(1));
    assert NotesOf(server, [call], 1) == NotesOf(server, [call], 0) + Notes(server, call);
    var protocol := new Protocol(server);
    protocol.SetNotificationSender();
    var response;
    response, realtime := protocol.HandleMessageRealtime(Batch([call]));
    response, alone := protocol.HandleMessage(call);
    response, inBatch := protocol.HandleMessage(Batch([call]));
  }

  /** What a handler task puts on the queue: the notifications of its message, then the answer. */
  function Emission(server: Server, m: Message): (out: seq<Message>)
    ensures |out| == |Notes(server, m)| + (if Respond(server, m).Some? then 1 else 0)
  {
    Notes(server, m) + AsSeq(Respond(server, m))
  }
}
