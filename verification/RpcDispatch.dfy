/** Answering requests and routing answers back to the calls that wait for them. */
module RpcDispatch {
  import opened Wrappers

  type Body = seq<int>

  /** A message id: a 32-bit counter value. */
  type MessageId = n: int | 0 <= n < 0x1_0000_0000

  datatype Outcome = Success(result: Body) | Failure(code: int, message: string)

  datatype Response = Response(id: MessageId, outcome: Outcome)

  /** What is read of a message before it is handled. */
  datatype PartialIncoming = PartialIncoming(id: Option<MessageId>, method_: Option<string>, error: Option<Outcome>)

  datatype Kind = Sync | Async | Duplex

  /** The parameters are read from the body, which may fail. */
  datatype Method = Method(kind: Kind, params: Body -> Result<Body, string>)

  type Methods = map<string, Method>

  const BAD_PARAMS := 0
  const CALL_FAILED := -1

  /** What a caller is told about a request, if the callback gives ran for its parameters this time. */
  function Answer(methods: Methods, name: string, body: Body, ran: Result<Body, string>): Outcome {
    if name !in methods then NotFound(name)
    else
      match methods[name].params(body)
      case Err(e) => Failure(BAD_PARAMS, e)
      case Ok(p) =>
        match ran
        case Err(e) => Failure(CALL_FAILED, e)
        case Ok(r) => Success(r)
  }

  function NotFound(name: string): Outcome {
    Failure(CALL_FAILED, "Method not found: " + name)
  }

  /**
   now is sent at once, later when the request has been worked on. A message that is neither a request
   nor carries an id breaks the dispatcher.
   */
  datatype Reaction =
    | Now(now: Option<Response>)
    | Later(later: Option<Response>)
    | Streams(reqId: MessageId, later: Option<Response>)
    | Resolved(id: MessageId, outcome: Outcome)
    | Unclaimed
    | Panics

  predicate IsReply(r: Reaction) {
    r.Now? || r.Later? || r.Streams?
  }

  function ReplyOf(r: Reaction): Option<Response>
    requires IsReply(r)
  {
    match r
    case Now(x) => x
    case Later(x) => x
    case Streams(_, x) => x
  }

  function Respond(id: Option<MessageId>, outcome: Outcome): Option<Response> {
    if id.Some? then Some(Response(id.value, outcome)) else None
  }

  /** What a registered closure makes of a request, path by path. */
  function Run(m: Method, id: Option<MessageId>, body: Body, ran: Result<Body, string>): Reaction {
    match m.params(body)
    case Err(e) =>
      var r := Respond(id, Failure(BAD_PARAMS, e));
      if m.kind.Sync? then Now(r) else Later(r)
    case Ok(p) =>
      var r := match ran
        case Ok(v) => Respond(id, Success(v))
        case Err(e) => Respond(id, Failure(CALL_FAILED, e));
      match m.kind
      case Sync => Now(r)
      case Async => Later(r)
      case Duplex => Streams(id.GetOr(0), r)
  }
}
