/** The HTTP transport seen from the client: requests, replies, and a scripted
    transport that answers requests with a given sequence of replies and keeps
    a log of every exchange. */
module Http {
  import opened Js

  datatype Method = Get | Post | Put

  /** One network call; `delay` is the time in milliseconds the call waited before firing. */
  datatype Request = Request(url: string, verb: Method, data: Option<map<string, Value>>, delay: nat)

  /** What the transport produced: a response with a status and its parsed body
      (`data` in axios terms), or a transport-level exception. */
  datatype Reply = Response(status: int, data: Option<Value>) | NetworkError

  datatype Exchange = Exchange(request: Request, reply: Reply)

  /** Only HTTP 200 counts as success. */
  predicate IsSuccess(r: Reply)
  {
    r.Response? && r.status == 200
  }

  /** The reply to the next call; once the script is exhausted, the transport answers as an unreachable server would, with `NetworkError`. */
  function Next(script: seq<Reply>): Reply
  {
    if script == [] then NetworkError else script[0]
  }

  function Rest(script: seq<Reply>): seq<Reply>
  {
    if script == [] then [] else script[1..]
  }

  /** The response body axios exposes as `resp.data`. */
  function DataOf(r: Reply): Option<Value>
  {
    match r
    case Response(_, d) => d
    case NetworkError => None
  }

  /** A transport driven by a script of replies. */
  class Transport {
    var script: seq<Reply>
    var log: seq<Exchange>

    constructor (replies: seq<Reply>)
      ensures script == replies && log == []
    {
      script := replies;
      log := [];
    }

    /** Issues one request: the reply is the head of the script, and the exchange is logged. */
    method Send(req: Request) returns (reply: Reply)
      modifies this
      ensures reply == Next(old(script)) && script == Rest(old(script))
      ensures log == old(log) + [Exchange(req, reply)]
    {
      reply := Next(script);
      script := Rest(script);
      log := log + [Exchange(req, reply)];
    }
  }
}
