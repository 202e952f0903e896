/** Values exchanged by an HTTP round tripper: requests, responses, errors,
    and the outcome a round trip hands back to its caller. */
module Http {

  type byte = bv8
  type Bytes = seq<byte>

  datatype Option<+T> = None | Some(value: T)

  /** An error value. `Stacked` is what `errors.WithStack` puts around a cause. */
  datatype Error = Failure(message: string) | Stacked(inner: Error) {

    /** The innermost error, with every layer of stack context removed. */
    function Cause(): (root: Error) {
      match this
      case Failure(_) => this
      case Stacked(e) => e.Cause()
    }
  }

  /** The result of a library call that may fail. */
  datatype Result<+T> = Ok(value: T) | Err(error: Error)

  /** A request: its method (`verb`), the string form of its URL, headers and body. */
  datatype Request = Request(
    verb: string,
    url: string,
    header: map<string, seq<string>>,
    body: Bytes)

  /** A response; `request` is the request it answers, when one is attached. */
  datatype Response = Response(
    status: int,
    header: map<string, seq<string>>,
    body: Bytes,
    request: Option<Request>)

  /** What a delegate round tripper answers. A round tripper that reports no
      error must hand back a response, so "no error and no response" is not a
      value of this type. */
  datatype Reply = Got(resp: Response) | Failed(partial: Option<Response>, err: Error) {

    /** The response half of the Go pair `(resp, err)`. */
    function Resp(): (resp: Option<Response>) {
      match this
      case Got(r) => Some(r)
      case Failed(p, _) => p
    }

    /** The error half of the Go pair `(resp, err)`. */
    function Err(): (err: Option<Error>) {
      match this
      case Got(_) => None
      case Failed(_, e) => Some(e)
    }
  }

  /** What the caching transport's round trip gives its caller: the pair
      `(resp, err)`, or a nil-pointer panic. */
  datatype Outcome = Return(resp: Option<Response>, err: Option<Error>) | NilTransportPanic

  /** `errors.WithStack`: adds stack context to a non-nil error and leaves nil as nil. */
  function WithStack(e: Option<Error>): (w: Option<Error>)
    ensures w.None? <==> e.None?
    ensures w.Some? ==> w.value.Cause() == e.value.Cause()
  {
    match e
    case None => None
    case Some(err) => Some(Stacked(err))
  }

  /** The success rule of the cache: a status in [200, 300), that is, exactly
      the statuses of the 2xx class. */
  function IsSuccess(status: int): (ok: bool)
    ensures ok <==> status / 100 == 2
  {
    200 <= status < 300
  }
}
