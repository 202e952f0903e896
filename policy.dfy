/** The caching decision of one round trip, as a function from the state the
    transport sees to the outcome and the next state. `HttpCache.Transport`
    is proved to follow it; `Properties` proves what it guarantees. */
module Policy {
  import opened Http

  /** The library functions the transport calls, left abstract: the MD5 digest
      of a string in hexadecimal, `httputil.DumpResponse` with its body, and
      `http.ReadResponse` against a request. Nothing is assumed of them; in
      particular the digest need not be injective and reading back a dump need
      not give the dumped response. */
  datatype Library = Library(
    md5Hex: string -> string,
    dumpResponse: Response -> Result<Bytes>,
    readResponse: (Bytes, Request) -> Result<Response>)

  /** How a transport is set up: its filter, whether its own round tripper is
      set, the replies of the round tripper that will serve it (its own one,
      or the default one when it has none) and the library. */
  datatype Config = Config(
    filter: Option<Request -> bool>,
    hasTransport: bool,
    serve: (Request, nat) -> Reply,
    lib: Library)

  /** What one round trip can observe and change: the store's entries, the
      keys looked up, the writes made, and the requests sent to the delegate. */
  datatype World = World(
    entries: map<string, Bytes>,
    lookups: seq<string>,
    writes: seq<(string, Bytes)>,
    sent: seq<Request>)

  datatype Transition = Transition(out: Outcome, next: World)

  datatype Trace = Trace(outs: seq<Outcome>, last: World)

  /** The request is handed straight to the delegate, bypassing the cache. */
  function Filtered(c: Config, r: Request): (bypass: bool)
    ensures bypass ==> c.filter.Some?
  {
    c.filter.Some? && c.filter.value(r)
  }

  /** The cache key: a digest of the URL's string form and nothing else. */
  function CacheKey(lib: Library, r: Request): (key: string) {
    lib.md5Hex(r.url)
  }

  /** The outcome of reading a response back from stored bytes. */
  function ReadBack(parsed: Result<Response>): (o: Outcome)
    ensures o.Return? && (o.resp.Some? <==> o.err.None?)
    ensures parsed.Ok? ==> o.resp == Some(parsed.value)
    ensures parsed.Err? ==> o.err.Some? && o.err.value.Cause() == parsed.error.Cause()
  {
    match parsed
    case Ok(resp) => Return(Some(resp), None)
    case Err(e) => Return(None, WithStack(Some(e)))
  }

  /** A reply the cache stores: no error, a 2xx status, and a dump that succeeds. */
  function Storable(lib: Library, reply: Reply): (store: bool)
    ensures store ==> reply.Err().None? && reply.Resp().Some? && IsSuccess(reply.Resp().value.status)
  {
    reply.Got? && IsSuccess(reply.resp.status) && lib.dumpResponse(reply.resp).Ok?
  }

  /** One round trip of the caching transport on request `r`. */
  function Step(c: Config, w: World, r: Request): (t: Transition)
    ensures w.sent <= t.next.sent && |t.next.sent| <= |w.sent| + 1
    ensures forall k | k in w.entries :: k in t.next.entries && t.next.entries[k] == w.entries[k]
  {
    if Filtered(c, r) then
      if !c.hasTransport then Transition(NilTransportPanic, w)
      else
        var reply := c.serve(r, |w.sent|);
        Transition(Return(reply.Resp(), reply.Err()), w.(sent := w.sent + [r]))
    else
      var key := CacheKey(c.lib, r);
      var looked := w.(lookups := w.lookups + [key]);
      if key in w.entries then
        Transition(ReadBack(c.lib.readResponse(w.entries[key], r)), looked)
      else
        var reply := c.serve(r, |w.sent|);
        var called := looked.(sent := w.sent + [r]);
        if reply.Failed? || !IsSuccess(reply.resp.status) then
          Transition(Return(reply.Resp(), WithStack(reply.Err())), called)
        else
          match c.lib.dumpResponse(reply.resp)
          case Err(e) => Transition(Return(None, WithStack(Some(e))), called)
          case Ok(b) =>
            var stored := called.(entries := w.entries[key := b], writes := w.writes + [(key, b)]);
            Transition(ReadBack(c.lib.readResponse(b, r)), stored)
  }

  /** Round trips on `rs`, one after the other, from `w`. */
  function Run(c: Config, w: World, rs: seq<Request>): (t: Trace)
    ensures |t.outs| == |rs|
    ensures w.sent <= t.last.sent && |t.last.sent| <= |w.sent| + |rs|
    decreases |rs|
  {
    if rs == [] then Trace([], w)
    else
      var first := Step(c, w, rs[0]);
      var rest := Run(c, first.next, rs[1..]);
      Trace([first.out] + rest.outs, rest.last)
  }
}
