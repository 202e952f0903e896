/** The round tripper the caching transport delegates to. The network is not
    modelled: the reply to the n-th call (counting from 0) is `serve(r, n)`,
    so the same request may be answered differently over time. */
module RoundTripper {
  import opened Http

  class Delegate {
    /** The reply the remote side gives to request `r` when it is call number `n`. */
    const serve: (Request, nat) -> Reply
    /** Every request sent through this round tripper, in call order; its
        length is the number of calls made so far. */
    var sent: seq<Request>

    constructor (serve: (Request, nat) -> Reply)
      ensures this.serve == serve && sent == []
    {
      this.serve := serve;
      sent := [];
    }

    /** Performs one exchange. */
    method RoundTrip(r: Request) returns (reply: Reply)
      modifies this
      ensures reply == serve(r, |old(sent)|)
      ensures sent == old(sent) + [r]
    {
      reply := serve(r, |sent|);
      sent := sent + [r];
    }
  }
}
