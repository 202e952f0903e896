/** The caching round tripper: it serves a request from the store when it can,
    and otherwise asks its delegate and stores the dumped 2xx response. */
module HttpCache {
  import opened Http
  import opened CacheStore
  import opened RoundTripper
  import opened Policy

  class Transport {
    /** The round tripper used to make actual requests; may be nil. */
    const transport: Delegate?
    /** The process-wide default round tripper, used on a miss when `transport` is nil. */
    const defaultTransport: Delegate
    const cache: Store
    /** Returns true for a request that must not use the cache; may be nil. */
    const filter: Option<Request -> bool>
    const lib: Library

    constructor (transport: Delegate?, defaultTransport: Delegate, cache: Store,
                 filter: Option<Request -> bool>, lib: Library)
      ensures this.transport == transport && this.defaultTransport == defaultTransport
      ensures this.cache == cache && this.filter == filter && this.lib == lib
    {
      this.transport := transport;
      this.defaultTransport := defaultTransport;
      this.cache := cache;
      this.filter := filter;
      this.lib := lib;
    }

    /** The only round tripper a round trip may call: `transport`, or the
        default one when `transport` is nil. */
    function Used(): (d: Delegate) {
      if transport != null then transport else defaultTransport
    }

    function Setup(): (c: Config) {
      Config(filter, transport != null, Used().serve, lib)
    }

    ghost function State(): World
      reads cache, Used()
    {
      World(cache.entries, cache.lookups, cache.writes, Used().sent)
    }

    /** One round trip, following `Policy.Step`. */
    method RoundTrip(r: Request) returns (o: Outcome)
      modifies cache, Used()
      ensures Transition(o, State()) == Step(Setup(), old(State()), r)
      ensures Filtered(Setup(), r) ==> unchanged(cache)
      ensures !Filtered(Setup(), r) && CacheKey(lib, r) in old(cache.entries) ==> unchanged(Used())
      ensures Filtered(Setup(), r) && transport != null ==> transport.sent == old(transport.sent) + [r]
      ensures !Filtered(Setup(), r) && CacheKey(lib, r) !in old(cache.entries) ==>
        && (transport != null ==> transport.sent == old(transport.sent) + [r])
        && (transport == null ==> defaultTransport.sent == old(defaultTransport.sent) + [r])
    {
      if filter.Some? && filter.value(r) {
        if transport == null {
          return NilTransportPanic;
        }
        var reply := transport.RoundTrip(r);
        return Return(reply.Resp(), reply.Err());
      }
      var key := CacheKey(lib, r);
      var b, ok := cache.Get(key);
      if !ok {
        var delegate := transport;
        if delegate == null {
          delegate := defaultTransport;
        }
        var reply := delegate.RoundTrip(r);
        if reply.Failed? || !IsSuccess(reply.resp.status) {
          return Return(reply.Resp(), WithStack(reply.Err()));
        }
        var dumped := lib.dumpResponse(reply.resp);
        if dumped.Err? {
          return Return(None, WithStack(Some(dumped.error)));
        }
        b := dumped.value;
        cache.Set(key, b);
      }
      var parsed := lib.readResponse(b, r);
      if parsed.Err? {
        return Return(None, WithStack(Some(parsed.error)));
      }
      return Return(Some(parsed.value), None);
    }
  }
}
