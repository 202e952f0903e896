/** What the caching decision guarantees: for one round trip, branch by
    branch, and for any sequence of round trips. */
module Properties {
  import opened Http
  import opened Policy

  /** Call number `i`, on request `r`, produced the bytes `b` stored under `key`:
      the request used the cache, its key is `key`, and the delegate answered
      it without error, with a 2xx status and a response that dumps to `b`. */
  predicate StoredFrom(c: Config, i: nat, r: Request, key: string, b: Bytes) {
    && !Filtered(c, r)
    && key == CacheKey(c.lib, r)
    && Storable(c.lib, c.serve(r, i))
    && c.lib.dumpResponse(c.serve(r, i).resp) == Ok(b)
  }

  // ---------------------------------------------------------------------------
  // One round trip
  // ---------------------------------------------------------------------------

  /** A filtered request goes to the transport's own round tripper and its
      reply is returned untouched; the store is neither read nor written.
      Without an own round tripper the call panics, with no default. */
  lemma FilterBypassesCache(c: Config, w: World, r: Request)
    requires Filtered(c, r)
    ensures var t := Step(c, w, r);
      && t.next.entries == w.entries && t.next.lookups == w.lookups && t.next.writes == w.writes
      && (c.hasTransport ==>
            var reply := c.serve(r, |w.sent|);
            t.out == Return(reply.Resp(), reply.Err()) && t.next.sent == w.sent + [r])
      && (!c.hasTransport ==> t.out == NilTransportPanic && t.next == w)
  {
  }

  /** Two requests with the same URL look up the same key, whatever their
      method, headers or body; on a hit they leave the same state behind. */
  lemma KeyDependsOnlyOnUrl(c: Config, w: World, r1: Request, r2: Request)
    requires r1.url == r2.url
    requires !Filtered(c, r1) && !Filtered(c, r2)
    ensures CacheKey(c.lib, r1) == CacheKey(c.lib, r2)
    ensures Step(c, w, r1).next.lookups == Step(c, w, r2).next.lookups
    ensures CacheKey(c.lib, r1) in w.entries ==> Step(c, w, r1).next == Step(c, w, r2).next
  {
  }

  /** On a hit the delegate is not called and nothing is written: the result
      is the stored bytes read back against the request. */
  lemma HitServesStoredEntry(c: Config, w: World, r: Request)
    requires !Filtered(c, r) && CacheKey(c.lib, r) in w.entries
    ensures var key := CacheKey(c.lib, r);
      var t := Step(c, w, r);
      && t.next == w.(lookups := w.lookups + [key])
      && t.out == ReadBack(c.lib.readResponse(w.entries[key], r))
  {
  }

  /** On a miss whose reply is an error or has a status outside [200, 300),
      nothing is written and the reply is returned with its error wrapped; a
      non-2xx response without error comes back with a nil error. */
  lemma UnsuccessfulMissNotStored(c: Config, w: World, r: Request)
    requires !Filtered(c, r) && CacheKey(c.lib, r) !in w.entries
    requires var reply := c.serve(r, |w.sent|); reply.Failed? || !IsSuccess(reply.resp.status)
    ensures var reply := c.serve(r, |w.sent|);
      var t := Step(c, w, r);
      && t.next.entries == w.entries && t.next.writes == w.writes
      && t.next.sent == w.sent + [r]
      && t.out == Return(reply.Resp(), WithStack(reply.Err()))
      && (reply.Got? ==> t.out == Return(Some(reply.resp), None))
      && (reply.Failed? ==> t.out.err.Some? && t.out.err.value.Cause() == reply.err.Cause())
  {
  }

  /** On a miss whose 2xx reply dumps to `b`, `Set` is called exactly once,
      with the key and `b`; the store then maps the key to `b`, every other key
      keeps its entry, and the result is `b` read back against the request. */
  lemma SuccessfulMissStored(c: Config, w: World, r: Request, b: Bytes)
    requires !Filtered(c, r) && CacheKey(c.lib, r) !in w.entries
    requires var reply := c.serve(r, |w.sent|);
      reply.Got? && IsSuccess(reply.resp.status) && c.lib.dumpResponse(reply.resp) == Ok(b)
    ensures var key := CacheKey(c.lib, r);
      var t := Step(c, w, r);
      && t.next.writes == w.writes + [(key, b)]
      && key in t.next.entries && t.next.entries[key] == b
      && (forall k | k != key :: (k in t.next.entries <==> k in w.entries))
      && (forall k | k != key && k in w.entries :: t.next.entries[k] == w.entries[k])
      && t.next.sent == w.sent + [r]
      && t.out == ReadBack(c.lib.readResponse(b, r))
  {
  }

  /** The store is written exactly when the request uses the cache, its key
      is missing, and the delegate's reply is storable; the one write is then
      the key with the reply's dump, and otherwise entries stay as they were. */
  lemma WritesExactlyWhenStorable(c: Config, w: World, r: Request)
    ensures var key := CacheKey(c.lib, r);
      var reply := c.serve(r, |w.sent|);
      var t := Step(c, w, r);
      var stores := !Filtered(c, r) && key !in w.entries && Storable(c.lib, reply);
      && (t.next.writes != w.writes <==> stores)
      && (stores ==>
            && t.next.writes == w.writes + [(key, c.lib.dumpResponse(reply.resp).value)]
            && t.next.entries == w.entries[key := c.lib.dumpResponse(reply.resp).value])
      && (!stores ==> t.next.writes == w.writes && t.next.entries == w.entries)
  {
  }

  /** A 2xx reply that cannot be dumped gives a nil response and the wrapped
      dump error; the store is unchanged. */
  lemma DumpFailureNotStored(c: Config, w: World, r: Request, e: Error)
    requires !Filtered(c, r) && CacheKey(c.lib, r) !in w.entries
    requires var reply := c.serve(r, |w.sent|);
      reply.Got? && IsSuccess(reply.resp.status) && c.lib.dumpResponse(reply.resp) == Err(e)
    ensures var t := Step(c, w, r);
      && t.out == Return(None, Some(Stacked(e)))
      && t.next.entries == w.entries && t.next.writes == w.writes
  {
  }

  /** When the bytes cannot be read back, the result is a nil response with an
      error and the delegate is not asked again; on a miss the entry has
      already been stored. */
  lemma ReadFailureNotRetried(c: Config, w: World, r: Request)
    requires !Filtered(c, r)
    requires var key := CacheKey(c.lib, r);
      key in w.entries ==> c.lib.readResponse(w.entries[key], r).Err?
    requires var key := CacheKey(c.lib, r);
      var reply := c.serve(r, |w.sent|);
      key !in w.entries ==>
        Storable(c.lib, reply) && c.lib.readResponse(c.lib.dumpResponse(reply.resp).value, r).Err?
    ensures var t := Step(c, w, r);
      && t.out.Return? && t.out.resp.None? && t.out.err.Some?
      && |t.next.sent| <= |w.sent| + 1
    ensures var key := CacheKey(c.lib, r);
      var reply := c.serve(r, |w.sent|);
      var t := Step(c, w, r);
      key !in w.entries ==>
        key in t.next.entries && Ok(t.next.entries[key]) == c.lib.dumpResponse(reply.resp)
  {
  }

  /** Whether the transport has its own round tripper matters only to
      filtered requests: a request that uses the cache behaves the same,
      since a miss then falls back on the default round tripper. */
  lemma MissIgnoresTransportPresence(c: Config, w: World, r: Request)
    requires !Filtered(c, r)
    ensures Step(c.(hasTransport := true), w, r) == Step(c.(hasTransport := false), w, r)
  {
  }

  /** After a miss that stores its reply, the same URL is a hit: the second
      round trip does not call the delegate, writes nothing, and reads back the
      bytes the first one stored; the same request gets the same outcome. */
  lemma RepeatIsServedFromCache(c: Config, w: World, r1: Request, r2: Request)
    requires !Filtered(c, r1) && !Filtered(c, r2) && r1.url == r2.url
    requires CacheKey(c.lib, r1) !in w.entries
    requires Storable(c.lib, c.serve(r1, |w.sent|))
    ensures var b := c.lib.dumpResponse(c.serve(r1, |w.sent|).resp).value;
      var first := Step(c, w, r1);
      var second := Step(c, first.next, r2);
      && second.next.sent == first.next.sent
      && second.next.entries == first.next.entries
      && second.next.writes == first.next.writes
      && second.out == ReadBack(c.lib.readResponse(b, r2))
      && (r1 == r2 ==> second.out == first.out)
  {
  }

  // ---------------------------------------------------------------------------
  // Any sequence of round trips
  // ---------------------------------------------------------------------------

  /** Entries are never removed or replaced: a write only ever follows a
      lookup that missed. */
  lemma {:induction false} RunKeepsEntries(c: Config, w: World, rs: seq<Request>)
    ensures var t := Run(c, w, rs);
      forall k | k in w.entries :: k in t.last.entries && t.last.entries[k] == w.entries[k]
    decreases |rs|
  {
    if rs != [] {
      RunKeepsEntries(c, Step(c, w, rs[0]).next, rs[1..]);
    }
  }

  /** When every request uses the cache and its key is already stored, the
      delegate is never called, nothing is written, and each result is the
      stored entry read back against its request. */
  lemma {:induction false} WarmCacheNeverCallsDelegate(c: Config, w: World, rs: seq<Request>)
    requires forall i | 0 <= i < |rs| :: !Filtered(c, rs[i]) && CacheKey(c.lib, rs[i]) in w.entries
    ensures var t := Run(c, w, rs);
      && t.last.sent == w.sent && t.last.entries == w.entries && t.last.writes == w.writes
      && forall i | 0 <= i < |rs| ::
           t.outs[i] == ReadBack(c.lib.readResponse(w.entries[CacheKey(c.lib, rs[i])], rs[i]))
    decreases |rs|
  {
    if rs != [] {
      var first := Step(c, w, rs[0]);
      assert first.next.entries == w.entries;
      WarmCacheNeverCallsDelegate(c, first.next, rs[1..]);
      var t := Run(c, w, rs);
      forall i | 0 <= i < |rs|
        ensures t.outs[i] == ReadBack(c.lib.readResponse(w.entries[CacheKey(c.lib, rs[i])], rs[i]))
      {
        if i > 0 {
          assert rs[1..][i - 1] == rs[i];
        }
      }
    }
  }

  /** Every entry a run adds was produced by one of the run's own delegate
      calls: a 2xx reply without error, for a request with that key, dumped to
      exactly the stored bytes. Failed exchanges are never stored. */
  lemma {:induction false} RunStoresOnlySuccesses(c: Config, w: World, rs: seq<Request>)
    ensures var t := Run(c, w, rs);
      forall k | k in t.last.entries && k !in w.entries ::
        exists i | |w.sent| <= i < |t.last.sent| :: StoredFrom(c, i, t.last.sent[i], k, t.last.entries[k])
    decreases |rs|
  {
    if rs != [] {
      var first := Step(c, w, rs[0]);
      var rest := Run(c, first.next, rs[1..]);
      var t := Run(c, w, rs);
      assert t.last == rest.last;
      RunStoresOnlySuccesses(c, first.next, rs[1..]);
      RunKeepsEntries(c, first.next, rs[1..]);
      forall k | k in t.last.entries && k !in w.entries
        ensures exists i | |w.sent| <= i < |t.last.sent| :: StoredFrom(c, i, t.last.sent[i], k, t.last.entries[k])
      {
        if k in first.next.entries {
          var i := |w.sent|;
          assert first.next.sent == w.sent + [rs[0]];
          assert t.last.sent[i] == first.next.sent[i];
          assert StoredFrom(c, i, t.last.sent[i], k, t.last.entries[k]);
        }
      }
    }
  }

  /** A key that is not stored stays absent for as long as no delegate reply
      to a request with that key is storable: requests that fail, or answer
      outside [200, 300), never populate the store, however often repeated. */
  lemma {:induction false} FailingKeyNeverCached(c: Config, w: World, rs: seq<Request>, key: string)
    requires key !in w.entries
    requires forall i, n: nat | 0 <= i < |rs| && !Filtered(c, rs[i]) && CacheKey(c.lib, rs[i]) == key ::
      !Storable(c.lib, c.serve(rs[i], n))
    ensures key !in Run(c, w, rs).last.entries
    decreases |rs|
  {
    if rs != [] {
      var first := Step(c, w, rs[0]);
      assert key !in first.next.entries;
      forall i, n: nat | 0 <= i < |rs[1..]| && !Filtered(c, rs[1..][i]) && CacheKey(c.lib, rs[1..][i]) == key
        ensures !Storable(c.lib, c.serve(rs[1..][i], n))
      {
        assert rs[1..][i] == rs[i + 1];
      }
      FailingKeyNeverCached(c, first.next, rs[1..], key);
    }
  }
}
