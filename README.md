# A verified model of the caching round tripper of `httpcache`

`httpcache` is a Go package that wraps an `http.RoundTripper` in a transport
that caches responses. The cache key is a digest of the request's URL. On a
hit, the stored bytes are parsed back into a response and the real round
tripper is not called. On a miss, the request is sent. A reply without error
and with a status in [200, 300) is dumped to bytes, stored under the key, and
parsed back from those same bytes. A filter can exclude a request from the
cache; such a request is sent as it is.

This project models that decision logic (`Transport.RoundTrip` and the `Cache`
interface in `cache.go`) and proves what it does:

- `http.dfy` (module `Http`): requests, responses, errors with `errors.WithStack`
  wrapping, the reply of a round tripper, and the outcome of a round trip.
- `store.dfy` (module `CacheStore`): the `Cache` interface as a class over a
  `map<string, Bytes>`. Ghost logs record every `Get` key and every `Set` pair, so
  "the cache was not read" and "`Set` was called exactly once" can be stated.
- `delegate.dfy` (module `RoundTripper`): the round tripper being wrapped. The
  network is an oracle `serve(request, n)` that gives the reply to call number
  `n`. The list of requests sent also acts as the call counter.
- `policy.dfy` (module `Policy`): the decision of one round trip as a pure
  function `Step` from (configuration, state, request) to (outcome, next
  state). `Run` chains steps over a sequence of requests.
- `transport.dfy` (module `HttpCache`): the `Transport` class. Its imperative
  `RoundTrip` calls `Get`, the delegate and `Set` on the objects it holds. It is
  proved to produce exactly `Policy.Step`'s outcome and next state, and to
  modify nothing but the store and the one round tripper it may use.
- `properties.dfy` (module `Properties`): each branch of one round trip as a
  lemma about `Step`, and properties of any sequence of round trips, proved by
  induction over `Run`.

Two facts about the code shape the model:

- A filtered request is sent through `t.Transport` itself (cache.go:33-34).
  Only the miss path falls back to `http.DefaultTransport` (cache.go:41-44). So
  when `t.Transport` is nil, a filtered request calls a method on a nil
  interface and panics. The model returns `NilTransportPanic` there.
- The bytes stored are those of `httputil.DumpResponse` (cache.go:49). What is
  returned is `http.ReadResponse` of those bytes (cache.go:55). The code
  promises nothing about reading a dump back, so the model assumes no such
  round trip.

## Model

| member | source | states |
|---|---|---|
| `Http.WithStack` | cache.go:46-47 | `errors.WithStack` keeps nil as nil and wraps a non-nil error so that its cause is unchanged |
| `CacheStore.Store.Get` | disk/cache.go:23-30 | a key reads back `(entry, true)` exactly when it is stored, and `(empty, false)` otherwise; nothing stored changes |
| `CacheStore.Store.Set` | disk/cache.go:32-48 | the key now maps to the new bytes, overwriting any old entry, and every other key keeps its entry |
| `RoundTripper.Delegate.RoundTrip` | cache.go:24 | one exchange: the reply is the oracle's answer for this request and call number, and the call is counted |
| `Http.IsSuccess` | cache.go:46 | a status passes the success rule [200, 300) exactly when it is in the 2xx class; what the rule decides is stated by `Properties.UnsuccessfulMissNotStored` and `Properties.SuccessfulMissStored` |
| `Policy.Filtered` | cache.go:33 | a nil filter never bypasses the cache; a set filter bypasses it when it returns true for the request; what bypassing does is stated by `Properties.FilterBypassesCache` |
| `Policy.CacheKey` | cache.go:36-38 | the key is the digest of the URL's string form and of nothing else; `Properties.KeyDependsOnlyOnUrl` states what follows for two requests |
| `Policy.Storable` | cache.go:46-52 | a reply is stored only when it has no error, a non-nil response and a 2xx status, and its dump succeeds; `Properties.SuccessfulMissStored` and `Properties.RunStoresOnlySuccesses` state the storing |
| `Policy.ReadBack` | cache.go:55-59 | reading the bytes back gives either a response with a nil error, or a nil response with the parse error wrapped |
| `Policy.Step` | cache.go:32-60 | one round trip calls the delegate at most once, only appends to the delegate's log, and never removes or replaces an existing entry |
| `Policy.Run` | cache.go:32-60 | round trips on n requests give n outcomes and call the delegate at most n times |
| `HttpCache.Transport.RoundTrip` | cache.go:32-60 | the outcome and the new store and delegate state are those of `Policy.Step`; a filtered request leaves the store untouched and is sent through `t.Transport`; a hit leaves the delegate untouched; a miss is sent through `t.Transport`, or through the default round tripper when `t.Transport` is nil (cache.go:41-44) |
| `Properties.FilterBypassesCache` | cache.go:33-35 | a filtered request returns exactly the reply of `t.Transport` and never reads or writes the store; with nil `t.Transport` it panics |
| `Properties.KeyDependsOnlyOnUrl` | cache.go:36-39 | requests with the same URL look up the same key whatever their method, headers or body, and on a hit leave the same state |
| `Properties.HitServesStoredEntry` | cache.go:39-59 | a hit does not call the delegate, writes nothing, and returns the stored bytes read back |
| `Properties.UnsuccessfulMissNotStored` | cache.go:45-48 | a miss with an error or a status outside [200, 300) stores nothing and returns the reply; a non-2xx reply has a nil error, a transport error comes back wrapped |
| `Properties.SuccessfulMissStored` | cache.go:46-59 | a 2xx miss that dumps to b calls `Set` once with the key and b; afterwards the store maps the key to b, all other keys are unchanged, and the result is b read back |
| `Properties.WritesExactlyWhenStorable` | cache.go:33-53 | one round trip writes the store if and only if the request is unfiltered, its key is missing and the reply is storable; the write is then the key with the reply's dump, and otherwise the entries are unchanged |
| `Properties.DumpFailureNotStored` | cache.go:49-52 | a failed dump gives a nil response and the wrapped error, and the store is unchanged |
| `Properties.ReadFailureNotRetried` | cache.go:53-58 | a failed read-back gives a nil response and an error without asking the delegate again; on a miss the entry is already stored |
| `Properties.MissIgnoresTransportPresence` | cache.go:41-45 | for a request that uses the cache, whether `t.Transport` is nil changes nothing, because the default round tripper takes its place |
| `Properties.RepeatIsServedFromCache` | cache.go:39-59 | after a stored miss, a request to the same URL is a hit: no delegate call, no write, the stored bytes are read back, and the same request gets the same outcome |
| `Properties.RunKeepsEntries` | cache.go:39-54 | over any sequence of round trips, an entry once stored is never removed or replaced |
| `Properties.WarmCacheNeverCallsDelegate` | cache.go:39-59 | when every request is unfiltered and already cached, a run never calls the delegate, never writes, and returns each stored entry read back |
| `Properties.RunStoresOnlySuccesses` | cache.go:46-53 | every entry a run adds is the dump of a 2xx reply without error, given by one of the run's own delegate calls for a request with that key |
| `Properties.FailingKeyNeverCached` | cache.go:46-48 | a key whose unfiltered requests never get a storable reply stays absent from the store over any run; filtered requests with that key never write |

## Left out

- The MD5 digest and its hexadecimal encoding (cache.go:36-38) are an abstract function `md5Hex` of the URL string. Determinism is all the model uses; it does not assume injectivity, a fixed length or the hex alphabet.
- `httputil.DumpResponse` and `http.ReadResponse` are abstract functions that may fail. The HTTP/1.1 wire format is not modelled. The dump's draining and replacement of the response body is not modelled either: the dumped response is never returned.
- The network: a round tripper answers through the oracle `serve(request, call number)`. `http.DefaultTransport` is a `Delegate` object handed to the `Transport`.
- A round tripper that returns a nil response and a nil error breaks the `http.RoundTripper` contract; the Go code would then dereference nil at cache.go:46. The `Reply` type leaves that pair out.
- A nil `t.Cache` would panic in Go; the model's `cache` field is never nil.
- The filter is a pure function of the request; side effects inside a Go filter are not modelled.
- A request's URL is represented by its string form `URL.String()`; URL parsing is not modelled.
- `errors.WithStack` is a `Stacked` layer around the cause; the recorded stack itself is not modelled.
- CacheStore.Store.Set: always stores the bytes. The filesystem backends (disk/cache.go, disk.go) drop a write when the directory or the file cannot be written; that I/O, and their permission defaults (0777 for the directory, 0666 for files), are not modelled.
- Concurrency: the package takes no locks, and concurrent writers race at the operating-system level; the model is sequential.
