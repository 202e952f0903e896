/** The `Cache` interface of the caching transport, as a key-to-bytes store
    held in memory. A missing key reads as `(nil, false)`; a write overwrites. */
module CacheStore {
  import opened Http

  class Store {
    /** The stored entries, by key. */
    var entries: map<string, Bytes>
    /** Every key passed to `Get`, in call order. */
    ghost var lookups: seq<string>
    /** Every `(key, value)` passed to `Set`, in call order. */
    ghost var writes: seq<(string, Bytes)>

    /** A store that already holds `initial`, as a backend with files left
        over from earlier runs does. */
    constructor (initial: map<string, Bytes>)
      ensures entries == initial && lookups == [] && writes == []
    {
      entries := initial;
      lookups := [];
      writes := [];
    }

    /** Reads the entry for `key`; an absent key gives empty bytes and `false`. */
    method Get(key: string) returns (b: Bytes, ok: bool)
      modifies this`lookups
      ensures ok <==> key in entries
      ensures ok ==> b == entries[key]
      ensures !ok ==> b == []
      ensures lookups == old(lookups) + [key]
    {
      ok := key in entries;
      b := if ok then entries[key] else [];
      lookups := lookups + [key];
    }

    /** Stores `value` under `key`, replacing what was there; every other key
        keeps its entry. */
    method Set(key: string, value: Bytes)
      modifies this`entries, this`writes
      ensures entries == old(entries)[key := value]
      ensures writes == old(writes) + [(key, value)]
    {
      entries := entries[key := value];
      writes := writes + [(key, value)];
    }
  }
}
