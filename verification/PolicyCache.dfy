/** gateway/policy_cache.py: the decision cache with a time to live. */
module PolicyCache {
  import opened Wrappers

  datatype Entry<V> = Entry(value: V, expiresAt: real)

  type Entries<V> = map<string, Entry<V>>

  /** What a lookup sees: an entry strictly before its expiry. */
  function Live<V>(entries: Entries<V>, key: string, now: real): Option<V>
  {
    if key in entries && now < entries[key].expiresAt then Some(entries[key].value) else None
  }

  class PolicyCache<V> {
    const ttlSeconds: real
    var entries: Entries<V>

    constructor (ttlSeconds: real)
      requires ttlSeconds > 0.0
      ensures this.ttlSeconds == ttlSeconds && entries == map[]
    {
      this.ttlSeconds := ttlSeconds;
      entries := map[];
    }

    /** The source's constructor raises when the time to live is not positive. */
    static method Create(ttlSeconds: real) returns (r: Result<PolicyCache<V>, string>)
      ensures r.Ok? <==> ttlSeconds > 0.0
      ensures r.Ok? ==> fresh(r.value) && r.value.ttlSeconds == ttlSeconds && r.value.entries == map[]
    {
      if ttlSeconds <= 0.0 {
        return Err("ttl_seconds must be positive");
      }
      var cache := new PolicyCache<V>(ttlSeconds);
      return Ok(cache);
    }

    /** Answers a live entry, drops an expired one, and leaves everything else alone. */
    method Get(key: string, now: real) returns (r: Option<V>)
      modifies this
      ensures r == Live(old(entries), key, now)
      ensures entries == if r == None then old(entries) - {key} else old(entries)
    {
      if key !in entries {
        assert entries - {key} == entries;
        return None;
      }
      var entry := entries[key];
      if entry.expiresAt <= now {
        entries := entries - {key};
        return None;
      }
      return Some(entry.value);
    }

    method Set(key: string, value: V, ttlSeconds: Option<real>, now: real) returns (stored: bool)
      modifies this
      ensures stored <==> (ttlSeconds.Some? ==> ttlSeconds.value > 0.0) && (ttlSeconds.None? ==> this.ttlSeconds > 0.0)
      ensures var ttl := if ttlSeconds.Some? then ttlSeconds.value else this.ttlSeconds;
        entries == if stored then old(entries)[key := Entry(value, now + ttl)] else old(entries)
    {
      var ttl := if ttlSeconds.None? then this.ttlSeconds else ttlSeconds.value;
      if ttl <= 0.0 {
        return false;
      }
      entries := entries[key := Entry(value, now + ttl)];
      return true;
    }

    method Invalidate(key: string)
      modifies this
      ensures entries == old(entries) - {key}
    {
      entries := entries - {key};
    }

    method InvalidateAll()
      modifies this
      ensures entries == map[]
    {
      entries := map[];
    }
  }
}
