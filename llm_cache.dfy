/**
 * LLMCache: the model's replies by request key, each with the time it was
 * stored.  An entry older than the configured number of minutes is expired;
 * reading an expired entry removes it.  The clock is a parameter.
 */
module LlmCache {
  import opened JavaText

  datatype CacheEntry = CacheEntry(response: string, timestamp: int)

  /** TimeUnit.MINUTES.toMillis */
  function DurationMs(cacheTimeoutMinutes: int): int {
    cacheTimeoutMinutes * 60000
  }

  /** isExpired: strictly more than the duration has passed since the entry was stored. */
  predicate IsExpired(e: CacheEntry, now: int, durationMs: int) {
    now - e.timestamp > durationMs
  }

  /** get on a map of entries: the answer and the map afterwards. */
  function Lookup(m: map<string, CacheEntry>, key: string, now: int, cacheTimeoutMinutes: int)
    : (r: (Option<string>, map<string, CacheEntry>))
    ensures key !in m ==> r == (None, m)
    ensures key in m && IsExpired(m[key], now, DurationMs(cacheTimeoutMinutes)) ==> r == (None, m - {key})
    ensures key in m && !IsExpired(m[key], now, DurationMs(cacheTimeoutMinutes)) ==> r == (Some(m[key].response), m)
  {
    if key !in m then (None, m)
    else if IsExpired(m[key], now, DurationMs(cacheTimeoutMinutes)) then (None, m - {key})
    else (Some(m[key].response), m)
  }

  /** put on a map of entries: a null key or response changes nothing. */
  function Stored(m: map<string, CacheEntry>, key: Option<string>, response: Option<string>, now: int)
    : (r: map<string, CacheEntry>)
    ensures key.None? || response.None? ==> r == m
    ensures key.Some? && response.Some? ==> r == m[key.value := CacheEntry(response.value, now)]
  {
    if key.None? || response.None? then m else m[key.value := CacheEntry(response.value, now)]
  }

  /** get never changes another key's entry, and removes at most the key it reads. */
  lemma LookupTouchesOnlyItsKey(m: map<string, CacheEntry>, key: string, now: int, minutes: int)
    ensures Lookup(m, key, now, minutes).1.Keys <= m.Keys
    ensures forall k :: k in m && k != key ==> k in Lookup(m, key, now, minutes).1 && Lookup(m, key, now, minutes).1[k] == m[k]
    ensures Lookup(m, key, now, minutes).0.Some? <==> key in Lookup(m, key, now, minutes).1
  {
  }

  /** What was put is read back exactly while it has not expired, and after that never again. */
  lemma GetAfterPut(m: map<string, CacheEntry>, key: string, response: string, putTime: int, now: int, minutes: int)
    ensures Lookup(Stored(m, Some(key), Some(response), putTime), key, now, minutes).0 ==
            (if now - putTime <= DurationMs(minutes) then Some(response) else None)
  {
  }

  /** A put of one key leaves the answer for every other key as it was. */
  lemma PutKeepsOtherKeys(m: map<string, CacheEntry>, key: string, response: string, putTime: int,
                          other: string, now: int, minutes: int)
    requires other != key
    ensures Lookup(Stored(m, Some(key), Some(response), putTime), other, now, minutes).0 == Lookup(m, other, now, minutes).0
  {
  }

  /** Once expired, an entry stays expired as time goes on. */
  lemma ExpiryIsPermanent(e: CacheEntry, now: int, later: int, durationMs: int)
    requires now <= later && IsExpired(e, now, durationMs)
    ensures IsExpired(e, later, durationMs)
  {
  }

  /** The static map, as the one instance of this class. */
  class LLMCache {
    var cache: map<string, CacheEntry>

    constructor ()
      ensures cache == map[]
    {
      cache := map[];
    }

    /** get: null for a missing or expired key; an expired entry is removed. */
    method Get(key: string, now: int, cacheTimeoutMinutes: int) returns (r: Option<string>)
      modifies this
      ensures (r, cache) == Lookup(old(cache), key, now, cacheTimeoutMinutes)
    {
      if key !in cache || IsExpired(cache[key], now, DurationMs(cacheTimeoutMinutes)) {
        if key in cache {
          cache := cache - {key};
        }
        return None;
      }
      return Some(cache[key].response);
    }

    /** put: the entry for the key replaced, stamped with the current time. */
    method Put(key: Option<string>, response: Option<string>, now: int)
      modifies this
      ensures cache == Stored(old(cache), key, response, now)
    {
      if key.Some? && response.Some? {
        cache := cache[key.value := CacheEntry(response.value, now)];
      }
    }

    method Clear()
      modifies this
      ensures cache == map[] && Size() == 0
    {
      cache := map[];
    }

    function Size(): nat
      reads this
    {
      |cache|
    }
  }
}
