/**
 * ContextCacheManager: a two-tier cache of suggestions.  New entries go into
 * a cold tier of at most 200 keys; a key read from the cold tier twice is
 * promoted to a hot tier of at most 50 keys, whose eldest entry is demoted
 * back to the cold tier when it overflows.  Both tiers are access-ordered
 * `LinkedHashMap`s: a read or a put of a present key moves it to the end, and
 * the eldest (least recently accessed) pair is the one evicted.
 */
module ContextCache {
  import opened JavaText
  import opened OrderedMap

  const HotCacheSize: nat := 50
  const ColdCacheSize: nat := 200
  const CacheTtlMs: int := 5 * 60 * 1000
  const MinAccessCountForHot: nat := 2

  /** A cached suggestion; the semantic hash may be null. */
  datatype Entry = Entry(suggestion: string, timestamp: int, semanticHash: Option<string>)

  predicate IsExpired(e: Entry, now: int) {
    now - e.timestamp > CacheTtlMs
  }

  function Live(now: int): Entry -> bool {
    e => !IsExpired(e, now)
  }

  /** The manager's state: both tiers in access order and the access counts. */
  datatype Tiers = Tiers(hot: Assoc<string, Entry>, cold: Assoc<string, Entry>, accessCount: map<string, nat>)

  predicate WellFormed(t: Tiers) {
    KeysUnique(t.hot) && KeysUnique(t.cold) && |t.hot| <= HotCacheSize && |t.cold| <= ColdCacheSize
  }

  // ---------------------------------------------------------------------------
  // Access-ordered maps

  /** get on an access-ordered map: a present key moves to the end. */
  function Touch(m: Assoc<string, Entry>, k: string): (r: Assoc<string, Entry>)
  {
    var e := Get(m, k);
    if e.Some? then MoveLast(m, k, e.value) else m
  }

  /** A read reorders the map but keeps its pairs. */
  lemma TouchKeepsPairs(m: Assoc<string, Entry>, k: string)
    requires KeysUnique(m)
    ensures KeysUnique(Touch(m, k)) && |Touch(m, k)| == |m|
    ensures forall p :: p in Touch(m, k) <==> p in m
    ensures forall k' :: Get(Touch(m, k), k') == Get(m, k')
  {
    var e := Get(m, k);
    if e.Some? {
      MoveLastGet(m, k, e.value);
      MoveLastSamePairs(m, k);
    }
  }

  /**
   * put on an access-ordered map whose removeEldestEntry is size() > cap: a
   * present key takes the new value and moves to the end; a new key goes
   * last and, past the cap, the eldest pair leaves and is returned.
   */
  function PutLru(m: Assoc<string, Entry>, k: string, v: Entry, cap: nat): (r: (Assoc<string, Entry>, Option<(string, Entry)>))
  {
    if HasKey(m, k) then (MoveLast(m, k, v), None)
    else
      var added := m + [(k, v)];
      if |added| > cap then (added[1..], Some(added[0])) else (added, None)
  }

  /**
   * The map stays within its cap and answers for the new key; only a new
   * key past the cap evicts, and what it evicts is the eldest pair; every
   * other key keeps its value.
   */
  lemma PutLruGet(m: Assoc<string, Entry>, k: string, v: Entry, cap: nat)
    requires KeysUnique(m) && |m| <= cap && cap > 0
    ensures var r := PutLru(m, k, v, cap);
            KeysUnique(r.0) && |r.0| <= cap && Get(r.0, k) == Some(v)
    ensures var r := PutLru(m, k, v, cap);
            r.1.Some? <==> !HasKey(m, k) && |m| == cap
    ensures var r := PutLru(m, k, v, cap);
            r.1.Some? ==> r.1.value == m[0] && r.1.value.0 != k && !HasKey(r.0, m[0].0)
    ensures var r := PutLru(m, k, v, cap);
            forall k' :: k' != k && (r.1.None? || k' != r.1.value.0) ==> Get(r.0, k') == Get(m, k')
  {
    if HasKey(m, k) {
      MoveLastGet(m, k, v);
    } else {
      var added := m + [(k, v)];
      forall k' ensures Get(added, k') == if k' == k then Some(v) else Get(m, k') {
        GetAppend(m, k, v, k');
      }
      if |added| > cap {
        assert m[0].0 != k;
        DropFirstGet(added, k);
        DropFirstKeepsOthers(added);
        assert !HasKey(added[1..], m[0].0) by {
          forall j | 0 <= j < |added| - 1 ensures added[1..][j].0 != m[0].0 {
            assert added[1..][j] == added[j + 1];
          }
        }
        forall k' | k' != k && k' != m[0].0 ensures Get(added[1..], k') == Get(m, k') {
          if HasKey(added, k') {
            var i :| 0 <= i < |added| && added[i].0 == k';
            assert added[1..][i - 1].0 == k';
          }
        }
      }
    }
  }

  // ---------------------------------------------------------------------------
  // put, promotion and demotion

  /** coldCache.put: least recently accessed cold entry evicted past 200. */
  function ColdPut(t: Tiers, k: string, v: Entry): Tiers {
    t.(cold := PutLru(t.cold, k, v, ColdCacheSize).0)
  }

  /** hotCache.put: past 50, the eldest hot entry is demoted into the cold tier. */
  function HotPut(t: Tiers, k: string, v: Entry): Tiers {
    var (hot, demoted) := PutLru(t.hot, k, v, HotCacheSize);
    var t1 := t.(hot := hot);
    if demoted.Some? then ColdPut(t1, demoted.value.0, demoted.value.1) else t1
  }

  /** The demoted hot entry lands in the cold tier and the new key is hot. */
  lemma HotPutDemotes(t: Tiers, k: string, v: Entry)
    requires WellFormed(t)
    ensures WellFormed(HotPut(t, k, v)) && Get(HotPut(t, k, v).hot, k) == Some(v)
    ensures !HasKey(t.hot, k) && |t.hot| == HotCacheSize ==>
              var eldest := t.hot[0];
              !HasKey(HotPut(t, k, v).hot, eldest.0) && Get(HotPut(t, k, v).cold, eldest.0) == Some(eldest.1)
    ensures HasKey(t.hot, k) || |t.hot| < HotCacheSize ==> HotPut(t, k, v).cold == t.cold
  {
    PutLruGet(t.hot, k, v, HotCacheSize);
    var demoted := PutLru(t.hot, k, v, HotCacheSize).1;
    if demoted.Some? {
      PutLruGet(t.cold, demoted.value.0, demoted.value.1, ColdCacheSize);
    }
  }

  /** put: a null or blank suggestion is ignored; otherwise the entry goes into the cold tier only. */
  function Store(t: Tiers, key: string, suggestion: Option<string>, semanticKey: Option<string>, now: int): (r: Tiers)
    ensures suggestion.None? || IsBlank(suggestion.value) ==> r == t
  {
    if suggestion.None? || IsBlank(suggestion.value) then t
    else ColdPut(t, key, Entry(suggestion.value, now, semanticKey))
  }

  /** put keeps the tiers well formed, leaves the hot tier and the counts alone, and the cold tier answers with the entry. */
  lemma StoreGoesCold(t: Tiers, key: string, suggestion: Option<string>, semanticKey: Option<string>, now: int)
    requires WellFormed(t)
    ensures var r := Store(t, key, suggestion, semanticKey, now);
            WellFormed(r) && r.hot == t.hot && r.accessCount == t.accessCount
    ensures suggestion.Some? && !IsBlank(suggestion.value) ==>
              Get(Store(t, key, suggestion, semanticKey, now).cold, key) == Some(Entry(suggestion.value, now, semanticKey))
  {
    if suggestion.Some? && !IsBlank(suggestion.value) {
      PutLruGet(t.cold, key, Entry(suggestion.value, now, semanticKey), ColdCacheSize);
    }
  }

  /** accessCount.getOrDefault(key, 0) */
  function Count(counts: map<string, nat>, k: string): nat {
    if k in counts then counts[k] else 0
  }

  /** recordAccess: accessCount.merge(key, 1, Integer::sum). */
  function AccessRecorded(counts: map<string, nat>, k: string): map<string, nat> {
    counts[k := Count(counts, k) + 1]
  }

  /** recordAccess adds exactly one to the key's count and changes no other count. */
  lemma AccessRecordedCounts(counts: map<string, nat>, k: string, k': string)
    ensures Count(AccessRecorded(counts, k), k') == Count(counts, k') + (if k' == k then 1 else 0)
  {
  }

  /** promoteToHotIfNeeded: from two accesses on, the entry moves to the hot tier and leaves the cold one. */
  function Promoted(t: Tiers, k: string, e: Entry): Tiers {
    if Count(t.accessCount, k) >= MinAccessCountForHot then
      var t1 := HotPut(t, k, e);
      t1.(cold := Remove(t1.cold, k))
    else t
  }

  /** A promoted key lives in the hot tier only, with its entry. */
  lemma PromotedOneTier(t: Tiers, k: string, e: Entry)
    requires WellFormed(t)
    ensures WellFormed(Promoted(t, k, e)) && Promoted(t, k, e).accessCount == t.accessCount
    ensures Count(t.accessCount, k) >= MinAccessCountForHot ==>
              Get(Promoted(t, k, e).hot, k) == Some(e) && !HasKey(Promoted(t, k, e).cold, k)
    ensures Count(t.accessCount, k) < MinAccessCountForHot ==> Promoted(t, k, e) == t
  {
    if Count(t.accessCount, k) >= MinAccessCountForHot {
      var t1 := HotPut(t, k, e);
      HotPutDemotes(t, k, e);
      RemoveKeepsUnique(t1.cold, k);
      RemoveMembers(t1.cold, k);
    }
  }

  // ---------------------------------------------------------------------------
  // Semantic closeness

  /** The positions below `n` where both strings hold the same character. */
  function MatchesUpTo(a: string, b: string, n: nat): (r: nat)
    requires n <= |a| && n <= |b|
    ensures r <= n
  {
    if n == 0 then 0 else MatchesUpTo(a, b, n - 1) + (if a[n - 1] == b[n - 1] then 1 else 0)
  }

  function MinLength(a: string, b: string): nat {
    if |a| <= |b| then |a| else |b|
  }

  /**
   * isSemanticallyClose: false for a null hash or an empty shorter one;
   * otherwise the positional matches reach 80% of the longer length,
   * matches / maxLen >= 0.8 written as 5 * matches >= 4 * maxLen.
   */
  predicate SemanticallyClose(hash1: Option<string>, hash2: Option<string>) {
    if hash1.None? || hash2.None? then false
    else
      var a := hash1.value;
      var b := hash2.value;
      var minLen := MinLength(a, b);
      minLen > 0 && 5 * MatchesUpTo(a, b, minLen) >= 4 * Max(|a|, |b|)
  }

  /** The counting loop of isSemanticallyClose. */
  method IsSemanticallyClose(hash1: Option<string>, hash2: Option<string>) returns (close: bool)
    ensures close == SemanticallyClose(hash1, hash2)
  {
    if hash1.None? || hash2.None? {
      return false;
    }
    var a := hash1.value;
    var b := hash2.value;
    var minLen := MinLength(a, b);
    var maxLen := Max(|a|, |b|);
    if minLen == 0 {
      return false;
    }
    var matches := 0;
    for i := 0 to minLen
      invariant matches == MatchesUpTo(a, b, i)
    {
      if a[i] == b[i] {
        matches := matches + 1;
      }
    }
    return 5 * matches >= 4 * maxLen;
  }

  lemma {:induction false} MatchesUpToSymmetric(a: string, b: string, n: nat)
    requires n <= |a| && n <= |b|
    ensures MatchesUpTo(a, b, n) == MatchesUpTo(b, a, n)
  {
    if n > 0 {
      MatchesUpToSymmetric(a, b, n - 1);
    }
  }

  lemma {:induction false} MatchesUpToSelf(a: string, n: nat)
    requires n <= |a|
    ensures MatchesUpTo(a, a, n) == n
  {
    if n > 0 {
      MatchesUpToSelf(a, n - 1);
    }
  }

  /** Closeness does not depend on the order of the two hashes. */
  lemma SemanticallyCloseSymmetric(hash1: Option<string>, hash2: Option<string>)
    ensures SemanticallyClose(hash1, hash2) == SemanticallyClose(hash2, hash1)
  {
    if hash1.Some? && hash2.Some? {
      MatchesUpToSymmetric(hash1.value, hash2.value, MinLength(hash1.value, hash2.value));
    }
  }

  /** A hash is close to itself exactly when it is non-empty. */
  lemma SemanticallyCloseSelf(hash: string)
    ensures SemanticallyClose(Some(hash), Some(hash)) <==> hash != []
  {
    MatchesUpToSelf(hash, |hash|);
  }

  /** Close hashes differ in length by at most a fifth of the longer one. */
  lemma SemanticallyCloseLengths(a: string, b: string)
    requires SemanticallyClose(Some(a), Some(b))
    ensures 5 * MinLength(a, b) >= 4 * Max(|a|, |b|)
  {
  }

  /** The first entry, in iteration order, whose semantic hash is close to `key`. */
  function FirstClose(m: Assoc<string, Entry>, key: string): (r: Option<string>)
    ensures r.None? <==> forall i :: 0 <= i < |m| ==> !SemanticallyClose(Some(key), m[i].1.semanticHash)
    ensures r.Some? ==> exists i :: 0 <= i < |m| && SemanticallyClose(Some(key), m[i].1.semanticHash) &&
                          m[i].1.suggestion == r.value &&
                          forall j :: 0 <= j < i ==> !SemanticallyClose(Some(key), m[j].1.semanticHash)
  {
    if m == [] then None
    else if SemanticallyClose(Some(key), m[0].1.semanticHash) then Some(m[0].1.suggestion)
    else
      var r := FirstClose(m[1..], key);
      assert forall i :: 1 <= i < |m| ==> m[i] == m[1..][i - 1];
      r
  }

  /** findSimilarInCache: null for a null or empty key, else the first close entry of the hot tier. */
  function FindSimilar(hot: Assoc<string, Entry>, semanticKey: Option<string>): (r: Option<string>)
  {
    if semanticKey.None? || semanticKey.value == [] then None else FirstClose(hot, semanticKey.value)
  }

  // ---------------------------------------------------------------------------
  // get, cleanExpired, clear

  /**
   * get: a live hot entry answers; then a live cold entry answers, counts an
   * access and may be promoted; then the semantic scan of the hot tier.  Both
   * reads reorder their tier whether or not the entry has expired.
   */
  function Lookup(t: Tiers, key: string, semanticKey: Option<string>, now: int): (r: (Option<string>, Tiers))
  {
    var fromHot := Get(t.hot, key);
    var hot := Touch(t.hot, key);
    if fromHot.Some? && !IsExpired(fromHot.value, now) then
      (Some(fromHot.value.suggestion), t.(hot := hot, accessCount := AccessRecorded(t.accessCount, key)))
    else
      var fromCold := Get(t.cold, key);
      var t1 := t.(hot := hot, cold := Touch(t.cold, key));
      if fromCold.Some? && !IsExpired(fromCold.value, now) then
        (Some(fromCold.value.suggestion), Promoted(t1.(accessCount := AccessRecorded(t.accessCount, key)), key, fromCold.value))
      else (FindSimilar(hot, semanticKey), t1)
  }

  /** get keeps the tiers well formed. */
  lemma LookupKeepsWellFormed(t: Tiers, key: string, semanticKey: Option<string>, now: int)
    requires WellFormed(t)
    ensures WellFormed(Lookup(t, key, semanticKey, now).1)
  {
    TouchKeepsPairs(t.hot, key);
    TouchKeepsPairs(t.cold, key);
    var t1 := t.(hot := Touch(t.hot, key), cold := Touch(t.cold, key), accessCount := AccessRecorded(t.accessCount, key));
    var fromCold := Get(t.cold, key);
    if fromCold.Some? {
      PromotedOneTier(t1, key, fromCold.value);
    }
  }

  /** The hot tier is asked first: a live hot entry answers, its access counted, the cold tier untouched. */
  lemma LookupHotFirst(t: Tiers, key: string, semanticKey: Option<string>, now: int)
    requires WellFormed(t)
    requires Get(t.hot, key).Some? && !IsExpired(Get(t.hot, key).value, now)
    ensures var r := Lookup(t, key, semanticKey, now);
            r.0 == Some(Get(t.hot, key).value.suggestion) && r.1.cold == t.cold &&
            Count(r.1.accessCount, key) == Count(t.accessCount, key) + 1 &&
            forall p :: p in r.1.hot <==> p in t.hot
  {
    TouchKeepsPairs(t.hot, key);
  }

  /**
   * A live cold entry answers when the hot tier has none; its access is
   * counted, and from the second access on it lives in the hot tier only.
   */
  lemma LookupColdHit(t: Tiers, key: string, semanticKey: Option<string>, now: int)
    requires WellFormed(t)
    requires Get(t.hot, key).None? || IsExpired(Get(t.hot, key).value, now)
    requires Get(t.cold, key).Some? && !IsExpired(Get(t.cold, key).value, now)
    ensures var r := Lookup(t, key, semanticKey, now);
            var e := Get(t.cold, key).value;
            r.0 == Some(e.suggestion) &&
            Count(r.1.accessCount, key) == Count(t.accessCount, key) + 1 &&
            (Count(t.accessCount, key) + 1 >= MinAccessCountForHot ==>
               Get(r.1.hot, key) == Some(e) && !HasKey(r.1.cold, key)) &&
            (Count(t.accessCount, key) + 1 < MinAccessCountForHot ==>
               Get(r.1.hot, key) == Get(t.hot, key) && Get(r.1.cold, key) == Some(e))
  {
    TouchKeepsPairs(t.hot, key);
    TouchKeepsPairs(t.cold, key);
    var t1 := t.(hot := Touch(t.hot, key), cold := Touch(t.cold, key), accessCount := AccessRecorded(t.accessCount, key));
    PromotedOneTier(t1, key, Get(t.cold, key).value);
  }

  /**
   * With no live entry in either tier, expired entries are skipped but not
   * removed: both tiers keep their pairs, the counts are unchanged, and any
   * answer comes from a hot entry whose hash is close to the semantic key.
   */
  lemma LookupMissKeepsEntries(t: Tiers, key: string, semanticKey: Option<string>, now: int)
    requires WellFormed(t)
    requires Get(t.hot, key).None? || IsExpired(Get(t.hot, key).value, now)
    requires Get(t.cold, key).None? || IsExpired(Get(t.cold, key).value, now)
    ensures var r := Lookup(t, key, semanticKey, now);
            r.1.accessCount == t.accessCount &&
            (forall p :: p in r.1.hot <==> p in t.hot) &&
            (forall p :: p in r.1.cold <==> p in t.cold)
    ensures var r := Lookup(t, key, semanticKey, now);
            r.0.Some? ==>
              (semanticKey.Some? &&
               exists p :: p in t.hot && p.1.suggestion == r.0.value && SemanticallyClose(semanticKey, p.1.semanticHash))
  {
    TouchKeepsPairs(t.hot, key);
    TouchKeepsPairs(t.cold, key);
    var r := Lookup(t, key, semanticKey, now);
    if r.0.Some? {
      var hot := Touch(t.hot, key);
      var i :| 0 <= i < |hot| && SemanticallyClose(semanticKey, hot[i].1.semanticHash) && hot[i].1.suggestion == r.0.value;
      assert hot[i] in t.hot;
    }
  }

  /** A put does not reach a key already in the hot tier: a live hot entry still answers get. */
  lemma HotEntryShadowsPut(t: Tiers, key: string, suggestion: string, semanticKey: Option<string>, now: int)
    requires WellFormed(t) && !IsBlank(suggestion)
    requires Get(t.hot, key).Some? && !IsExpired(Get(t.hot, key).value, now)
    ensures Lookup(Store(t, key, Some(suggestion), semanticKey, now), key, semanticKey, now).0 ==
              Some(Get(t.hot, key).value.suggestion)
  {
    StoreGoesCold(t, key, Some(suggestion), semanticKey, now);
  }

  /** cleanExpired: both tiers keep only their unexpired entries, in order. */
  function Cleaned(t: Tiers, now: int): Tiers {
    t.(hot := Filter(t.hot, Live(now)), cold := Filter(t.cold, Live(now)))
  }

  /** cleanExpired keeps exactly the unexpired pairs of each tier, and the tiers well formed. */
  lemma CleanedKeepsLive(t: Tiers, now: int)
    requires WellFormed(t)
    ensures var r := Cleaned(t, now);
            WellFormed(r) &&
            (forall p :: p in r.hot <==> p in t.hot && !IsExpired(p.1, now)) &&
            (forall p :: p in r.cold <==> p in t.cold && !IsExpired(p.1, now))
  {
    FilterKeepsUnique(t.hot, Live(now));
    FilterKeepsUnique(t.cold, Live(now));
  }

  // ---------------------------------------------------------------------------
  // The manager

  /** ContextCacheManager: the two tiers and the access counts as fields. */
  class ContextCacheManager {
    var hotCache: Assoc<string, Entry>
    var coldCache: Assoc<string, Entry>
    var accessCount: map<string, nat>

    function State(): Tiers
      reads this
    {
      Tiers(hotCache, coldCache, accessCount)
    }

    constructor ()
      ensures State() == Tiers([], [], map[])
    {
      hotCache := [];
      coldCache := [];
      accessCount := map[];
    }

    /** get */
    method Get(contextKey: string, semanticKey: Option<string>, now: int) returns (r: Option<string>)
      modifies this
      ensures (r, State()) == Lookup(old(State()), contextKey, semanticKey, now)
    {
      var entry := GetFromHotCache(contextKey);
      if entry.Some? && !IsExpired(entry.value, now) {
        RecordAccess(contextKey);
        return Some(entry.value.suggestion);
      }
      entry := GetFromColdCache(contextKey);
      if entry.Some? && !IsExpired(entry.value, now) {
        RecordAccess(contextKey);
        PromoteToHotIfNeeded(contextKey, entry.value);
        return Some(entry.value.suggestion);
      }
      var similarResult := FindSimilarInCache(semanticKey);
      if similarResult.Some? {
        return similarResult;
      }
      return None;
    }

    /** put */
    method Put(contextKey: string, suggestion: Option<string>, semanticKey: Option<string>, now: int)
      modifies this
      ensures State() == Store(old(State()), contextKey, suggestion, semanticKey, now)
    {
      if suggestion.None? || IsBlank(suggestion.value) {
        return;
      }
      var entry := Entry(suggestion.value, now, semanticKey);
      PutCold(contextKey, entry);
    }

    /** getFromHotCache: hotCache.get, which moves a present key to the end. */
    method GetFromHotCache(key: string) returns (e: Option<Entry>)
      modifies this
      ensures e == OrderedMap.Get(old(hotCache), key) && hotCache == Touch(old(hotCache), key)
      ensures coldCache == old(coldCache) && accessCount == old(accessCount)
    {
      e := OrderedMap.Get(hotCache, key);
      if e.Some? {
        hotCache := MoveLast(hotCache, key, e.value);
      }
    }

    /** getFromColdCache: coldCache.get, which moves a present key to the end. */
    method GetFromColdCache(key: string) returns (e: Option<Entry>)
      modifies this
      ensures e == OrderedMap.Get(old(coldCache), key) && coldCache == Touch(old(coldCache), key)
      ensures hotCache == old(hotCache) && accessCount == old(accessCount)
    {
      e := OrderedMap.Get(coldCache, key);
      if e.Some? {
        coldCache := MoveLast(coldCache, key, e.value);
      }
    }

    /** recordAccess */
    method RecordAccess(key: string)
      modifies this
      ensures accessCount == AccessRecorded(old(accessCount), key)
      ensures hotCache == old(hotCache) && coldCache == old(coldCache)
    {
      accessCount := accessCount[key := Count(accessCount, key) + 1];
    }

    /** promoteToHotIfNeeded */
    method PromoteToHotIfNeeded(key: string, entry: Entry)
      modifies this
      ensures State() == Promoted(old(State()), key, entry)
    {
      var count := Count(accessCount, key);
      if count >= MinAccessCountForHot {
        PutHot(key, entry);
        coldCache := Remove(coldCache, key);
      }
    }

    /** hotCache.put with its removeEldestEntry, which demotes the eldest entry to the cold tier. */
    method PutHot(key: string, entry: Entry)
      modifies this
      ensures State() == HotPut(old(State()), key, entry)
    {
      if HasKey(hotCache, key) {
        hotCache := MoveLast(hotCache, key, entry);
      } else {
        hotCache := hotCache + [(key, entry)];
        if |hotCache| > HotCacheSize {
          var eldest := hotCache[0];
          PutCold(eldest.0, eldest.1);
          hotCache := hotCache[1..];
        }
      }
    }

    /** coldCache.put with its removeEldestEntry, which evicts past 200. */
    method PutCold(key: string, entry: Entry)
      modifies this
      ensures State() == ColdPut(old(State()), key, entry)
    {
      if HasKey(coldCache, key) {
        coldCache := MoveLast(coldCache, key, entry);
      } else {
        coldCache := coldCache + [(key, entry)];
        if |coldCache| > ColdCacheSize {
          coldCache := coldCache[1..];
        }
      }
    }

    /** findSimilarInCache: the scan of the hot tier in iteration order. */
    method FindSimilarInCache(semanticKey: Option<string>) returns (r: Option<string>)
      ensures r == FindSimilar(hotCache, semanticKey)
    {
      if semanticKey.None? || semanticKey.value == [] {
        return None;
      }
      var i := 0;
      while i < |hotCache|
        invariant 0 <= i <= |hotCache|
        invariant FirstClose(hotCache, semanticKey.value) == FirstClose(hotCache[i..], semanticKey.value)
      {
        var close := IsSemanticallyClose(semanticKey, hotCache[i].1.semanticHash);
        if close {
          return Some(hotCache[i].1.suggestion);
        }
        assert hotCache[i..][1..] == hotCache[i + 1..];
        i := i + 1;
      }
      return None;
    }

    /** cleanExpired */
    method CleanExpired(now: int)
      modifies this
      ensures State() == Cleaned(old(State()), now)
    {
      hotCache := Filter(hotCache, Live(now));
      coldCache := Filter(coldCache, Live(now));
    }

    /** clear */
    method Clear()
      modifies this
      ensures State() == Tiers([], [], map[])
    {
      hotCache := [];
      coldCache := [];
      accessCount := map[];
    }
  }
}
