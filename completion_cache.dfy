/**
 * CompletionCacheManager: three caches of completion suggestions, consulted
 * in the order exact key, file and method, fuzzy key.  The exact cache holds
 * at most 100 entries and evicts its least-used entry; the fuzzy cache holds
 * at most 50 keys and drops its eldest; the file cache is meant to hold 20
 * files but drops its eldest only when that one has expired.
 *
 * The state transitions are functions on a `Caches` value; the class
 * `CompletionCacheManager` holds the three maps as fields and its methods are
 * proved to perform exactly those transitions.  The current time is a
 * parameter.
 */
module CompletionCache {
  import opened JavaText
  import opened OrderedMap
  import opened EditorContext
  import opened CompletionText

  const MaxExactCacheSize := 100
  const MaxFuzzyCacheSize := 50
  const MaxFileCacheSize := 20
  const CacheTtlMs := 60000
  const FileCacheTtlMs := 300000
  /** A fuzzy candidate must score strictly more than this. */
  const FuzzyThreshold := 70

  /** CacheEntry */
  datatype CacheEntry = CacheEntry(context: Option<string>, suggestion: string, timestamp: int,
                                   useCount: int, cacheKey: string)

  /** `new CacheEntry(context, suggestion, cacheKey)` at time `now`. */
  function NewEntry(context: Option<string>, suggestion: string, cacheKey: string, now: int): CacheEntry {
    CacheEntry(context, suggestion, now, 1, cacheKey)
  }

  /** CacheEntry.withIncrementedUse: one more use, the same creation time. */
  function WithIncrementedUse(e: CacheEntry): (r: CacheEntry)
    ensures r.useCount == e.useCount + 1
    ensures r.timestamp == e.timestamp && r.suggestion == e.suggestion
    ensures r.context == e.context && r.cacheKey == e.cacheKey
  {
    e.(useCount := e.useCount + 1)
  }

  /** CacheEntry.isExpired(ttl): older than `ttl`, strictly. */
  predicate IsExpired(e: CacheEntry, now: int, ttl: int) {
    now - e.timestamp > ttl
  }

  /** FileCache: the entries of one file by method name, and when the file was last used. */
  datatype FileCache = FileCache(methodCache: Assoc<string, CacheEntry>, lastAccess: int)

  /** FileCache.isExpired */
  predicate FileExpired(fc: FileCache, now: int) {
    now - fc.lastAccess > FileCacheTtlMs
  }

  datatype Caches = Caches(exact: Assoc<string, CacheEntry>,
                           fuzzy: Assoc<string, seq<CacheEntry>>,
                           files: Assoc<string, FileCache>)

  /** The invariant the manager keeps: no key twice, and the two enforced caps. */
  predicate WellFormed(c: Caches) {
    KeysUnique(c.exact) && KeysUnique(c.fuzzy) && KeysUnique(c.files) &&
    |c.exact| <= MaxExactCacheSize && |c.fuzzy| <= MaxFuzzyCacheSize
  }

  /** The file cache is keyed by file name; ConcurrentHashMap refuses a null key. */
  predicate HasFileName(ctx: Option<CodeContext>) {
    ctx.Some? ==> ctx.value.fileName.Some?
  }

  // ---------------------------------------------------------------------------
  // evictLeastUsedEntry

  /** The entry the scan of evictLeastUsedEntry settles on: the first with the smallest use count. */
  function LeastUsedIndex(m: Assoc<string, CacheEntry>): (i: nat)
    requires m != []
    ensures i < |m|
    ensures forall j :: 0 <= j < |m| ==> m[i].1.useCount <= m[j].1.useCount
    ensures forall j :: 0 <= j < i ==> m[j].1.useCount > m[i].1.useCount
    decreases |m|
  {
    if |m| == 1 then 0
    else
      var i := LeastUsedIndex(m[..|m| - 1]);
      assert forall j :: 0 <= j < |m| - 1 ==> m[..|m| - 1][j] == m[j];
      if m[|m| - 1].1.useCount < m[i].1.useCount then |m| - 1 else i
  }

  /** The loop of evictLeastUsedEntry: the key of the least-used entry, None for an empty map. */
  method LeastUsedKey(m: Assoc<string, CacheEntry>) returns (key: Option<string>)
    ensures m == [] ==> key.None?
    ensures m != [] ==> key == Some(m[LeastUsedIndex(m)].0)
  {
    if m == [] {
      return None;
    }
    var least := 0;
    var i := 1;
    while i < |m|
      invariant 1 <= i <= |m|
      invariant least == LeastUsedIndex(m[..i])
    {
      assert m[..i + 1][..i] == m[..i];
      if m[i].1.useCount < m[least].1.useCount {
        least := i;
      }
      i := i + 1;
    }
    assert m[..|m|] == m;
    return Some(m[least].0);
  }

  /** evictLeastUsedEntry as a function of the map. */
  function EvictLeastUsed(m: Assoc<string, CacheEntry>): (r: Assoc<string, CacheEntry>)
    ensures m == [] ==> r == []
  {
    if m == [] then [] else Remove(m, m[LeastUsedIndex(m)].0)
  }

  /**
   * With unique keys, eviction removes exactly the least-used entry (the first
   * of several equally unused ones) and keeps the others in order.
   */
  lemma EvictRemovesLeastUsed(m: Assoc<string, CacheEntry>)
    requires m != [] && KeysUnique(m)
    ensures var i := LeastUsedIndex(m);
            EvictLeastUsed(m) == m[..i] + m[i + 1..] && KeysUnique(EvictLeastUsed(m))
  {
    var i := LeastUsedIndex(m);
    var k := m[i].0;
    IndexOfFound(m, k);
    assert IndexOf(m, k) == i;
    RemovePresent(m, k);
    RemoveKeepsUnique(m, k);
  }

  // ---------------------------------------------------------------------------
  // getFuzzyMatch

  /** A candidate the scan considers: one that has not expired. */
  predicate Eligible(e: CacheEntry, now: int) {
    !IsExpired(e, now, CacheTtlMs)
  }

  /** What the scan sees of each candidate: its score, or -1 when it has expired and is skipped. */
  function CandidateScores(pre: Option<string>, cs: seq<CacheEntry>, now: int): (r: seq<int>)
    ensures |r| == |cs|
    ensures forall j :: 0 <= j < |cs| ==> r[j] == if Eligible(cs[j], now) then Similarity(pre, cs[j].context) else -1
  {
    seq(|cs|, j requires 0 <= j < |cs| => if Eligible(cs[j], now) then Similarity(pre, cs[j].context) else -1)
  }

  /**
   * The scan of getFuzzyMatch over the scores: the index of the best candidate
   * so far (-1 for none) and its score.  A candidate replaces the best only
   * with a strictly higher score, so the earliest of equally good ones wins.
   */
  function BestSoFar(scores: seq<int>): (r: (int, int))
    ensures -1 <= r.0 < |scores| && r.1 >= 0
    ensures r.0 == -1 ==> r.1 == 0 && forall j :: 0 <= j < |scores| ==> scores[j] <= 0
    ensures r.0 >= 0 ==>
              r.1 == scores[r.0] > 0 &&
              (forall j :: 0 <= j < |scores| ==> scores[j] <= r.1) &&
              (forall j :: 0 <= j < r.0 ==> scores[j] < r.1)
    decreases |scores|
  {
    if scores == [] then (-1, 0)
    else
      var front := scores[..|scores| - 1];
      var prev := BestSoFar(front);
      assert forall j :: 0 <= j < |scores| - 1 ==> front[j] == scores[j];
      var score := scores[|scores| - 1];
      if score > prev.1 then (|scores| - 1, score) else prev
  }

  /** One more step of the scan. */
  lemma BestSoFarStep(scores: seq<int>, i: nat)
    requires i < |scores|
    ensures var prev := BestSoFar(scores[..i]);
            BestSoFar(scores[..i + 1]) == if scores[i] > prev.1 then (i, scores[i]) else prev
  {
    assert scores[..i + 1][..i] == scores[..i];
  }

  /**
   * The candidate getFuzzyMatch answers with: the first of the highest-scoring
   * ones, provided its score is above 70.
   */
  function BestAbove(scores: seq<int>): (r: Option<nat>)
    ensures r.Some? <==> exists j :: 0 <= j < |scores| && scores[j] > FuzzyThreshold
    ensures r.Some? ==>
              r.value < |scores| &&
              (forall j :: 0 <= j < |scores| ==> scores[j] <= scores[r.value]) &&
              (forall j :: 0 <= j < r.value ==> scores[j] < scores[r.value])
  {
    var best := BestSoFar(scores);
    if best.0 >= 0 && best.1 > FuzzyThreshold then Some(best.0 as nat) else None
  }

  /** The outcome of getFuzzyMatch for a candidate list. */
  function FuzzyMatch(pre: Option<string>, cs: seq<CacheEntry>, now: int): (r: Option<string>)
    ensures var i := BestAbove(CandidateScores(pre, cs, now));
            r == if i.Some? then Some(cs[i.value].suggestion) else None
  {
    var i := BestAbove(CandidateScores(pre, cs, now));
    if i.Some? then Some(cs[i.value].suggestion) else None
  }

  /** A candidate that answers has not expired: expired ones score -1. */
  lemma FuzzyAnswerEligible(pre: Option<string>, cs: seq<CacheEntry>, now: int)
    requires BestAbove(CandidateScores(pre, cs, now)).Some?
    ensures Eligible(cs[BestAbove(CandidateScores(pre, cs, now)).value], now)
  {
  }

  /** The answer read off the finished scan. */
  lemma BestAboveOfScan(scores: seq<int>)
    ensures var best := BestSoFar(scores);
            BestAbove(scores) == if best.0 >= 0 && best.1 > FuzzyThreshold then Some(best.0 as nat) else None
  {
  }

  /** The loop of getFuzzyMatch, scoring each unexpired candidate with the DP table. */
  method BestCandidate(pre: Option<string>, cs: seq<CacheEntry>, now: int) returns (r: Option<string>)
    ensures r == FuzzyMatch(pre, cs, now)
  {
    ghost var scores := CandidateScores(pre, cs, now);
    var best := -1;
    var bestScore := 0;
    var i := 0;
    while i < |cs|
      invariant 0 <= i <= |cs|
      invariant (best, bestScore) == BestSoFar(scores[..i])
    {
      BestSoFarStep(scores, i);
      var candidate := cs[i];
      if !IsExpired(candidate, now, CacheTtlMs) {
        var score := CalculateSimilarity(pre, candidate.context);
        assert score == scores[i];
        if score > bestScore {
          bestScore := score;
          best := i;
        }
      }
      i := i + 1;
    }
    assert scores[..|cs|] == scores;
    BestAboveOfScan(scores);
    if best >= 0 && bestScore > FuzzyThreshold {
      return Some(cs[best].suggestion);
    }
    return None;
  }

  /** getFuzzyMatch: the candidates stored under the context's fuzzy key. */
  function FuzzyLookup(c: Caches, ctx: CodeContext, now: int): Option<string> {
    var candidates := Get(c.fuzzy, GenerateFuzzyKey(ctx));
    if candidates.None? then None else FuzzyMatch(ctx.precedingCode, candidates.value, now)
  }

  // ---------------------------------------------------------------------------
  // getFromFileCache and cacheToFileLevel

  /**
   * getFromFileCache: an unexpired file is touched; its entry for the current
   * method answers when that entry is younger than the file TTL.
   */
  function FileLookup(files: Assoc<string, FileCache>, ctx: CodeContext, now: int): (r: (Option<string>, Assoc<string, FileCache>))
    requires ctx.fileName.Some?
    ensures r.0.Some? ==> HasKey(files, ctx.fileName.value) && ctx.currentMethodName.Some?
    ensures |r.1| == |files|
  {
    var name := ctx.fileName.value;
    var fc := Get(files, name);
    if fc.Some? && !FileExpired(fc.value, now) then
      var touched := Put(files, name, fc.value.(lastAccess := now));
      var entry := if ctx.currentMethodName.Some? then Get(fc.value.methodCache, ctx.currentMethodName.value) else None;
      if entry.Some? && !IsExpired(entry.value, now, FileCacheTtlMs) then (Some(entry.value.suggestion), touched)
      else (None, touched)
    else (None, files)
  }

  /** The file entry cacheToFileLevel leaves for the context's file. */
  function StoredFileCache(files: Assoc<string, FileCache>, ctx: CodeContext, suggestion: string,
                           cacheKey: string, now: int): (fc: FileCache)
    requires ctx.fileName.Some?
    ensures fc.lastAccess == now
    ensures ctx.currentMethodName.Some? ==>
              Get(fc.methodCache, ctx.currentMethodName.value) == Some(NewEntry(ctx.precedingCode, suggestion, cacheKey, now))
  {
    var existing := Get(files, ctx.fileName.value);
    var fc := if existing.Some? then existing.value.(lastAccess := now) else FileCache([], now);
    if ctx.currentMethodName.Some? then
      var m := fc.methodCache;
      var e := NewEntry(ctx.precedingCode, suggestion, cacheKey, now);
      PutGetSame(m, ctx.currentMethodName.value, e);
      fc.(methodCache := Put(m, ctx.currentMethodName.value, e))
    else fc
  }

  /**
   * cacheToFileLevel: the file's entry is stored (or refreshed) in place; past
   * 20 files the eldest is dropped, but only when it has expired.
   */
  function StoreFileLevel(files: Assoc<string, FileCache>, ctx: CodeContext, suggestion: string,
                          cacheKey: string, now: int): (r: Assoc<string, FileCache>)
    requires ctx.fileName.Some?
  {
    var name := ctx.fileName.value;
    var stored := Put(files, name, StoredFileCache(files, ctx, suggestion, cacheKey, now));
    if |stored| > MaxFileCacheSize && FileExpired(stored[0].1, now) then DropFirst(stored) else stored
  }

  /** The file just stored is never the one dropped, and it holds the new entry. */
  lemma StoreFileLevelKeepsFile(files: Assoc<string, FileCache>, ctx: CodeContext, suggestion: string,
                                cacheKey: string, now: int)
    requires ctx.fileName.Some? && KeysUnique(files)
    ensures KeysUnique(StoreFileLevel(files, ctx, suggestion, cacheKey, now))
    ensures Get(StoreFileLevel(files, ctx, suggestion, cacheKey, now), ctx.fileName.value) ==
              Some(StoredFileCache(files, ctx, suggestion, cacheKey, now))
  {
    var name := ctx.fileName.value;
    var fc := StoredFileCache(files, ctx, suggestion, cacheKey, now);
    var stored := Put(files, name, fc);
    PutKeepsUnique(files, name, fc);
    PutGet(files, name, fc, name);
    if |stored| > MaxFileCacheSize && FileExpired(stored[0].1, now) {
      assert stored[0].0 != name;
      DropFirstGet(stored, name);
    }
  }

  /**
   * The file cap is not enforced: with 20 files whose eldest has not expired,
   * storing a suggestion for a new file leaves 21.
   */
  lemma FileCacheCanExceedCap(files: Assoc<string, FileCache>, ctx: CodeContext, suggestion: string,
                              cacheKey: string, now: int)
    requires ctx.fileName.Some? && !HasKey(files, ctx.fileName.value)
    requires |files| == MaxFileCacheSize && !FileExpired(files[0].1, now)
    ensures |StoreFileLevel(files, ctx, suggestion, cacheKey, now)| == MaxFileCacheSize + 1
  {
    var fc := StoredFileCache(files, ctx, suggestion, cacheKey, now);
    assert Put(files, ctx.fileName.value, fc)[0] == files[0];
  }

  // ---------------------------------------------------------------------------
  // getCachedSuggestion

  /** The unexpired exact entry for a key, if any. */
  function ExactHit(exact: Assoc<string, CacheEntry>, key: string, now: int): (r: Option<CacheEntry>)
    ensures r.Some? ==> Get(exact, key) == r && !IsExpired(r.value, now, CacheTtlMs)
    ensures r.None? ==> Get(exact, key).None? || IsExpired(Get(exact, key).value, now, CacheTtlMs)
  {
    var e := Get(exact, key);
    if e.Some? && !IsExpired(e.value, now, CacheTtlMs) then e else None
  }

  /** The pairs of a fuzzy list that have not expired (list.removeIf(CacheEntry::isExpired)). */
  function LiveEntries(l: seq<CacheEntry>, now: int): (r: seq<CacheEntry>)
    ensures |r| <= |l|
    ensures forall e :: e in r <==> e in l && !IsExpired(e, now, CacheTtlMs)
  {
    if l == [] then []
    else if IsExpired(l[0], now, CacheTtlMs) then LiveEntries(l[1..], now)
    else [l[0]] + LiveEntries(l[1..], now)
  }

  /** Every fuzzy list with its expired entries removed; keys and order kept. */
  function PruneLists(m: Assoc<string, seq<CacheEntry>>, now: int): (r: Assoc<string, seq<CacheEntry>>)
    ensures |r| == |m|
    ensures forall i :: 0 <= i < |m| ==> r[i] == (m[i].0, LiveEntries(m[i].1, now))
  {
    if m == [] then []
    else [(m[0].0, LiveEntries(m[0].1, now))] + PruneLists(m[1..], now)
  }

  lemma {:induction false} PruneListsKeys(m: Assoc<string, seq<CacheEntry>>, now: int)
    requires KeysUnique(m)
    ensures KeysUnique(PruneLists(m, now))
  {
    var r := PruneLists(m, now);
    assert forall i :: 0 <= i < |r| ==> r[i].0 == m[i].0;
  }

  function Unexpired(now: int): CacheEntry -> bool {
    e => !IsExpired(e, now, CacheTtlMs)
  }

  function FileAlive(now: int): FileCache -> bool {
    fc => !FileExpired(fc, now)
  }

  function NonEmpty(): seq<CacheEntry> -> bool {
    l => l != []
  }

  /** cleanupExpiredEntries: expired entries, emptied fuzzy lists and expired files go. */
  function Cleanup(c: Caches, now: int): (r: Caches)
    ensures forall p :: p in r.exact <==> p in c.exact && !IsExpired(p.1, now, CacheTtlMs)
    ensures forall p :: p in r.files <==> p in c.files && !FileExpired(p.1, now)
    ensures forall p :: p in r.fuzzy ==> p.1 != [] && forall e :: e in p.1 ==> !IsExpired(e, now, CacheTtlMs)
    ensures forall k, l :: (k, l) in c.fuzzy && LiveEntries(l, now) != [] ==> (k, LiveEntries(l, now)) in r.fuzzy
    ensures forall p :: p in r.fuzzy ==> exists l :: (p.0, l) in c.fuzzy && p.1 == LiveEntries(l, now)
    ensures |r.exact| <= |c.exact| && |r.fuzzy| <= |c.fuzzy| && |r.files| <= |c.files|
  {
    var pruned := PruneLists(c.fuzzy, now);
    var fuzzy := Filter(pruned, NonEmpty());
    assert forall p :: p in fuzzy ==> p in pruned;
    forall k, l | (k, l) in c.fuzzy && LiveEntries(l, now) != []
      ensures (k, LiveEntries(l, now)) in fuzzy
    {
      var i :| 0 <= i < |c.fuzzy| && c.fuzzy[i] == (k, l);
      assert pruned[i] == (k, LiveEntries(l, now));
    }
    forall p | p in fuzzy
      ensures exists l :: (p.0, l) in c.fuzzy && p.1 == LiveEntries(l, now)
    {
      var i :| 0 <= i < |pruned| && pruned[i] == p;
      assert c.fuzzy[i] in c.fuzzy;
    }
    Caches(Filter(c.exact, Unexpired(now)), fuzzy, Filter(c.files, FileAlive(now)))
  }

  lemma CleanupKeepsWellFormed(c: Caches, now: int)
    requires WellFormed(c)
    ensures WellFormed(Cleanup(c, now))
  {
    FilterKeepsUnique(c.exact, Unexpired(now));
    PruneListsKeys(c.fuzzy, now);
    FilterKeepsUnique(PruneLists(c.fuzzy, now), NonEmpty());
    FilterKeepsUnique(c.files, FileAlive(now));
  }

  /**
   * getCachedSuggestion once the exact key is known: an unexpired exact entry
   * answers and has its use counted; otherwise the file cache (touching the
   * file), then the fuzzy cache; when nothing answers, expired entries are
   * cleaned up.
   */
  function LookupByKey(c: Caches, ctx: CodeContext, key: string, now: int): (r: (Option<string>, Caches))
    requires ctx.fileName.Some?
    ensures ExactHit(c.exact, key, now).Some? ==>
              var e := ExactHit(c.exact, key, now).value;
              r == (Some(e.suggestion), c.(exact := Put(c.exact, key, WithIncrementedUse(e))))
    ensures ExactHit(c.exact, key, now).None? ==>
              var fromFile := FileLookup(c.files, ctx, now);
              var c1 := c.(files := fromFile.1);
              r.0 == (if fromFile.0.Some? then fromFile.0 else FuzzyLookup(c1, ctx, now)) &&
              r.1 == (if r.0.Some? then c1 else Cleanup(c1, now))
  {
    var exact := ExactHit(c.exact, key, now);
    if exact.Some? then
      (Some(exact.value.suggestion), c.(exact := Put(c.exact, key, WithIncrementedUse(exact.value))))
    else
      var fromFile := FileLookup(c.files, ctx, now);
      var c1 := c.(files := fromFile.1);
      if fromFile.0.Some? then (fromFile.0, c1)
      else
        var fuzzy := FuzzyLookup(c1, ctx, now);
        if fuzzy.Some? then (fuzzy, c1)
        else (None, Cleanup(c1, now))
  }

  /** getCachedSuggestion: nothing for a null context, else the lookup under its exact key. */
  function Lookup(c: Caches, ctx: Option<CodeContext>, now: int): (r: (Option<string>, Caches))
    requires HasFileName(ctx)
  {
    if ctx.None? then (None, c) else LookupByKey(c, ctx.value, GenerateCacheKey(ctx.value), now)
  }

  /** Touching a file in getFromFileCache keeps the file keys unique. */
  lemma FileLookupKeepsUnique(files: Assoc<string, FileCache>, ctx: CodeContext, now: int)
    requires ctx.fileName.Some? && KeysUnique(files)
    ensures KeysUnique(FileLookup(files, ctx, now).1)
  {
    var name := ctx.fileName.value;
    var fc := Get(files, name);
    if fc.Some? && !FileExpired(fc.value, now) {
      PutKeepsUnique(files, name, fc.value.(lastAccess := now));
    }
  }

  /** A lookup keeps the caches well formed. */
  lemma LookupByKeyKeepsWellFormed(c: Caches, ctx: CodeContext, key: string, now: int)
    requires WellFormed(c) && ctx.fileName.Some?
    ensures WellFormed(LookupByKey(c, ctx, key, now).1)
  {
    var exact := ExactHit(c.exact, key, now);
    if exact.Some? {
      PutKeepsUnique(c.exact, key, WithIncrementedUse(exact.value));
      IndexOfFound(c.exact, key);
    } else {
      FileLookupKeepsUnique(c.files, ctx, now);
      var c1 := c.(files := FileLookup(c.files, ctx, now).1);
      CleanupKeepsWellFormed(c1, now);
    }
  }

  /** getCachedSuggestion keeps the caches well formed. */
  lemma LookupKeepsWellFormed(c: Caches, ctx: Option<CodeContext>, now: int)
    requires WellFormed(c) && HasFileName(ctx)
    ensures WellFormed(Lookup(c, ctx, now).1)
  {
    if ctx.Some? {
      LookupByKeyKeepsWellFormed(c, ctx.value, GenerateCacheKey(ctx.value), now);
    }
  }

  // ---------------------------------------------------------------------------
  // cacheSuggestion

  /** The exact cache after cacheSuggestion: evict when full, then put. */
  function StoreExact(exact: Assoc<string, CacheEntry>, key: string, e: CacheEntry): Assoc<string, CacheEntry> {
    Put(if |exact| >= MaxExactCacheSize then EvictLeastUsed(exact) else exact, key, e)
  }

  /**
   * The keys the fuzzy cache's iterator can yield first once `fuzzyKey` has
   * been added: the ConcurrentHashMap iterates in hash order, which this
   * model does not compute, so any key present may come first, the new one
   * included.
   */
  predicate CanComeFirst(fuzzy: Assoc<string, seq<CacheEntry>>, fuzzyKey: string, first: string) {
    first == fuzzyKey || HasKey(fuzzy, first)
  }

  /** Whether storing under `fuzzyKey` takes the fuzzy cache past 50 keys. */
  predicate FuzzyOverflows(fuzzy: Assoc<string, seq<CacheEntry>>, fuzzyKey: string) {
    !HasKey(fuzzy, fuzzyKey) && |fuzzy| >= MaxFuzzyCacheSize
  }

  /**
   * The fuzzy cache after cacheSuggestion: append to the key's list, then,
   * past 50 keys, remove `first`, the key the iteration yields first.
   */
  function StoreFuzzy(fuzzy: Assoc<string, seq<CacheEntry>>, fuzzyKey: string, e: CacheEntry, first: string)
    : Assoc<string, seq<CacheEntry>>
  {
    var list := Get(fuzzy, fuzzyKey);
    var added := Put(fuzzy, fuzzyKey, (if list.Some? then list.value else []) + [e]);
    if |added| > MaxFuzzyCacheSize then Remove(added, first) else added
  }

  /** cacheSuggestion once the exact and fuzzy keys are known: the entry goes into all three caches. */
  function StoreByKeys(c: Caches, ctx: CodeContext, suggestion: string, key: string, fuzzyKey: string,
                       now: int, first: string): Caches
    requires ctx.fileName.Some?
  {
    var e := NewEntry(ctx.precedingCode, suggestion, key, now);
    Caches(StoreExact(c.exact, key, e),
           StoreFuzzy(c.fuzzy, fuzzyKey, e, first),
           StoreFileLevel(c.files, ctx, suggestion, key, now))
  }

  /**
   * cacheSuggestion: nothing for a null context or a null or blank
   * suggestion; otherwise the entry goes in under the context's keys, and
   * `first` is the fuzzy key the iteration yields first.
   */
  function Store(c: Caches, ctx: Option<CodeContext>, suggestion: Option<string>, now: int, first: string): (r: Caches)
    requires HasFileName(ctx)
    ensures ctx.None? || suggestion.None? || IsBlank(suggestion.value) ==> r == c
  {
    if ctx.None? || suggestion.None? || IsBlank(suggestion.value) then c
    else StoreByKeys(c, ctx.value, suggestion.value, GenerateCacheKey(ctx.value), GenerateFuzzyKey(ctx.value), now, first)
  }

  /** The exact cache stays within 100 entries and answers for the new key. */
  lemma StoreExactBounded(exact: Assoc<string, CacheEntry>, key: string, e: CacheEntry)
    requires KeysUnique(exact) && |exact| <= MaxExactCacheSize
    ensures var r := StoreExact(exact, key, e);
            KeysUnique(r) && |r| <= MaxExactCacheSize && Get(r, key) == Some(e)
  {
    var base := if |exact| >= MaxExactCacheSize then EvictLeastUsed(exact) else exact;
    if |exact| >= MaxExactCacheSize {
      EvictRemovesLeastUsed(exact);
    }
    PutKeepsUnique(base, key, e);
    PutGet(base, key, e, key);
  }

  /**
   * The fuzzy cache stays within 50 keys with unique keys, whichever key the
   * iteration yields first.  The key's list gains the entry at its end unless
   * the store overflows the cache and the iteration yields the new key
   * first, in which case the new list is gone; every other key keeps its
   * list unless it is the one removed.
   */
  lemma StoreFuzzyBounded(fuzzy: Assoc<string, seq<CacheEntry>>, fuzzyKey: string, e: CacheEntry, first: string)
    requires KeysUnique(fuzzy) && |fuzzy| <= MaxFuzzyCacheSize && CanComeFirst(fuzzy, fuzzyKey, first)
    ensures var r := StoreFuzzy(fuzzy, fuzzyKey, e, first);
            var list := Get(fuzzy, fuzzyKey);
            KeysUnique(r) && |r| <= MaxFuzzyCacheSize &&
            Get(r, fuzzyKey) == (if FuzzyOverflows(fuzzy, fuzzyKey) && first == fuzzyKey then None
                                 else Some((if list.Some? then list.value else []) + [e]))
    ensures forall k :: k != fuzzyKey ==>
              Get(StoreFuzzy(fuzzy, fuzzyKey, e, first), k) ==
              (if FuzzyOverflows(fuzzy, fuzzyKey) && k == first then None else Get(fuzzy, k))
  {
    var list := Get(fuzzy, fuzzyKey);
    var v := (if list.Some? then list.value else []) + [e];
    var added := Put(fuzzy, fuzzyKey, v);
    PutKeepsUnique(fuzzy, fuzzyKey, v);
    IndexOfFound(fuzzy, fuzzyKey);
    forall k {
      PutGet(fuzzy, fuzzyKey, v, k);
    }
    if |added| > MaxFuzzyCacheSize {
      assert FuzzyOverflows(fuzzy, fuzzyKey);
      assert HasKey(added, first) by {
        if first == fuzzyKey {
          PutGetSame(fuzzy, fuzzyKey, v);
        } else {
          IndexOfFound(fuzzy, first);
          PutGet(fuzzy, fuzzyKey, v, first);
          IndexOfFound(added, first);
        }
      }
      RemovePresent(added, first);
      RemoveKeepsUnique(added, first);
      forall k {
        RemoveGet(added, first, k);
      }
    } else {
      assert !FuzzyOverflows(fuzzy, fuzzyKey);
    }
  }

  /**
   * Storing keeps the caches well formed, and afterwards the exact cache
   * answers for the key with the new entry; the fuzzy list for the fuzzy key
   * ends with it unless the fuzzy cache overflowed and the new key came
   * first in its iteration.
   */
  lemma StoreByKeysKeepsWellFormed(c: Caches, ctx: CodeContext, suggestion: string, key: string,
                                   fuzzyKey: string, now: int, first: string)
    requires WellFormed(c) && ctx.fileName.Some? && CanComeFirst(c.fuzzy, fuzzyKey, first)
    ensures var r := StoreByKeys(c, ctx, suggestion, key, fuzzyKey, now, first);
            var e := NewEntry(ctx.precedingCode, suggestion, key, now);
            var list := Get(c.fuzzy, fuzzyKey);
            WellFormed(r) && Get(r.exact, key) == Some(e) &&
            (!(FuzzyOverflows(c.fuzzy, fuzzyKey) && first == fuzzyKey) ==>
               Get(r.fuzzy, fuzzyKey) == Some((if list.Some? then list.value else []) + [e]))
  {
    var e := NewEntry(ctx.precedingCode, suggestion, key, now);
    StoreExactBounded(c.exact, key, e);
    StoreFuzzyBounded(c.fuzzy, fuzzyKey, e, first);
    StoreFileLevelKeepsFile(c.files, ctx, suggestion, key, now);
  }

  /**
   * cacheSuggestion keeps the caches well formed, and afterwards the exact
   * cache answers for the context's key with the new entry; the fuzzy list
   * for its fuzzy key ends with it unless the fuzzy cache overflowed and the
   * new key came first in its iteration.
   */
  lemma StoreKeepsWellFormed(c: Caches, ctx: Option<CodeContext>, suggestion: Option<string>, now: int, first: string)
    requires WellFormed(c) && HasFileName(ctx)
    requires ctx.Some? ==> CanComeFirst(c.fuzzy, GenerateFuzzyKey(ctx.value), first)
    ensures WellFormed(Store(c, ctx, suggestion, now, first))
    ensures ctx.Some? && suggestion.Some? && !IsBlank(suggestion.value) ==>
              var key := GenerateCacheKey(ctx.value);
              var fuzzyKey := GenerateFuzzyKey(ctx.value);
              var e := NewEntry(ctx.value.precedingCode, suggestion.value, key, now);
              var list := Get(c.fuzzy, fuzzyKey);
              Get(Store(c, ctx, suggestion, now, first).exact, key) == Some(e) &&
              (!(FuzzyOverflows(c.fuzzy, fuzzyKey) && first == fuzzyKey) ==>
                 Get(Store(c, ctx, suggestion, now, first).fuzzy, fuzzyKey) ==
                   Some((if list.Some? then list.value else []) + [e]))
  {
    if ctx.Some? && suggestion.Some? && !IsBlank(suggestion.value) {
      StoreByKeysKeepsWellFormed(c, ctx.value, suggestion.value, GenerateCacheKey(ctx.value),
                                 GenerateFuzzyKey(ctx.value), now, first);
    }
  }

  // ---------------------------------------------------------------------------
  // The manager

  /** CompletionCacheManager: the three caches as fields. */
  class CompletionCacheManager {
    var exactCache: Assoc<string, CacheEntry>
    var fuzzyCache: Assoc<string, seq<CacheEntry>>
    var fileCache: Assoc<string, FileCache>

    function State(): Caches
      reads this
    {
      Caches(exactCache, fuzzyCache, fileCache)
    }

    constructor ()
      ensures State() == Caches([], [], [])
    {
      exactCache := [];
      fuzzyCache := [];
      fileCache := [];
    }

    /** getCachedSuggestion */
    method GetCachedSuggestion(ctx: Option<CodeContext>, now: int) returns (r: Option<string>)
      requires HasFileName(ctx)
      modifies this
      ensures (r, State()) == Lookup(old(State()), ctx, now)
    {
      if ctx.None? {
        return None;
      }
      var context := ctx.value;
      var cacheKey := GenerateCacheKey(context);
      var exact := Get(exactCache, cacheKey);
      if exact.Some? && !IsExpired(exact.value, now, CacheTtlMs) {
        exactCache := Put(exactCache, cacheKey, WithIncrementedUse(exact.value));
        return Some(exact.value.suggestion);
      }
      var fileCacheResult := GetFromFileCache(context, now);
      if fileCacheResult.Some? {
        return fileCacheResult;
      }
      var fuzzyResult := GetFuzzyMatch(context, now);
      if fuzzyResult.Some? {
        return fuzzyResult;
      }
      CleanupExpiredEntries(now);
      return None;
    }

    /** getFromFileCache */
    method GetFromFileCache(context: CodeContext, now: int) returns (r: Option<string>)
      requires context.fileName.Some?
      modifies this
      ensures (r, fileCache) == FileLookup(old(fileCache), context, now)
      ensures exactCache == old(exactCache) && fuzzyCache == old(fuzzyCache)
    {
      var name := context.fileName.value;
      var fc := Get(fileCache, name);
      if fc.Some? && !FileExpired(fc.value, now) {
        fileCache := Put(fileCache, name, fc.value.(lastAccess := now));
        if context.currentMethodName.Some? {
          var entry := Get(fc.value.methodCache, context.currentMethodName.value);
          if entry.Some? && !IsExpired(entry.value, now, FileCacheTtlMs) {
            return Some(entry.value.suggestion);
          }
        }
      }
      return None;
    }

    /** getFuzzyMatch */
    method GetFuzzyMatch(context: CodeContext, now: int) returns (r: Option<string>)
      ensures r == FuzzyLookup(State(), context, now)
    {
      var candidates := Get(fuzzyCache, GenerateFuzzyKey(context));
      if candidates.Some? {
        r := BestCandidate(context.precedingCode, candidates.value, now);
      } else {
        r := None;
      }
    }

    /** cacheSuggestion */
    method CacheSuggestion(ctx: Option<CodeContext>, suggestion: Option<string>, now: int, first: string)
      requires HasFileName(ctx)
      requires ctx.Some? ==> CanComeFirst(fuzzyCache, GenerateFuzzyKey(ctx.value), first)
      modifies this
      ensures State() == Store(old(State()), ctx, suggestion, now, first)
    {
      if ctx.None? || suggestion.None? || IsBlank(suggestion.value) {
        return;
      }
      var context := ctx.value;
      var cacheKey := GenerateCacheKey(context);
      var entry := NewEntry(context.precedingCode, suggestion.value, cacheKey, now);
      ghost var before := State();
      if |exactCache| >= MaxExactCacheSize {
        EvictLeastUsedEntry();
      }
      exactCache := Put(exactCache, cacheKey, entry);
      assert exactCache == StoreExact(before.exact, cacheKey, entry);
      CacheToFileLevel(context, suggestion.value, cacheKey, now);
      var fuzzyKey := GenerateFuzzyKey(context);
      AddFuzzyEntry(fuzzyKey, entry, first);
      assert State() == StoreByKeys(before, context, suggestion.value, cacheKey, fuzzyKey, now, first);
    }

    /**
     * The fuzzy half of cacheSuggestion: append to the key's list, then, past
     * 50 keys, remove `first`, the key the iteration yields first.
     */
    method AddFuzzyEntry(fuzzyKey: string, entry: CacheEntry, first: string)
      requires CanComeFirst(fuzzyCache, fuzzyKey, first)
      modifies this
      ensures fuzzyCache == StoreFuzzy(old(fuzzyCache), fuzzyKey, entry, first)
      ensures exactCache == old(exactCache) && fileCache == old(fileCache)
    {
      var list := Get(fuzzyCache, fuzzyKey);
      fuzzyCache := Put(fuzzyCache, fuzzyKey, (if list.Some? then list.value else []) + [entry]);
      if |fuzzyCache| > MaxFuzzyCacheSize {
        fuzzyCache := Remove(fuzzyCache, first);
      }
    }

    /** evictLeastUsedEntry, on the exact cache */
    method EvictLeastUsedEntry()
      modifies this
      ensures exactCache == EvictLeastUsed(old(exactCache))
      ensures fuzzyCache == old(fuzzyCache) && fileCache == old(fileCache)
    {
      var leastUsedKey := LeastUsedKey(exactCache);
      if leastUsedKey.Some? {
        exactCache := Remove(exactCache, leastUsedKey.value);
      }
    }

    /** cacheToFileLevel */
    method CacheToFileLevel(context: CodeContext, suggestion: string, cacheKey: string, now: int)
      requires context.fileName.Some?
      modifies this
      ensures fileCache == StoreFileLevel(old(fileCache), context, suggestion, cacheKey, now)
      ensures exactCache == old(exactCache) && fuzzyCache == old(fuzzyCache)
    {
      var name := context.fileName.value;
      var fc := StoredFileCache(fileCache, context, suggestion, cacheKey, now);
      fileCache := Put(fileCache, name, fc);
      if |fileCache| > MaxFileCacheSize && FileExpired(fileCache[0].1, now) {
        fileCache := fileCache[1..];
      }
    }

    /** cleanupExpiredEntries */
    method CleanupExpiredEntries(now: int)
      modifies this
      ensures State() == Cleanup(old(State()), now)
    {
      exactCache := Filter(exactCache, Unexpired(now));
      fuzzyCache := Filter(PruneLists(fuzzyCache, now), NonEmpty());
      fileCache := Filter(fileCache, FileAlive(now));
    }

    /** clearAll */
    method ClearAll()
      modifies this
      ensures State() == Caches([], [], [])
    {
      exactCache := [];
      fuzzyCache := [];
      fileCache := [];
    }
  }
}
