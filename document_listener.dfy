/**
 * LLMDocumentListener: on every document change, decide whether to ask the
 * model for a completion of the text before the caret, answer from the TTL
 * cache when it can, and keep at most one request in flight.
 *
 * The static fields (the time of the last request and the pending requests
 * by key) are the fields of one instance.  The framework lookups (project,
 * selected editor, PSI file), the clock and the settings are parameters; the
 * model's reply and the request's failure or time-out arrive through
 * RequestCompleted.  A pending request is represented by whether it is done.
 */
module DocumentListener {
  import opened JavaText
  import opened LlmCache
  import opened LlmState

  /**
   * The settings the listener reads.  triggerDelayMs (500 by default) and
   * maxSuggestionLength (150 by default) are declared by LLMSettings; the
   * other three are read but never declared there, so they are inputs here.
   */
  datatype Settings = Settings(triggerDelayMs: int, maxContextLength: nat, maxSuggestionLength: nat,
                               enableCache: bool, cacheTimeoutMinutes: int)

  const DefaultTriggerDelayMs: int := 500
  const DefaultMaxSuggestionLength: nat := 150

  // ---------------------------------------------------------------------------
  // The context window

  /** The text before the caret, clipped to its last maxContextLength characters. */
  function Context(content: string, offset: nat, maxContextLength: nat): (r: string)
    ensures |r| == Min(Min(offset, |content|), maxContextLength)
    ensures r == content[Min(offset, |content|) - |r|..Min(offset, |content|)]
  {
    var before := content[..Min(offset, |content|)];
    if |before| > maxContextLength then before[|before| - maxContextLength..] else before
  }

  /** The context is never longer than the setting, nor longer than the text before the caret. */
  lemma ContextBounded(content: string, offset: nat, maxContextLength: nat)
    ensures |Context(content, offset, maxContextLength)| <= maxContextLength
    ensures |Context(content, offset, maxContextLength)| <= offset
    ensures offset <= |content| && offset <= maxContextLength ==> Context(content, offset, maxContextLength) == content[..offset]
  {
  }

  // ---------------------------------------------------------------------------
  // shouldTriggerCompletion

  /** The characters after which a completion is requested. */
  predicate IsTriggerChar(c: char) {
    c == ' ' || c == '\n' || c == '{' || c == '(' || c == '=' || c == ';' || c == '.' || c == '>' || c == '<'
  }

  /**
   * shouldTriggerCompletion as written: it reads context[offset - 1], an
   * index into the whole document, from the clipped context.  None stands
   * for the StringIndexOutOfBoundsException that charAt then throws.
   */
  function ShouldTriggerAsWritten(context: string, offset: nat): (r: Option<bool>)
    ensures offset == 0 ==> r == Some(false)
    ensures r.None? <==> offset > |context|
  {
    if offset == 0 then Some(false)
    else if offset - 1 < |context| then Some(IsTriggerChar(context[offset - 1]))
    else None
  }

  /** With the caret inside the document, the as-written check throws exactly when the context was clipped. */
  lemma AsWrittenThrowsIffClipped(content: string, offset: nat, maxContextLength: nat)
    requires offset <= |content|
    ensures ShouldTriggerAsWritten(Context(content, offset, maxContextLength), offset).None? <==> offset > maxContextLength
  {
  }

  /** A concrete case: a three-character document, the caret at its end and a one-character context. */
  lemma AsWrittenThrowsExample()
    ensures Context("ab ", 3, 1) == " "
    ensures ShouldTriggerAsWritten(Context("ab ", 3, 1), 3) == None
  {
    assert "ab "[2..3] == " ";
  }

  /** The check as intended: the last character of the context, which is the one before the caret. */
  function ShouldTrigger(context: string, offset: nat): (r: bool)
    ensures r ==> offset > 0 && context != []
  {
    offset > 0 && context != [] && IsTriggerChar(context[|context| - 1])
  }

  /** The corrected check looks at the character just before the caret, however the context was clipped. */
  lemma ShouldTriggerReadsCharBeforeCaret(content: string, offset: nat, maxContextLength: nat)
    requires 0 < offset <= |content| && maxContextLength > 0
    ensures ShouldTrigger(Context(content, offset, maxContextLength), offset) == IsTriggerChar(content[offset - 1])
  {
    var c := Context(content, offset, maxContextLength);
    assert c[|c| - 1] == content[offset - 1];
  }

  /** Where the as-written check does not throw, the corrected one gives the same answer. */
  lemma ShouldTriggerAgreesWhenUnclipped(content: string, offset: nat, maxContextLength: nat)
    requires offset <= |content| && offset <= maxContextLength
    ensures ShouldTriggerAsWritten(Context(content, offset, maxContextLength), offset) ==
            Some(ShouldTrigger(Context(content, offset, maxContextLength), offset))
  {
    var c := Context(content, offset, maxContextLength);
    assert |c| == offset;
  }

  // ---------------------------------------------------------------------------
  // Cache key, prompt and the suggestion shown

  /** context.hashCode() + "_" + offset */
  function CacheKey(context: string, offset: nat): string {
    IntToString(JavaHash(context)) + "_" + NatToString(offset)
  }

  lemma NatToStringLong(n: nat)
    requires n >= 10
    ensures |NatToString(n)| >= 2
  {
  }

  lemma DigitCharInjective(a: nat, b: nat)
    requires a < 10 && b < 10 && DigitChar(a) == DigitChar(b)
    ensures a == b
  {
  }

  /** Decimal notation is one-to-one. */
  lemma {:induction false} NatToStringInjective(n: nat, m: nat)
    requires NatToString(n) == NatToString(m)
    ensures n == m
  {
    if n < 10 && m < 10 {
      DigitCharInjective(n, m);
    } else if n < 10 {
      NatToStringLong(m);
    } else if m < 10 {
      NatToStringLong(n);
    } else {
      var a, b := NatToString(n), NatToString(m);
      assert a[|a| - 1] == DigitChar(n % 10) && b[|b| - 1] == DigitChar(m % 10);
      DigitCharInjective(n % 10, m % 10);
      assert a[..|a| - 1] == NatToString(n / 10);
      assert b[..|b| - 1] == NatToString(m / 10);
      NatToStringInjective(n / 10, m / 10);
    }
  }

  /** A printed int has no '_' in it. */
  lemma NoUnderscore(n: int)
    ensures forall i :: 0 <= i < |IntToString(n)| ==> IntToString(n)[i] != '_'
  {
    if n < 0 {
      var d := NatToString(-n);
      assert IntToString(n) == "-" + d;
      forall i | 0 < i < |IntToString(n)|
        ensures IntToString(n)[i] != '_'
      {
        assert IntToString(n)[i] == d[i - 1];
      }
    }
  }

  /** The first '_' of a key is the one after the printed hash. */
  lemma FirstUnderscore(h: string, d: string)
    requires forall i :: 0 <= i < |h| ==> h[i] != '_'
    ensures IndexOfChar(h + "_" + d, '_', 0) == |h|
  {
    var k := h + "_" + d;
    assert k[|h|] == '_';
    forall i | 0 <= i < |h|
      ensures k[i] != '_'
    {
      assert k[i] == h[i];
    }
  }

  /** Equal keys mean equal offsets: a cached reply is only ever shown at the offset it was asked for. */
  lemma CacheKeyDeterminesOffset(c1: string, o1: nat, c2: string, o2: nat)
    requires CacheKey(c1, o1) == CacheKey(c2, o2)
    ensures o1 == o2
  {
    var h1, h2 := IntToString(JavaHash(c1)), IntToString(JavaHash(c2));
    var d1, d2 := NatToString(o1), NatToString(o2);
    var k := CacheKey(c1, o1);
    assert k == h1 + "_" + d1 == h2 + "_" + d2;
    NoUnderscore(JavaHash(c1));
    NoUnderscore(JavaHash(c2));
    FirstUnderscore(h1, d1);
    FirstUnderscore(h2, d2);
    assert d1 == k[|h1| + 1..] == d2;
    NatToStringInjective(o1, o2);
  }

  /** Two different contexts with the same hash share a key: "Aa" and "BB" both hash to 2112. */
  lemma CacheKeyCollision(offset: nat)
    ensures CacheKey("Aa", offset) == CacheKey("BB", offset)
  {
    assert "Aa"[..1] == "A" && "BB"[..1] == "B";
    assert JavaHash("A") == 65 && JavaHash("B") == 66;
    assert JavaHash("Aa") == 2112 == JavaHash("BB");
  }

  const PromptLead: string := "根据以下代码内容预测用户在光标处可能输入的内容（只返回代码，不要解释）：\n\n"

  /** The prompt sent to the model: a fixed instruction followed by the context. */
  function Prompt(context: string): (r: string)
    ensures |r| == |PromptLead| + |context| && r[|PromptLead|..] == context
  {
    PromptLead + context
  }

  /**
   * The suggestion that a completed request shows and caches: nothing for a
   * null or blank reply, otherwise the trimmed reply cut to
   * maxSuggestionLength characters.
   */
  function SuggestionToShow(reply: Option<string>, maxSuggestionLength: nat): (r: Option<string>)
    ensures r.None? <==> reply.None? || Trim(reply.value) == []
    ensures r.Some? ==> |r.value| == Min(|Trim(reply.value)|, maxSuggestionLength)
    ensures r.Some? ==> r.value == Trim(reply.value)[..|r.value|]
  {
    if reply.None? || Trim(reply.value) == [] then None
    else
      var clean := Trim(reply.value);
      if |clean| > maxSuggestionLength then Some(clean[..maxSuggestionLength]) else Some(clean)
  }

  // ---------------------------------------------------------------------------
  // documentChanged as a function of the state

  /** What the framework reports for one document change. */
  datatype Event = Event(hasProject: bool, now: int, editorMatches: bool, hasPsi: bool, content: string, offset: nat)

  /** How documentChanged ended. */
  datatype ChangeOutcome =
    | Disabled
    | NoProject
    | Debounced
    | NoEditor
    | NotTriggered
    | Threw
    | ShowCached(suggestion: string)
    | AlreadyPending
    | Requested(key: string, prompt: string)

  /** The event gets past the on/off switch, the project lookup and the debounce. */
  predicate PassesDebounce(enabled: bool, e: Event, s: Settings, lastRequestTime: int) {
    enabled && e.hasProject && e.now - lastRequestTime >= s.triggerDelayMs
  }

  /** The event gets as far as the cache: an editor on this document, a PSI file, and a trigger character. */
  predicate ReachesCache(enabled: bool, e: Event, s: Settings, lastRequestTime: int) {
    PassesDebounce(enabled, e, s, lastRequestTime) && e.editorMatches && e.hasPsi &&
    ShouldTrigger(Context(e.content, e.offset, s.maxContextLength), e.offset)
  }

  function EventKey(e: Event, s: Settings): string {
    CacheKey(Context(e.content, e.offset, s.maxContextLength), e.offset)
  }

  /** The cache lookup documentChanged makes, when it makes one. */
  function CacheRead(enabled: bool, e: Event, s: Settings, lastRequestTime: int, cache: map<string, CacheEntry>)
    : (Option<string>, map<string, CacheEntry>)
  {
    if ReachesCache(enabled, e, s, lastRequestTime) && s.enableCache
    then Lookup(cache, EventKey(e, s), e.now, s.cacheTimeoutMinutes)
    else (None, cache)
  }

  function Outcome(enabled: bool, e: Event, s: Settings, lastRequestTime: int,
                   cache: map<string, CacheEntry>, pending: map<string, bool>): ChangeOutcome
  {
    if !enabled then Disabled
    else if !e.hasProject then NoProject
    else if e.now - lastRequestTime < s.triggerDelayMs then Debounced
    else if !e.editorMatches || !e.hasPsi then NoEditor
    else if !ShouldTrigger(Context(e.content, e.offset, s.maxContextLength), e.offset) then NotTriggered
    else if CacheRead(enabled, e, s, lastRequestTime, cache).0.Some? then ShowCached(CacheRead(enabled, e, s, lastRequestTime, cache).0.value)
    else if EventKey(e, s) in pending && !pending[EventKey(e, s)] then AlreadyPending
    else Requested(EventKey(e, s), Prompt(Context(e.content, e.offset, s.maxContextLength)))
  }

  /**
   * documentChanged as written: past the editor checks it asks the
   * as-written trigger check, which throws once the context was clipped;
   * the handler then ends with only the request time updated.
   */
  function OutcomeAsWritten(enabled: bool, e: Event, s: Settings, lastRequestTime: int,
                            cache: map<string, CacheEntry>, pending: map<string, bool>): ChangeOutcome
  {
    if !enabled then Disabled
    else if !e.hasProject then NoProject
    else if e.now - lastRequestTime < s.triggerDelayMs then Debounced
    else if !e.editorMatches || !e.hasPsi then NoEditor
    else
      var context := Context(e.content, e.offset, s.maxContextLength);
      match ShouldTriggerAsWritten(context, e.offset)
      case None => Threw
      case Some(false) => NotTriggered
      case Some(true) =>
        if s.enableCache && Lookup(cache, EventKey(e, s), e.now, s.cacheTimeoutMinutes).0.Some?
        then ShowCached(Lookup(cache, EventKey(e, s), e.now, s.cacheTimeoutMinutes).0.value)
        else if EventKey(e, s) in pending && !pending[EventKey(e, s)] then AlreadyPending
        else Requested(EventKey(e, s), Prompt(context))
  }

  /**
   * The handler as written and the model's handler differ only where the
   * former throws: an event that gets past the editor checks with the caret
   * beyond the clipped context.  Everywhere else they end the same way.
   */
  lemma AsWrittenDiffersOnlyByThrowing(enabled: bool, e: Event, s: Settings, last: int,
                                       cache: map<string, CacheEntry>, pending: map<string, bool>)
    ensures OutcomeAsWritten(enabled, e, s, last, cache, pending) ==
            (if PassesDebounce(enabled, e, s, last) && e.editorMatches && e.hasPsi &&
                e.offset > |Context(e.content, e.offset, s.maxContextLength)|
             then Threw
             else Outcome(enabled, e, s, last, cache, pending))
  {
    if PassesDebounce(enabled, e, s, last) && e.editorMatches && e.hasPsi {
      var context := Context(e.content, e.offset, s.maxContextLength);
      if e.offset <= |context| {
        ShouldTriggerAgreesWhenUnclipped(e.content, e.offset, s.maxContextLength);
        var t := ShouldTrigger(context, e.offset);
        assert ShouldTriggerAsWritten(context, e.offset) == Some(t);
        assert ReachesCache(enabled, e, s, last) == t;
        if t {
          assert CacheRead(enabled, e, s, last, cache) ==
                 (if s.enableCache then Lookup(cache, EventKey(e, s), e.now, s.cacheTimeoutMinutes) else (None, cache));
        }
      }
    }
  }

  /** The pending requests after a change: a new request replaces all of them. */
  function PendingAfter(o: ChangeOutcome, pending: map<string, bool>): map<string, bool> {
    if o.Requested? then map[o.key := false] else pending
  }

  /** The cache after a completed request: the shown suggestion stored under its key. */
  function CacheAfterCompletion(cache: map<string, CacheEntry>, key: string, reply: Option<string>, failed: bool,
                                s: Settings, now: int): map<string, CacheEntry>
  {
    if !failed && s.enableCache && SuggestionToShow(reply, s.maxSuggestionLength).Some?
    then Stored(cache, Some(key), SuggestionToShow(reply, s.maxSuggestionLength), now)
    else cache
  }

  // ---------------------------------------------------------------------------
  // Properties of documentChanged

  /** Nothing happens while switched off or before the debounce delay has passed. */
  lemma QuietOutcomes(enabled: bool, e: Event, s: Settings, last: int, cache: map<string, CacheEntry>, pending: map<string, bool>)
    requires !PassesDebounce(enabled, e, s, last)
    ensures Outcome(enabled, e, s, last, cache, pending) in {Disabled, NoProject, Debounced}
    ensures CacheRead(enabled, e, s, last, cache).1 == cache
  {
  }

  /** An event that gets past the debounce restarts it: a second one sooner than the delay is ignored. */
  lemma SecondEventDebounced(enabled: bool, e1: Event, e2: Event, s: Settings, last: int,
                             cache: map<string, CacheEntry>, pending: map<string, bool>)
    requires PassesDebounce(enabled, e1, s, last)
    requires e2.hasProject && e2.now - e1.now < s.triggerDelayMs
    ensures Outcome(enabled, e2, s, e1.now, cache, pending) == Debounced
  {
  }

  /** A request goes out only when no unfinished request has the same key, and is then the only one pending. */
  lemma RequestIsUnique(enabled: bool, e: Event, s: Settings, last: int, cache: map<string, CacheEntry>, pending: map<string, bool>)
    requires Outcome(enabled, e, s, last, cache, pending).Requested?
    ensures var o := Outcome(enabled, e, s, last, cache, pending);
      !(o.key in pending && !pending[o.key]) &&
      PendingAfter(o, pending) == map[o.key := false] &&
      o.key == EventKey(e, s)
  {
  }

  /** An unexpired cached reply for the key is shown and no request is made. */
  lemma CacheHitShortCircuits(enabled: bool, e: Event, s: Settings, last: int, cache: map<string, CacheEntry>,
                              pending: map<string, bool>)
    requires ReachesCache(enabled, e, s, last) && s.enableCache
    requires EventKey(e, s) in cache && !IsExpired(cache[EventKey(e, s)], e.now, DurationMs(s.cacheTimeoutMinutes))
    ensures Outcome(enabled, e, s, last, cache, pending) == ShowCached(cache[EventKey(e, s)].response)
    ensures PendingAfter(Outcome(enabled, e, s, last, cache, pending), pending) == pending
  {
  }

  /**
   * A completed request with a usable reply is answered from the cache the
   * next time the same text stands before the caret at the same offset,
   * as long as the entry has not expired.
   */
  lemma CompletionIsCached(enabled: bool, e: Event, s: Settings, last: int, cache: map<string, CacheEntry>,
                           pending: map<string, bool>, reply: Option<string>, doneAt: int)
    requires ReachesCache(enabled, e, s, last) && s.enableCache
    requires SuggestionToShow(reply, s.maxSuggestionLength).Some?
    requires e.now - doneAt <= DurationMs(s.cacheTimeoutMinutes)
    ensures Outcome(enabled, e, s, last, CacheAfterCompletion(cache, EventKey(e, s), reply, false, s, doneAt), pending) ==
            ShowCached(SuggestionToShow(reply, s.maxSuggestionLength).value)
  {
    GetAfterPut(cache, EventKey(e, s), SuggestionToShow(reply, s.maxSuggestionLength).value, doneAt, e.now, s.cacheTimeoutMinutes);
  }

  // ---------------------------------------------------------------------------
  // The listener

  class LLMDocumentListener {
    var lastRequestTime: int
    var pendingRequests: map<string, bool>

    constructor ()
      ensures lastRequestTime == 0 && pendingRequests == map[]
    {
      lastRequestTime := 0;
      pendingRequests := map[];
    }

    /** cancelPendingRequests: every unfinished request is cancelled and the map emptied. */
    method CancelPendingRequests()
      modifies this
      ensures pendingRequests == map[] && lastRequestTime == old(lastRequestTime)
    {
      pendingRequests := map[];
    }

    /** documentChanged */
    method DocumentChanged(state: LLMState, cache: LLMCache, s: Settings, e: Event) returns (outcome: ChangeOutcome)
      modifies this, cache
      ensures outcome == Outcome(state.IsEnabled(), e, s, old(lastRequestTime), old(cache.cache), old(pendingRequests))
      ensures lastRequestTime == (if PassesDebounce(state.IsEnabled(), e, s, old(lastRequestTime)) then e.now else old(lastRequestTime))
      ensures cache.cache == CacheRead(state.IsEnabled(), e, s, old(lastRequestTime), old(cache.cache)).1
      ensures pendingRequests == PendingAfter(outcome, old(pendingRequests))
    {
      if !state.IsEnabled() {
        return Disabled;
      }
      if !e.hasProject {
        return NoProject;
      }
      if e.now - lastRequestTime < s.triggerDelayMs {
        return Debounced;
      }
      ghost var last := lastRequestTime;
      lastRequestTime := e.now;
      if !e.editorMatches || !e.hasPsi {
        return NoEditor;
      }
      var context := Context(e.content, e.offset, s.maxContextLength);
      if !ShouldTrigger(context, e.offset) {
        return NotTriggered;
      }
      var cacheKey := CacheKey(context, e.offset);
      assert ReachesCache(state.IsEnabled(), e, s, last) && cacheKey == EventKey(e, s);
      if s.enableCache {
        var cachedResponse := cache.Get(cacheKey, e.now, s.cacheTimeoutMinutes);
        if cachedResponse.Some? {
          return ShowCached(cachedResponse.value);
        }
      }
      if cacheKey in pendingRequests && !pendingRequests[cacheKey] {
        return AlreadyPending;
      }
      CancelPendingRequests();
      pendingRequests := pendingRequests[cacheKey := false];
      outcome := Requested(cacheKey, Prompt(context));
    }

    /**
     * The completion handler of a request: the key leaves the pending map;
     * on failure or time-out nothing else happens; otherwise a usable reply
     * is cached (when caching is on) and returned for showing.
     */
    method RequestCompleted(cache: LLMCache, s: Settings, key: string, reply: Option<string>, failed: bool, now: int)
      returns (shown: Option<string>)
      modifies this, cache
      ensures pendingRequests == old(pendingRequests) - {key} && lastRequestTime == old(lastRequestTime)
      ensures shown == (if failed then None else SuggestionToShow(reply, s.maxSuggestionLength))
      ensures cache.cache == CacheAfterCompletion(old(cache.cache), key, reply, failed, s, now)
    {
      pendingRequests := pendingRequests - {key};
      if failed {
        return None;
      }
      shown := SuggestionToShow(reply, s.maxSuggestionLength);
      if shown.Some? && s.enableCache {
        cache.Put(Some(key), shown, now);
      }
    }
  }
}
