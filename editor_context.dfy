/**
 * EditorContextUtils: the code context around the caret, extracted from the
 * document text, and the bounded cache of contexts keyed by file, offset and
 * modification stamp.  The PSI-based parts of the extraction are not modelled.
 */
module EditorContext {
  import opened JavaText
  import opened DocLines
  import opened OrderedMap

  /** CodeContext, with the fields the completion core reads; a Java null is None. */
  datatype CodeContext = CodeContext(
    fileName: Option<string>,
    currentMethodName: Option<string>,
    localVariables: Option<string>,
    precedingCode: Option<string>,
    followingCode: Option<string>,
    currentLine: Option<string>,
    cursorPositionInLine: int,
    indentLevel: int)

  /** `new CodeContext()`: every reference null, every int 0. */
  function EmptyContext(): CodeContext {
    CodeContext(None, None, None, None, None, None, 0, 0)
  }

  /** What `%s` prints for a possibly null string. */
  function Show(s: Option<string>): string {
    if s.None? then "null" else s.value
  }

  /** The hash that getCacheKey prints: 0 for a null precedingCode. */
  function PrecedingHash(c: CodeContext): int {
    if c.precedingCode.Some? then JavaHash(c.precedingCode.value) else 0
  }

  /** getCacheKey: "fileName_method_cursor_hash". */
  function GetCacheKey(c: CodeContext): (r: string)
    ensures StartsWith(r, Show(c.fileName) + "_" + Show(c.currentMethodName) + "_")
    ensures EndsWith(r, "_" + IntToString(PrecedingHash(c)))
  {
    var head := Show(c.fileName) + "_" + Show(c.currentMethodName) + "_";
    var tail := "_" + IntToString(PrecedingHash(c));
    var r := head + IntToString(c.cursorPositionInLine) + tail;
    assert r[..|head|] == head;
    assert r[|r| - |tail|..] == tail;
    r
  }

  /**
   * A null precedingCode and an empty one give the same key: the key cannot tell
   * a context without preceding code from one whose preceding code hashes to 0.
   */
  lemma CacheKeyNullLikeEmpty(c: CodeContext)
    requires c.precedingCode == None
    ensures GetCacheKey(c) == GetCacheKey(c.(precedingCode := Some("")))
  {
    assert JavaHash("") == 0;
  }

  // ---------------------------------------------------------------------------
  // Indentation

  /** The indentation width of the leading run of spaces (1 each) and tabs (4 each). */
  function LeadingIndent(s: string): (n: nat)
    ensures n <= 4 * |s|
  {
    if s == [] then 0
    else if s[0] == ' ' then 1 + LeadingIndent(s[1..])
    else if s[0] == '\t' then 4 + LeadingIndent(s[1..])
    else 0
  }

  predicate IsIndentChar(c: char) {
    c == ' ' || c == '\t'
  }

  /** A run of indentation characters adds its width to whatever follows. */
  lemma {:induction false} IndentRunAppend(w: string, t: string)
    requires forall i :: 0 <= i < |w| ==> IsIndentChar(w[i])
    ensures LeadingIndent(w + t) == LeadingIndent(w) + LeadingIndent(t)
    decreases |w|
  {
    if w != [] {
      assert (w + t)[1..] == w[1..] + t;
      IndentRunAppend(w[1..], t);
    } else {
      assert w + t == t;
    }
  }

  /** Counting stops at the first character that is neither a space nor a tab. */
  lemma IndentStops(w: string, c: char, t: string)
    requires forall i :: 0 <= i < |w| ==> IsIndentChar(w[i])
    requires !IsIndentChar(c)
    ensures LeadingIndent(w + [c] + t) == LeadingIndent(w)
  {
    assert w + [c] + t == w + ([c] + t);
    IndentRunAppend(w, [c] + t);
  }

  /** A string of spaces only is as wide as it is long. */
  lemma {:induction false} SpacesIndent(s: string)
    requires forall i :: 0 <= i < |s| ==> s[i] == ' '
    ensures LeadingIndent(s) == |s|
    decreases |s|
  {
    if s != [] {
      SpacesIndent(s[1..]);
    }
  }

  /** countLeadingSpaces */
  method CountLeadingSpaces(str: string) returns (count: nat)
    ensures count == LeadingIndent(str)
  {
    count := 0;
    var i := 0;
    while i < |str|
      invariant 0 <= i <= |str|
      invariant count + LeadingIndent(str[i..]) == LeadingIndent(str)
    {
      var c := str[i];
      assert str[i..][1..] == str[i + 1..];
      if c == ' ' {
        count := count + 1;
      } else if c == '\t' {
        count := count + 4;
      } else {
        break;
      }
      i := i + 1;
    }
  }

  // ---------------------------------------------------------------------------
  // Text context

  /** A line boundary with as many newlines before it as `offset` is not past `offset`. */
  lemma BoundaryNotPast(d: string, offset: nat, s: nat)
    requires offset <= |d| && s <= |d| && AtLineBoundary(d, s)
    requires CountNewlines(d[..s]) == CountNewlines(d[..offset])
    ensures s <= offset
  {
    if s > offset {
      NewlineCounted(d, s - 1, s);
      CountNewlinesSlices(d, offset, s - 1);
      assert false;
    }
  }

  /** A line end with as many newlines before it as `offset` is not before `offset`. */
  lemma EndNotBefore(d: string, offset: nat, e: nat)
    requires offset <= |d| && e <= |d| && (e == |d| || d[e] == '\n')
    requires CountNewlines(d[..e]) == CountNewlines(d[..offset])
    ensures offset <= e
  {
    if e < offset {
      NewlineCounted(d, e, offset);
      assert false;
    }
  }

  /** The caret's offset lies between the start and the end of its own line. */
  lemma OffsetInOwnLine(d: string, offset: nat)
    requires offset <= |d|
    ensures LineStart(d, LineNumber(d, offset)) <= offset <= LineEnd(d, LineNumber(d, offset))
  {
    var line := LineNumber(d, offset);
    BoundaryNotPast(d, offset, LineStart(d, line));
    EndNotBefore(d, offset, LineEnd(d, line));
  }

  /**
   * extractTextContext: the current line, the caret's column, the indent level
   * and the trimmed windows of up to 300 characters before the line and up to
   * 150 after its end.  Other fields are left as they were.
   */
  method ExtractTextContext(text: string, offset: nat, context: CodeContext) returns (r: CodeContext)
    requires offset <= |text|
    ensures var line := LineNumber(text, offset);
            var ls, le := LineStart(text, line), LineEnd(text, line);
            ls <= offset <= le &&
            r == context.(currentLine := Some(text[ls..le]),
                          cursorPositionInLine := offset - ls,
                          indentLevel := LeadingIndent(text[ls..offset]) / 4,
                          precedingCode := Some(Trim(text[Max(0, ls as int - 300)..offset])),
                          followingCode := Some(Trim(text[offset..Min(|text|, le + 150)])))
    ensures NoNewline(r.currentLine.value)
    ensures 0 <= r.cursorPositionInLine <= |r.currentLine.value|
  {
    var lineNumber := LineNumber(text, offset);
    var lineStart := LineStart(text, lineNumber);
    var lineEnd := LineEnd(text, lineNumber);
    OffsetInOwnLine(text, offset);
    var linePrefix := text[lineStart..offset];
    var spaces := CountLeadingSpaces(linePrefix);
    var precedingStart := Max(0, lineStart as int - 300);
    var followingEnd := Min(|text|, lineEnd + 150);
    r := context.(currentLine := Some(text[lineStart..lineEnd]),
                  cursorPositionInLine := offset - lineStart,
                  indentLevel := spaces / 4,
                  precedingCode := Some(Trim(text[precedingStart..offset])),
                  followingCode := Some(Trim(text[offset..followingEnd])));
  }

  // ---------------------------------------------------------------------------
  // Names from definitions

  /** A piece of split("\\s+"): non-empty and free of whitespace. */
  predicate IsToken(w: string) {
    w != [] && forall j :: 0 <= j < |w| ==> !IsRegexSpace(w[j])
  }

  /** The maximal runs of non-whitespace characters: split("\\s+") of a trimmed line. */
  function Tokens(s: string): (r: seq<string>)
    ensures forall w :: w in r ==> IsToken(w)
    decreases |s|
  {
    var t := DropSpaces(s);
    if t == [] then []
    else
      var n := TokenEnd(t, 0);
      FirstToken(t);
      [t[..n]] + Tokens(t[n..])
  }

  /** The run up to the first whitespace of a text that starts with a non-space is a token. */
  lemma FirstToken(t: string)
    requires t != [] && !IsRegexSpace(t[0])
    ensures IsToken(t[..TokenEnd(t, 0)])
  {
  }

  /** The end of the token starting at `i`: the next whitespace character or the end. */
  function TokenEnd(t: string, i: nat): (n: nat)
    requires i < |t|
    ensures i < n <= |t|
    ensures forall j :: i < j < n ==> !IsRegexSpace(t[j])
    ensures n == |t| || IsRegexSpace(t[n])
    decreases |t| - i
  {
    if i + 1 == |t| || IsRegexSpace(t[i + 1]) then i + 1 else TokenEnd(t, i + 1)
  }

  /** Token `i` is a keyword and the next token starts with a word character. */
  predicate GivesName(parts: seq<string>, keywords: set<string>, i: nat) {
    i + 1 < |parts| && parts[i] in keywords && LeadingWord(parts[i + 1]) != []
  }

  /** Token `i` gives a name and no earlier token does. */
  predicate FirstGivesName(parts: seq<string>, keywords: set<string>, i: nat) {
    GivesName(parts, keywords, i) && forall j :: 0 <= j < i ==> !GivesName(parts, keywords, j)
  }

  /**
   * The inner loop of extractNameFromDefinition: the word-character prefix of
   * the first token that follows a keyword token and is not empty.
   */
  function NameInTokens(parts: seq<string>, keywords: set<string>): (r: Option<string>)
    ensures r.Some? ==>
              (r.value != [] &&
               exists i :: 0 <= i < |parts| - 1 && parts[i] in keywords && r.value == LeadingWord(parts[i + 1]))
    ensures r.None? ==>
              forall i :: 0 <= i < |parts| - 1 && parts[i] in keywords ==> LeadingWord(parts[i + 1]) == []
    ensures forall i: nat :: FirstGivesName(parts, keywords, i) ==> r == Some(LeadingWord(parts[i + 1]))
    decreases |parts|
  {
    if |parts| < 2 then None
    else if parts[0] in keywords && LeadingWord(parts[1]) != [] then
      assert GivesName(parts, keywords, 0);
      Some(LeadingWord(parts[1]))
    else
      var rest := NameInTokens(parts[1..], keywords);
      assert forall i :: 1 <= i < |parts| ==> parts[i] == parts[1..][i - 1];
      assert forall i: nat :: FirstGivesName(parts, keywords, i) ==> 0 < i && FirstGivesName(parts[1..], keywords, i - 1) by {
        forall i: nat | FirstGivesName(parts, keywords, i)
          ensures 0 < i && FirstGivesName(parts[1..], keywords, i - 1)
        {
          assert !GivesName(parts, keywords, 0);
          forall j | 0 <= j < i - 1 ensures !GivesName(parts[1..], keywords, j) {
            assert !GivesName(parts, keywords, j + 1);
          }
        }
      }
      rest
  }

  /** The name one trimmed line gives, if any. */
  function LineName(line: string, keywords: set<string>): Option<string> {
    NameInTokens(Tokens(Trim(line)), keywords)
  }

  /** The names the lines give, one per line. */
  function LineNames(lines: seq<string>, keywords: set<string>): (r: seq<Option<string>>)
    ensures |r| == |lines| && forall k :: 0 <= k < |lines| ==> r[k] == LineName(lines[k], keywords)
  {
    seq(|lines|, k requires 0 <= k < |lines| => LineName(lines[k], keywords))
  }

  /** Entry `k` is a name and no earlier entry is. */
  predicate FirstSome(names: seq<Option<string>>, k: nat) {
    k < |names| && names[k].Some? && forall j :: 0 <= j < k ==> names[j].None?
  }

  /** The first name in the sequence, None when there is none. */
  function FirstName(names: seq<Option<string>>): (r: Option<string>)
    ensures r.Some? ==> r in names
    ensures r.None? ==> forall k :: 0 <= k < |names| ==> names[k].None?
    ensures forall k: nat :: FirstSome(names, k) ==> r == names[k]
    decreases |names|
  {
    if names == [] then None
    else if names[0].Some? then
      assert forall k: nat :: FirstSome(names, k) ==> k == 0;
      names[0]
    else
      var rest := FirstName(names[1..]);
      assert forall k :: 1 <= k < |names| ==> names[k] == names[1..][k - 1];
      assert forall k: nat :: FirstSome(names, k) ==> 0 < k && FirstSome(names[1..], k - 1) by {
        forall k: nat | FirstSome(names, k)
          ensures 0 < k && FirstSome(names[1..], k - 1)
        {
          assert names[1..][k - 1] == names[k];
          forall j | 0 <= j < k - 1 ensures names[1..][j].None? {
            assert names[1..][j] == names[j + 1];
          }
        }
      }
      rest
  }

  /** Line `k` gives a name and no earlier line does. */
  predicate FirstLineGivesName(lines: seq<string>, keywords: set<string>, k: nat) {
    FirstSome(LineNames(lines, keywords), k)
  }

  /** The outer loop: the first line, in order, whose tokens give a name. */
  function NameInLines(lines: seq<string>, keywords: set<string>): (r: Option<string>)
    ensures r.Some? ==> exists k :: 0 <= k < |lines| && LineName(lines[k], keywords) == r
    ensures r.None? ==> forall k :: 0 <= k < |lines| ==> LineName(lines[k], keywords).None?
    ensures forall k: nat :: FirstLineGivesName(lines, keywords, k) ==> r == LineName(lines[k], keywords)
  {
    var names := LineNames(lines, keywords);
    var r := FirstName(names);
    if r.Some? then
      var k :| 0 <= k < |names| && names[k] == r;
      r
    else r
  }

  /**
   * extractNameFromDefinition, with the keyword alternation given as a set:
   * the name the first line that gives one gives, null when no line does.
   */
  function ExtractNameFromDefinition(text: string, keywords: set<string>): (r: Option<string>)
    ensures r.Some? ==> r.value != [] && forall i :: 0 <= i < |r.value| ==> IsWordChar(r.value[i])
    ensures r.None? ==> forall k :: 0 <= k < |Split(text)| ==> LineName(Split(text)[k], keywords).None?
    ensures forall k: nat :: FirstLineGivesName(Split(text), keywords, k) ==> r == LineName(Split(text)[k], keywords)
  {
    var lines := Split(text);
    var r := NameInLines(lines, keywords);
    if r.Some? then
      var k :| 0 <= k < |lines| && LineName(lines[k], keywords) == r;
      r
    else r
  }

  // ---------------------------------------------------------------------------
  // The context cache

  /** ContextCache */
  datatype CachedContext = CachedContext(context: CodeContext, timestamp: int, documentVersion: int)

  /** ContextCache.isValid: younger than 5 seconds and taken from the same document version. */
  predicate IsValid(e: CachedContext, now: int, currentVersion: int) {
    now - e.timestamp < 5000 && e.documentVersion == currentVersion
  }

  const MaxContextCacheSize := 50

  /** The cache key of getCodeContext: file name, offset and modification stamp. */
  function ContextKey(fileName: string, offset: int, stamp: int): string {
    fileName + "_" + IntToString(offset) + "_" + IntToString(stamp)
  }

  /** The static `contextCache` after a put: insertion-ordered, the eldest entry dropped past 50. */
  function StoredContexts(m: Assoc<string, CachedContext>, key: string, e: CachedContext): Assoc<string, CachedContext> {
    var p := Put(m, key, e);
    if |p| > MaxContextCacheSize then DropFirst(p) else p
  }

  /**
   * A put keeps the cache within 50 entries with unique keys and answers `e`
   * for `key`; the only entry it loses is the eldest, `m[0]`, and only when
   * `key` is new and the cache was full.
   */
  lemma StoredContextsEvictsEldest(m: Assoc<string, CachedContext>, key: string, e: CachedContext)
    requires KeysUnique(m) && |m| <= MaxContextCacheSize
    ensures var r := StoredContexts(m, key, e);
            KeysUnique(r) && |r| <= MaxContextCacheSize && Get(r, key) == Some(e)
    ensures forall k :: k != key ==>
              Get(StoredContexts(m, key, e), k) ==
              (if !HasKey(m, key) && |m| == MaxContextCacheSize && k == m[0].0 then None else Get(m, k))
  {
    var p := Put(m, key, e);
    PutKeepsUnique(m, key, e);
    IndexOfFound(m, key);
    forall k {
      PutGet(m, key, e, k);
    }
    if |p| > MaxContextCacheSize {
      assert p[0] == m[0] && m[0].0 != key;
      DropFirstGet(p, key);
      DropFirstKeepsOthers(p);
      forall k | k != key
        ensures Get(DropFirst(p), k) == (if k == m[0].0 then None else Get(m, k))
      {
        if k == m[0].0 {
          assert !HasKey(DropFirst(p), k) by {
            forall j | 0 <= j < |DropFirst(p)| ensures DropFirst(p)[j].0 != k {
              assert DropFirst(p)[j] == p[j + 1];
            }
          }
          IndexOfFound(DropFirst(p), k);
        } else {
          DropFirstGet(p, k);
        }
      }
    }
  }

  /** The static `contextCache`: insertion-ordered, dropping the eldest entry past 50. */
  class ContextCacheStore {
    var entries: Assoc<string, CachedContext>

    ghost predicate Valid()
      reads this
    {
      KeysUnique(entries) && |entries| <= MaxContextCacheSize
    }

    constructor ()
      ensures Valid() && entries == []
    {
      entries := [];
    }

    /** The cached context for `key` when it is still valid. */
    method Lookup(key: string, now: int, currentVersion: int) returns (r: Option<CodeContext>)
      ensures r.Some? <==> Get(entries, key).Some? && IsValid(Get(entries, key).value, now, currentVersion)
      ensures r.Some? ==> r == Some(Get(entries, key).value.context)
    {
      var cached := Get(entries, key);
      if cached.Some? && IsValid(cached.value, now, currentVersion) {
        return Some(cached.value.context);
      }
      return None;
    }

    /** contextCache.put, then removeEldestEntry when the size passes 50. */
    method Store(key: string, context: CodeContext, now: int, version: int)
      requires Valid()
      modifies this
      ensures entries == StoredContexts(old(entries), key, CachedContext(context, now, version))
      ensures Valid()
    {
      var e := CachedContext(context, now, version);
      StoredContextsEvictsEldest(entries, key, e);
      entries := Put(entries, key, e);
      if |entries| > MaxContextCacheSize {
        entries := DropFirst(entries);
      }
    }

    /** clearCache */
    method Clear()
      modifies this
      ensures Valid() && entries == []
    {
      entries := [];
    }
  }

  // ---------------------------------------------------------------------------
  // Null-safe accessors

  /** The parts of a PsiFile the accessors read. */
  datatype FileInfo = FileInfo(name: string, text: string)

  /** getFullFileText: the file's text, "" without a file. */
  function GetFullFileText(file: Option<FileInfo>): (r: string)
    ensures file.None? ==> r == ""
    ensures file.Some? ==> r == file.value.text
  {
    if file.Some? then file.value.text else ""
  }

  /** getFileName: the file's name, "UnknownFile" without a file. */
  function GetFileName(file: Option<FileInfo>): (r: string)
    ensures file.None? ==> r == "UnknownFile"
    ensures file.Some? ==> r == file.value.name
  {
    if file.Some? then file.value.name else "UnknownFile"
  }
}
