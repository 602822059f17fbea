/**
 * EditSelectionAction: the selected code is sent to the model, and its reply
 * is either refused (no reply, an empty reply, a reply that only differs from
 * the selection in whitespace) or cleaned and shown as a diff.  Also the line
 * split the diff log uses.
 */
module EditSelection {
  import opened JavaText
  import TypedAction

  // ---------------------------------------------------------------------------
  // isSuggestionIdentical

  /** replaceAll("\\s+", " ").trim() */
  function Normalize(s: string): string {
    Trim(CollapseWhitespace(s))
  }

  /** isSuggestionIdentical: equal once whitespace runs are one space and the ends are trimmed; never for null. */
  function IsSuggestionIdentical(original: Option<string>, suggestion: Option<string>): (r: bool)
    ensures original.None? || suggestion.None? ==> !r
    ensures r ==> Normalize(original.value) == Normalize(suggestion.value)
    ensures original.Some? && suggestion.Some? && Normalize(original.value) == Normalize(suggestion.value) ==> r
  {
    original.Some? && suggestion.Some? && Normalize(original.value) == Normalize(suggestion.value)
  }

  lemma IdenticalReflexive(s: string)
    ensures IsSuggestionIdentical(Some(s), Some(s))
  {
  }

  lemma IdenticalSymmetric(a: Option<string>, b: Option<string>)
    ensures IsSuggestionIdentical(a, b) == IsSuggestionIdentical(b, a)
  {
  }

  /** Only the presence of whitespace between two pieces matters, not its amount or kind. */
  lemma IdenticalIgnoresRunLength(a: string, w1: string, w2: string, b: string)
    requires w1 != [] && w2 != [] && AllSpaces(w1) && AllSpaces(w2)
    ensures IsSuggestionIdentical(Some(a + w1 + b), Some(a + w2 + b))
  {
    CollapseIgnoresRunLength(a, w1, w2, b);
  }

  /** A trimmed text keeps its first character when that is not trimmable. */
  lemma TrimKeepsFirst(s: string)
    requires s != [] && !IsTrimmable(s[0])
    ensures Trim(s) != [] && Trim(s)[0] == s[0]
  {
    assert TrimStart(s) == s;
  }

  /** The normal form keeps a first character that is not trimmable. */
  lemma NormalizeKeepsFirst(c: char, t: string)
    requires !IsTrimmable(c)
    ensures Normalize([c] + t) != [] && Normalize([c] + t)[0] == c
  {
    CollapseCons(c, t);
    TrimKeepsFirst(CollapseWhitespace([c] + t));
  }

  // ---------------------------------------------------------------------------
  // cleanSuggestion

  // (?i)```[a-zA-Z]*\s*\n? : a fence, its language tag and all the whitespace
  // after it.  The greedy \s* already takes every newline, so \n? never adds
  // to a match; the fallback's (?i)```[a-zA-Z]*\s* removes the same text.

  /** The text opens with "```". */
  predicate OpensWithFence(s: string) {
    |s| >= 3 && s[0] == '`' && s[1] == '`' && s[2] == '`'
  }

  /** What follows one match of the tagged-fence pattern at the start of `s`. */
  function AfterFence(s: string): (r: string)
    requires OpensWithFence(s)
    ensures |r| < |s|
  {
    DropSpaces(s[TypedAction.LetterRunEnd(s, 3)..])
  }

  /** replaceAll of the tagged-fence pattern: every fence removed with its tag and the whitespace after it. */
  function StripTaggedFences(s: string): (r: string)
    ensures |r| <= |s|
    decreases |s|
  {
    if s == [] then []
    else if OpensWithFence(s) then
      StripTaggedFences(AfterFence(s))
    else
      [s[0]] + StripTaggedFences(s[1..])
  }

  /** No three backticks in a row. */
  predicate FenceFree(s: string) {
    forall i :: 0 <= i < |s| - 2 ==> !(s[i] == '`' && s[i + 1] == '`' && s[i + 2] == '`')
  }

  /** A text opens with a fence exactly when it opens with three backticks. */
  lemma FenceStart(s: string)
    ensures StartsWith(s, TypedAction.Fence) <==> OpensWithFence(s)
  {
    if |s| >= 3 {
      assert s[..3][0] == s[0] && s[..3][1] == s[1] && s[..3][2] == s[2];
    }
  }

  /** A backtick that survives the stripping stands where the input has one. */
  lemma StrippedHead(t: string)
    requires StripTaggedFences(t) != [] && StripTaggedFences(t)[0] == '`'
    ensures t != [] && t[0] == '`'
  {
    if !OpensWithFence(t) {
      assert StripTaggedFences(t) == [t[0]] + StripTaggedFences(t[1..]);
    }
  }

  /** Two backticks that open the stripped text open the input as well. */
  lemma StrippedHeadPair(t: string)
    requires |StripTaggedFences(t)| >= 2
    requires StripTaggedFences(t)[0] == '`' && StripTaggedFences(t)[1] == '`'
    ensures |t| >= 2 && t[0] == '`' && t[1] == '`'
  {
    if !OpensWithFence(t) {
      var u := StripTaggedFences(t[1..]);
      assert StripTaggedFences(t) == [t[0]] + u;
      assert u != [] && u[0] == '`';
      StrippedHead(t[1..]);
    }
  }

  /**
   * After the tagged-fence replacement no "```" is left, so the replacements
   * "```\\s*$" and "```" that follow it find nothing.
   */
  lemma {:induction false} StrippedIsFenceFree(s: string)
    ensures FenceFree(StripTaggedFences(s))
    decreases |s|
  {
    if s == [] {
    } else if OpensWithFence(s) {
      StrippedIsFenceFree(AfterFence(s));
    } else {
      var t := s[1..];
      var u := StripTaggedFences(t);
      StrippedIsFenceFree(t);
      if s[0] == '`' && |u| >= 2 && u[0] == '`' && u[1] == '`' {
        StrippedHeadPair(t);
        assert false;
      }
      var r := [s[0]] + u;
      assert r == StripTaggedFences(s);
      forall i | 1 <= i < |r| - 2
        ensures !(r[i] == '`' && r[i + 1] == '`' && r[i + 2] == '`')
      {
        assert r[i] == u[i - 1] && r[i + 1] == u[i] && r[i + 2] == u[i + 1];
      }
    }
  }

  /** "```" finds nothing to remove in a fence-free text. */
  lemma {:induction false} RemoveFenceOfFenceFree(s: string)
    requires FenceFree(s)
    ensures TypedAction.RemoveAll(s, TypedAction.Fence) == s
    decreases |s|
  {
    if s != [] {
      FenceStart(s);
      assert FenceFree(s[1..]) by {
        forall i | 0 <= i < |s[1..]| - 2
          ensures !(s[1..][i] == '`' && s[1..][i + 1] == '`' && s[1..][i + 2] == '`')
        {
          assert s[1..][i] == s[i + 1] && s[1..][i + 1] == s[i + 2] && s[1..][i + 2] == s[i + 3];
        }
      }
      RemoveFenceOfFenceFree(s[1..]);
      assert [s[0]] + s[1..] == s;
    }
  }

  const ImprovedCode: string := "改进后的代码"
  const CommentedCode: string := "添加注释后的代码"
  const HereIs: string := "这里是"
  const CodeWord: string := "代码"

  /** What [:：]?\\s* takes after a lead-in phrase: an optional half- or full-width colon, then whitespace. */
  function AfterLeadIn(s: string): (r: string)
    ensures |r| <= |s|
  {
    var t := if s != [] && (s[0] == ':' || s[0] == '：') then s[1..] else s;
    DropSpaces(t)
  }

  /** replaceAll("(?i)<phrase>[:：]?\\s*", ""): every occurrence of the phrase removed with what follows it. */
  function RemoveLeadIn(s: string, phrase: string): (r: string)
    requires phrase != []
    ensures |r| <= |s|
    decreases |s|
  {
    if s == [] then []
    else if StartsWith(s, phrase) then RemoveLeadIn(AfterLeadIn(s[|phrase|..]), phrase)
    else [s[0]] + RemoveLeadIn(s[1..], phrase)
  }

  /** The lazy .*?代码 from `i`: the first "代码" with no line terminator before it. */
  function CodeWordOnLine(s: string, i: nat): (r: Option<nat>)
    requires i <= |s|
    ensures r.Some? ==> i <= r.value && r.value + |CodeWord| <= |s| && s[r.value..r.value + |CodeWord|] == CodeWord
    ensures r.Some? ==> forall k :: i <= k < r.value ==> !IsLineTerminator(s[k]) && s[k..k + |CodeWord|] != CodeWord
    decreases |s| - i
  {
    if i + |CodeWord| > |s| then None
    else if s[i..i + |CodeWord|] == CodeWord then Some(i)
    else if IsLineTerminator(s[i]) then None
    else CodeWordOnLine(s, i + 1)
  }

  /** replaceAll("(?i)这里是.*?代码[:：]?\\s*", "") */
  function RemoveHereIsLeadIn(s: string): (r: string)
    ensures |r| <= |s|
    decreases |s|
  {
    if s == [] then []
    else if StartsWith(s, HereIs) && CodeWordOnLine(s, |HereIs|).Some? then
      RemoveHereIsLeadIn(AfterLeadIn(s[CodeWordOnLine(s, |HereIs|).value + |CodeWord|..]))
    else [s[0]] + RemoveHereIsLeadIn(s[1..])
  }

  // The fallback test fallback.matches("^[\\s\\w\\[\\]{}()<>;=.,+\\-*/\"'].*"):
  // the whole text must match, and '.' stops at line terminators.

  /** A character of the class the fallback test opens with. */
  predicate IsCodeStart(c: char) {
    IsRegexSpace(c) || IsWordChar(c) || c == '[' || c == ']' || c == '{' || c == '}' || c == '(' || c == ')' ||
    c == '<' || c == '>' || c == ';' || c == '=' || c == '.' || c == ',' || c == '+' || c == '-' ||
    c == '*' || c == '/' || c == '"' || c == '\''
  }

  /** The fallback test: one line that opens with a code character. */
  predicate LooksLikeCode(s: string) {
    s != [] && IsCodeStart(s[0]) && forall i :: 1 <= i < |s| ==> !IsLineTerminator(s[i])
  }

  /** The reply after the fence replacements. */
  function FencesRemoved(s: string): string {
    TypedAction.RemoveAll(StripTaggedFences(s), TypedAction.Fence)
  }

  /** The reply after the fence and lead-in replacements. */
  function LeadInsRemoved(s: string): string {
    RemoveHereIsLeadIn(RemoveLeadIn(RemoveLeadIn(FencesRemoved(s), ImprovedCode), CommentedCode))
  }

  /** The reply after the fence and lead-in replacements, trimmed. */
  function Stripped(s: string): string {
    Trim(LeadInsRemoved(s))
  }

  /** The fallback: only the fences removed, trimmed. */
  function Fallback(s: string): string {
    Trim(FencesRemoved(s))
  }

  /**
   * What cleanSuggestion returns: "" for null or empty; the stripped reply
   * unless that is empty; else the fallback when it looks like one line of
   * code; else the reply trimmed.
   */
  function Cleaned(suggestion: Option<string>): string {
    if suggestion.None? || suggestion.value == [] then []
    else if Stripped(suggestion.value) != [] then Stripped(suggestion.value)
    else if LooksLikeCode(Fallback(suggestion.value)) then Fallback(suggestion.value)
    else Trim(suggestion.value)
  }

  /** cleanSuggestion, replacement by replacement. */
  method CleanSuggestion(suggestion: Option<string>) returns (r: string)
    ensures r == Cleaned(suggestion)
  {
    if suggestion.None? || suggestion.value == [] {
      return [];
    }
    var original := suggestion.value;
    var s := StripTaggedFences(original);
    // "```\\s*$" is not applied: StrippedIsFenceFree shows it has nothing to match
    s := TypedAction.RemoveAll(s, TypedAction.Fence);
    s := RemoveLeadIn(s, ImprovedCode);
    s := RemoveLeadIn(s, CommentedCode);
    s := RemoveHereIsLeadIn(s);
    s := Trim(s);
    if s == [] {
      var fallback := StripTaggedFences(original);
      fallback := TypedAction.RemoveAll(fallback, TypedAction.Fence);
      fallback := Trim(fallback);
      if LooksLikeCode(fallback) {
        return fallback;
      }
      return Trim(original);
    }
    return s;
  }

  /** The answer is always trimmed. */
  lemma CleanedIsTrimmed(suggestion: Option<string>)
    ensures Trim(Cleaned(suggestion)) == Cleaned(suggestion)
  {
    if suggestion.Some? && suggestion.value != [] {
      var s := suggestion.value;
      if Stripped(s) != [] {
        TrimIdempotent(LeadInsRemoved(s));
      } else if LooksLikeCode(Fallback(s)) {
        TrimIdempotent(FencesRemoved(s));
      } else {
        TrimIdempotent(s);
      }
    }
  }

  /** The text inside a fence has no lead-in phrase to lose. */
  predicate NoLeadIn(s: string) {
    forall i :: 0 <= i < |s| ==> s[i] != ImprovedCode[0] && s[i] != CommentedCode[0] && s[i] != HereIs[0]
  }

  lemma {:induction false} RemoveLeadInAbsent(s: string, phrase: string)
    requires phrase != [] && forall i :: 0 <= i < |s| ==> s[i] != phrase[0]
    ensures RemoveLeadIn(s, phrase) == s
    decreases |s|
  {
    if s != [] {
      assert !StartsWith(s, phrase) by {
        if |phrase| <= |s| {
          assert s[..|phrase|][0] != phrase[0];
        }
      }
      RemoveLeadInAbsent(s[1..], phrase);
      assert [s[0]] + s[1..] == s;
    }
  }

  lemma {:induction false} RemoveHereIsAbsent(s: string)
    requires forall i :: 0 <= i < |s| ==> s[i] != HereIs[0]
    ensures RemoveHereIsLeadIn(s) == s
    decreases |s|
  {
    if s != [] {
      assert !StartsWith(s, HereIs) by {
        if |HereIs| <= |s| {
          assert s[..|HereIs|][0] != HereIs[0];
        }
      }
      RemoveHereIsAbsent(s[1..]);
      assert [s[0]] + s[1..] == s;
    }
  }

  /** A character other than a backtick is kept as it is. */
  lemma StripTaggedFencesStep(a: string, t: string)
    requires a != [] && a[0] != '`'
    ensures StripTaggedFences(a + t) == [a[0]] + StripTaggedFences(a[1..] + t)
  {
    var s := a + t;
    assert s[0] == a[0];
    assert s[1..] == a[1..] + t;
  }

  lemma {:induction false} StripTaggedFencesPlain(a: string, t: string)
    requires TypedAction.NoBacktick(a)
    ensures StripTaggedFences(a + t) == a + StripTaggedFences(t)
    decreases |a|
  {
    if a == [] {
      assert a + t == t;
    } else {
      var tail := a[1..];
      assert a[0] != '`';
      StripTaggedFencesStep(a, t);
      assert TypedAction.NoBacktick(tail);
      StripTaggedFencesPlain(tail, t);
      assert [a[0]] + (tail + StripTaggedFences(t)) == a + StripTaggedFences(t);
    }
  }

  /** An opening fence with a language tag and a newline is matched up to the first non-whitespace character after it. */
  lemma TaggedOpening(lang: string, x: string)
    requires forall i :: 0 <= i < |lang| ==> IsAsciiLetter(lang[i])
    requires x != [] && !IsRegexSpace(x[0])
    ensures OpensWithFence(TypedAction.Fence + lang + ("\n" + x))
    ensures AfterFence(TypedAction.Fence + lang + ("\n" + x)) == x
  {
    var head := TypedAction.Fence + lang;
    var s := head + ("\n" + x);
    assert |head| == 3 + |lang|;
    assert s[..|head|] == head;
    assert s[0] == '`' && s[1] == '`' && s[2] == '`';
    forall k | 3 <= k < |head|
      ensures IsAsciiLetter(s[k])
    {
      assert s[k] == head[k] == lang[k - 3];
    }
    assert s[|head|] == '\n';
    TypedAction.LetterRunEndAt(s, 3, |head|);
    assert s[|head|..] == "\n" + x;
    assert DropSpaces(x) == x;
    DropSpacesAppend("\n", x);
  }

  /** A fenced code block opening with a language tag and a newline is removed down to its body. */
  lemma StripFencedBlock(lang: string, body: string)
    requires forall i :: 0 <= i < |lang| ==> IsAsciiLetter(lang[i])
    requires TypedAction.NoBacktick(body) && body != [] && !IsRegexSpace(body[0])
    ensures StripTaggedFences(TypedAction.Fence + lang + "\n" + body + TypedAction.Fence) == body
  {
    var fence := TypedAction.Fence;
    var x := body + fence;
    assert fence + lang + "\n" + body + fence == fence + lang + ("\n" + x);
    assert x[0] == body[0];
    TaggedOpening(lang, x);
    StripTaggedFencesPlain(body, fence);
    assert OpensWithFence(fence);
    TypedAction.LetterRunEndAt(fence, 3, 3);
    assert AfterFence(fence) == [];
    assert body + [] == body;
  }

  /** A code block in a tagged fence cleans to its body, trimmed. */
  lemma CleanedFencedBlock(lang: string, body: string)
    requires forall i :: 0 <= i < |lang| ==> IsAsciiLetter(lang[i])
    requires TypedAction.NoBacktick(body) && NoLeadIn(body)
    requires body != [] && !IsRegexSpace(body[0]) && !IsBlank(body)
    ensures Cleaned(Some(TypedAction.Fence + lang + "\n" + body + TypedAction.Fence)) == Trim(body)
  {
    StripFencedBlock(lang, body);
    TypedAction.RemoveAllPlain(body);
    RemoveLeadInAbsent(body, ImprovedCode);
    RemoveLeadInAbsent(body, CommentedCode);
    RemoveHereIsAbsent(body);
  }

  /** cleanSuggestion returns "" exactly for a reply that is null, empty or blank. */
  lemma CleanedEmptyIffBlank(suggestion: Option<string>)
    ensures Cleaned(suggestion) == [] <==> suggestion.None? || IsBlank(suggestion.value)
  {
    if suggestion.Some? && IsBlank(suggestion.value) && suggestion.value != [] {
      var s := suggestion.value;
      BlankIffAllTrimmable(s);
      StripTaggedFencesPlain(s, []);
      assert s + [] == s;
      TypedAction.RemoveAllPlain(s);
      RemoveLeadInAbsent(s, ImprovedCode);
      RemoveLeadInAbsent(s, CommentedCode);
      RemoveHereIsAbsent(s);
      assert Stripped(s) == [] && Fallback(s) == [];
    }
  }

  // ---------------------------------------------------------------------------
  // actionPerformed: what becomes of the reply

  /** What the action ends in. */
  datatype Outcome =
    | NotAvailable                                 // no editor, file or project
    | NoSelection                                  // a warning asks for a selection
    | RequestFailed                                // no reply: an error dialog
    | NoChangeNeeded                               // an empty reply: offer the unchanged code
    | AlreadyIdentical                             // an info message, no diff
    | ShowDiff(original: string, modified: string) // the selection against the cleaned reply

  /** The checks on the reply in their order; identity is judged on the reply before it is cleaned. */
  function Decide(selected: string, reply: Option<string>): (r: Outcome)
    ensures r.RequestFailed? || r.NoChangeNeeded? || r.AlreadyIdentical? || r.ShowDiff?
  {
    if reply.None? then RequestFailed
    else if reply.value == [] then NoChangeNeeded
    else if IsSuggestionIdentical(Some(selected), reply) then AlreadyIdentical
    else ShowDiff(selected, Cleaned(reply))
  }

  /** A reply that only changes the amount of whitespace between two pieces of the selection shows no diff. */
  lemma WhitespaceEditShowsNoDiff(a: string, w1: string, w2: string, b: string)
    requires w1 != [] && w2 != [] && AllSpaces(w1) && AllSpaces(w2)
    ensures Decide(a + w1 + b, Some(a + w2 + b)) == AlreadyIdentical
  {
    IdenticalIgnoresRunLength(a, w1, w2, b);
  }

  /** The diff proposes to empty the selection exactly when the reply is blank but not empty. */
  lemma DiffEmptiesSelectionIffBlank(selected: string, reply: Option<string>)
    requires Decide(selected, reply).ShowDiff?
    ensures Decide(selected, reply).modified == [] <==> IsBlank(reply.value)
  {
    CleanedEmptyIffBlank(reply);
  }

  /**
   * Identity is judged before cleaning: the selection "x" echoed back inside a
   * fence is not identical, and the diff shown then has nothing to change.
   */
  lemma FencedEchoShowsEmptyDiff()
    ensures Decide("x", Some("```\nx```")) == ShowDiff("x", "x")
  {
    FencedEchoNotIdentical();
    FencedEchoCleaned();
  }

  lemma FencedEchoNotIdentical()
    ensures !IsSuggestionIdentical(Some("x"), Some("```\nx```"))
  {
    assert "```\nx```" == ['`'] + "``\nx```";
    NormalizeKeepsFirst('`', "``\nx```");
    assert "x" == ['x'] + [];
    NormalizeKeepsFirst('x', []);
  }

  lemma FencedEchoCleaned()
    ensures Cleaned(Some("```\nx```")) == "x"
  {
    assert "```\nx```" == TypedAction.Fence + [] + "\n" + "x" + TypedAction.Fence;
    CleanedFencedBlock([], "x");
    assert Trim("x") == "x";
  }

  class EditSelectionAction {
    /** The static fields that remember the selection for the diff view. */
    var lastSelectionStart: int
    var lastSelectionEnd: int
    var lastEditor: Option<nat>

    constructor ()
      ensures lastSelectionStart == 0 && lastSelectionEnd == 0 && lastEditor == None
    {
      lastSelectionStart := 0;
      lastSelectionEnd := 0;
      lastEditor := None;
    }

    /**
     * actionPerformed with the model's reply given: without editor, file or
     * project nothing happens; without a selection a warning; otherwise the
     * selection is remembered and the reply decided on.
     */
    method ActionPerformed(editor: Option<nat>, hasFile: bool, hasProject: bool, selected: Option<string>,
                           selectionStart: int, selectionEnd: int, reply: Option<string>)
      returns (outcome: Outcome)
      modifies this
      ensures editor.None? || !hasFile || !hasProject ==> outcome == NotAvailable && unchanged(this)
      ensures editor.Some? && hasFile && hasProject && (selected.None? || selected.value == []) ==>
                outcome == NoSelection && unchanged(this)
      ensures editor.Some? && hasFile && hasProject && selected.Some? && selected.value != [] ==>
                outcome == Decide(selected.value, reply) &&
                lastSelectionStart == selectionStart && lastSelectionEnd == selectionEnd && lastEditor == editor
    {
      if editor.None? || !hasFile || !hasProject {
        return NotAvailable;
      }
      if selected.None? || selected.value == [] {
        return NoSelection;
      }
      lastSelectionStart := selectionStart;
      lastSelectionEnd := selectionEnd;
      lastEditor := editor;
      var selectedText := selected.value;
      if reply.None? {
        return RequestFailed;
      }
      if reply.value == [] {
        return NoChangeNeeded;
      }
      if IsSuggestionIdentical(Some(selectedText), reply) {
        return AlreadyIdentical;
      }
      var cleaned := CleanSuggestion(reply);
      return ShowDiff(selectedText, cleaned);
    }
  }

  // ---------------------------------------------------------------------------
  // showDiffDialog: split("\n") for the diff log

  /** The trailing empty strings of a split dropped. */
  function DropTrailingEmpty(parts: seq<string>): (r: seq<string>)
    ensures |r| <= |parts| && r == parts[..|r|]
    ensures r == [] || r[|r| - 1] != []
    ensures forall k :: |r| <= k < |parts| ==> parts[k] == []
  {
    if parts == [] || parts[|parts| - 1] != [] then parts else DropTrailingEmpty(parts[..|parts| - 1])
  }

  /** s.split("\n"): without a '\n' the text itself, else the lines with the trailing empty ones dropped. */
  function SplitLines(s: string): (r: seq<string>)
    ensures AllNoNewline(r)
    ensures NoNewline(s) ==> r == [s]
  {
    if IndexOfChar(s, '\n', 0) == -1 then [s] else DropTrailingEmpty(Split(s))
  }

  /** Splitting a text with one more '\n' at its end gives the same lines. */
  lemma SplitLinesDropsTrailingNewline(s: string)
    requires s != []
    ensures SplitLines(s + "\n") == SplitLines(s)
  {
    var lines := Split(s);
    JoinSplit(s);
    JoinAppend(lines, [[]]);
    JoinNLOfJoin(lines);
    assert Join(lines + [[]]) == s + "\n";
    assert AllNoNewline(lines + [[]]);
    SplitJoin(lines + [[]]);
    assert IndexOfChar(s + "\n", '\n', 0) != -1;
    assert (lines + [[]])[..|lines|] == lines;
    if IndexOfChar(s, '\n', 0) == -1 {
      assert lines == [s];
    }
  }

  /** Every line followed by '\n' is the joined lines and one more '\n'. */
  lemma {:induction false} JoinNLOfJoin(lines: seq<string>)
    requires lines != []
    ensures JoinNL(lines) == Join(lines) + "\n"
  {
    if |lines| > 1 {
      JoinNLOfJoin(lines[1..]);
    } else {
      assert lines[1..] == [];
    }
  }

  /** The lines of a split, joined back, are the text up to a trailing run of '\n'. */
  lemma SplitLinesRejoin(s: string)
    requires SplitLines(s) != []
    ensures var j := Join(SplitLines(s));
            |j| <= |s| && s[..|j|] == j && forall i :: |j| <= i < |s| ==> s[i] == '\n'
  {
    var lines := Split(s);
    JoinSplit(s);
    if IndexOfChar(s, '\n', 0) != -1 {
      var r := DropTrailingEmpty(lines);
      RejoinWithEmptyLines(s, lines, |r|);
    }
  }

  /** Lines followed by empty lines join to the lines' text and a run of '\n'. */
  lemma RejoinWithEmptyLines(s: string, lines: seq<string>, n: nat)
    requires 0 < n <= |lines| && forall k :: n <= k < |lines| ==> lines[k] == []
    requires s == Join(lines)
    ensures var j := Join(lines[..n]);
            |j| <= |s| && s[..|j|] == j && forall i :: |j| <= i < |s| ==> s[i] == '\n'
  {
    var r := lines[..n];
    var e := lines[n..];
    assert lines == r + e;
    if e == [] {
      assert lines == r;
      return;
    }
    JoinAppend(r, e);
    JoinNLOfJoin(r);
    EmptyLinesJoin(e);
    var j := Join(r);
    var nl := "\n" + Join(e);
    assert s == j + nl;
    assert s[..|j|] == j;
    forall i | |j| <= i < |s|
      ensures s[i] == '\n'
    {
      assert s[i] == nl[i - |j|];
      if i > |j| {
        assert nl[i - |j|] == Join(e)[i - |j| - 1];
      }
    }
  }

  /** Empty lines joined are only '\n's. */
  lemma {:induction false} EmptyLinesJoin(e: seq<string>)
    requires e != [] && forall k :: 0 <= k < |e| ==> e[k] == []
    ensures forall i :: 0 <= i < |Join(e)| ==> Join(e)[i] == '\n'
  {
    if |e| > 1 {
      EmptyLinesJoin(e[1..]);
      assert Join(e) == "\n" + Join(e[1..]);
    }
  }
}
