/**
 * LLMCompletionContributor: an entry in the basic completion list, asked of
 * the model with the whole file as context.  The prompt holds the file name,
 * up to 1000 characters before the caret and up to 500 after it; the reply
 * loses one opening and one closing Markdown fence and is trimmed.
 *
 * The model's reply is a parameter.  The pooled thread, invokeLater and the
 * lookup element's type text and icon are not modelled.
 */
module CompletionContributor {
  import opened JavaText

  // ---------------------------------------------------------------------------
  // The text around the caret

  function BeforeCursor(fileText: string, offset: nat): (r: string)
    ensures |r| == Min(offset, |fileText|) && r == fileText[..|r|]
  {
    fileText[..Min(offset, |fileText|)]
  }

  function AfterCursor(fileText: string, offset: nat): (r: string)
    ensures |r| == |fileText| - Min(offset, |fileText|) && r == fileText[Min(offset, |fileText|)..]
  {
    fileText[Min(offset, |fileText|)..]
  }

  /** The two halves put together give the whole file back, for every offset. */
  lemma CursorSplit(fileText: string, offset: nat)
    ensures BeforeCursor(fileText, offset) + AfterCursor(fileText, offset) == fileText
  {
    assert fileText[..Min(offset, |fileText|)] + fileText[Min(offset, |fileText|)..] == fileText;
  }

  const Ellipsis: string := "..."
  const BeforeLimit: nat := 1000
  const AfterLimit: nat := 500

  /** The part before the caret in the prompt: its last 1000 characters after "..." when longer. */
  function BeforeExcerpt(before: string): (r: string)
    ensures |r| <= BeforeLimit + |Ellipsis|
    ensures |before| <= BeforeLimit ==> r == before
    ensures |before| > BeforeLimit ==> |r| == BeforeLimit + |Ellipsis| && r[..|Ellipsis|] == Ellipsis && r[|Ellipsis|..] == before[|before| - BeforeLimit..]
  {
    if |before| > BeforeLimit then Ellipsis + before[|before| - BeforeLimit..] else before
  }

  /** The part after the caret in the prompt: its first 500 characters and "..." when longer. */
  function AfterExcerpt(after: string): (r: string)
    ensures |r| <= AfterLimit + |Ellipsis|
    ensures |after| <= AfterLimit ==> r == after
    ensures |after| > AfterLimit ==> |r| == AfterLimit + |Ellipsis| && r[..AfterLimit] == after[..AfterLimit] && r[AfterLimit..] == Ellipsis
  {
    if |after| > AfterLimit then after[..AfterLimit] + Ellipsis else after
  }

  /** The characters nearest the caret always make it into the prompt, on both sides. */
  lemma ExcerptsKeepTextNearCaret(before: string, after: string)
    ensures var n := Min(|before|, BeforeLimit); var b := BeforeExcerpt(before);
      |b| >= n && b[|b| - n..] == before[|before| - n..]
    ensures var n := Min(|after|, AfterLimit);
      AfterExcerpt(after)[..n] == after[..n]
  {
  }

  // ---------------------------------------------------------------------------
  // buildCompletionPrompt

  const PromptIntro: string := "你是一个专业的 Python 代码助手。请基于以下文件的完整上下文，为光标位置提供代码补全建议。\n\n文件名："
  const BeforeLabel: string := "\n\n光标前的代码：\n```python\n"
  const AfterLabel: string := "\n```\n\n光标后的代码：\n```python\n"
  const PromptTail: string :=
    "\n```\n\n请只返回应该在光标位置插入的代码，不要包含任何解释或markdown标记。补全应该简洁、符合上下文，并遵循 Python 最佳实践。"

  /** buildCompletionPrompt: the file name and the two excerpts, each after its label. */
  function CompletionPrompt(fileName: string, before: string, after: string): string {
    PromptIntro + fileName + BeforeLabel + BeforeExcerpt(before) + AfterLabel + AfterExcerpt(after) + PromptTail
  }

  lemma ContainsPieces(a: string, f: string, b: string, x: string, c: string, y: string, d: string)
    ensures var s := a + f + b + x + c + y + d; Contains(s, f) && Contains(s, x) && Contains(s, y)
  {
    var s := a + f + b + x + c + y + d;
    assert s[|a|..|a| + |f|] == f;
    ContainsAt(s, f, |a|);
    var i := |a| + |f| + |b|;
    assert s[i..i + |x|] == x;
    ContainsAt(s, x, i);
    var j := i + |x| + |c|;
    assert s[j..j + |y|] == y;
    ContainsAt(s, y, j);
  }

  /** The prompt names the file and holds both excerpts. */
  lemma PromptHoldsContext(fileName: string, before: string, after: string)
    ensures Contains(CompletionPrompt(fileName, before, after), fileName)
    ensures Contains(CompletionPrompt(fileName, before, after), BeforeExcerpt(before))
    ensures Contains(CompletionPrompt(fileName, before, after), AfterExcerpt(after))
  {
    ContainsPieces(PromptIntro, fileName, BeforeLabel, BeforeExcerpt(before), AfterLabel, AfterExcerpt(after), PromptTail);
  }

  // ---------------------------------------------------------------------------
  // cleanSuggestion

  const Fence: string := "```"

  /** The end of the run of lower-case ASCII letters starting at i. */
  function LowerRunEnd(s: string, i: nat): (r: nat)
    requires i <= |s|
    ensures i <= r <= |s|
    ensures forall k :: i <= k < r ==> 'a' <= s[k] <= 'z'
    ensures r < |s| ==> !('a' <= s[r] <= 'z')
    decreases |s| - i
  {
    if i < |s| && 'a' <= s[i] <= 'z' then LowerRunEnd(s, i + 1) else i
  }

  /** The first fence line is there: "```", lower-case letters, a newline. */
  predicate OpensWithFence(s: string) {
    |s| >= 3 && s[..3] == Fence && LowerRunEnd(s, 3) < |s| && s[LowerRunEnd(s, 3)] == '\n'
  }

  /** replaceAll("^```[a-z]*\\n", ""): the opening fence line, only at the very start. */
  function DropOpeningFence(s: string): (r: string)
    ensures OpensWithFence(s) ==> r == s[LowerRunEnd(s, 3) + 1..]
    ensures !OpensWithFence(s) ==> r == s
  {
    if OpensWithFence(s) then s[LowerRunEnd(s, 3) + 1..] else s
  }

  const ClosingFence: string := "\n```"

  /**
   * replaceAll("\\n```$", ""): "\n```" at the very end, or just before a
   * line terminator (one character, or "\r\n") that ends the input, which
   * is where Java's `$` also matches.  The terminator stays.
   */
  function DropClosingFence(s: string): (r: string)
    ensures EndsWith(s, ClosingFence) ==> r == s[..|s| - 4]
    ensures |r| <= |s|
  {
    if EndsWith(s, ClosingFence) then s[..|s| - 4]
    else if |s| >= 5 && IsLineTerminator(s[|s| - 1]) && s[|s| - 5..|s| - 1] == ClosingFence then s[..|s| - 5] + [s[|s| - 1]]
    else if |s| >= 6 && s[|s| - 2..] == "\r\n" && s[|s| - 6..|s| - 2] == ClosingFence then s[..|s| - 6] + "\r\n"
    else s
  }

  /** Java's `$` also matches before one final line terminator, which is kept. */
  lemma ClosingFenceBeforeTerminator(body: string, t: char)
    requires IsLineTerminator(t)
    ensures DropClosingFence(body + ClosingFence + [t]) == body + [t]
  {
    var s := body + ClosingFence + [t];
    assert s[|s| - 1] == t && s[|s| - 2] == '`';
    assert s[|s| - 5..|s| - 1] == ClosingFence;
    assert s[..|s| - 5] == body;
  }

  /** cleanSuggestion */
  function CleanSuggestion(suggestion: string): (r: string)
    ensures r == [] || (!IsTrimmable(r[0]) && !IsTrimmable(r[|r| - 1]))
  {
    Trim(DropClosingFence(DropOpeningFence(suggestion)))
  }

  /** A cleaned suggestion is already trimmed: cleaning again changes nothing further than a trim. */
  lemma CleanedIsTrimmed(suggestion: string)
    ensures Trim(CleanSuggestion(suggestion)) == CleanSuggestion(suggestion)
  {
    TrimOfTrimmed(CleanSuggestion(suggestion));
  }

  /** A reply wrapped in a fenced block with a lower-case language tag comes out as its trimmed body. */
  lemma CleanFencedBlock(lang: string, body: string)
    requires forall k :: 0 <= k < |lang| ==> 'a' <= lang[k] <= 'z'
    ensures CleanSuggestion(Fence + lang + "\n" + body + ClosingFence) == Trim(body)
  {
    var s := Fence + lang + "\n" + body + ClosingFence;
    assert s[..3] == Fence;
    forall k | 3 <= k < 3 + |lang|
      ensures s[k] == lang[k - 3]
    {
    }
    LowerRunEndIs(s, 3, 3 + |lang|);
    assert s[3 + |lang|] == '\n';
    assert DropOpeningFence(s) == body + ClosingFence;
    assert DropClosingFence(body + ClosingFence) == body;
  }

  lemma {:induction false} LowerRunEndIs(s: string, i: nat, j: nat)
    requires i <= j < |s|
    requires forall k :: i <= k < j ==> 'a' <= s[k] <= 'z'
    requires !('a' <= s[j] <= 'z')
    ensures LowerRunEnd(s, i) == j
    decreases j - i
  {
    if i < j {
      LowerRunEndIs(s, i + 1, j);
    }
  }

  /** Neither fence pattern can match text without a backtick. */
  lemma NoFenceWithoutBacktick(s: string)
    requires forall k :: 0 <= k < |s| ==> s[k] != '`'
    ensures DropOpeningFence(s) == s && DropClosingFence(s) == s
  {
    var n := |s|;
    if n >= 3 {
      assert s[..3][0] == s[0];
    }
    if n >= 4 {
      assert s[n - 4..][3] == s[n - 1];
    }
    if n >= 5 {
      assert s[n - 5..n - 1][3] == s[n - 2];
    }
    if n >= 6 {
      assert s[n - 6..n - 2][3] == s[n - 3];
    }
  }

  /** A reply with no backtick in it is only trimmed. */
  lemma CleanPlainText(suggestion: string)
    requires forall k :: 0 <= k < |suggestion| ==> suggestion[k] != '`'
    ensures CleanSuggestion(suggestion) == Trim(suggestion)
  {
    NoFenceWithoutBacktick(suggestion);
  }

  // ---------------------------------------------------------------------------
  // The completion added

  /** The text shown in the list: the first 50 characters and "..." when longer. */
  function PresentableText(suggestion: string): (r: string)
    ensures |r| <= 53
    ensures |suggestion| <= 50 ==> r == suggestion
    ensures |suggestion| > 50 ==> |r| == 53 && r[..50] == suggestion[..50] && r[50..] == Ellipsis
  {
    if |suggestion| > 50 then suggestion[..50] + Ellipsis else suggestion
  }

  datatype LookupItem = LookupItem(lookupString: string, presentableText: string)

  /** The prompt addCompletions sends, or nothing when LLM completion is switched off. */
  function RequestPrompt(enabled: bool, fileName: string, fileText: string, offset: nat): (r: Option<string>)
    ensures r.Some? <==> enabled
  {
    if !enabled then None
    else Some(CompletionPrompt(fileName, BeforeCursor(fileText, offset), AfterCursor(fileText, offset)))
  }

  /** The element added for the model's reply: none for a null or empty reply. */
  function ItemFor(reply: Option<string>): (r: Option<LookupItem>)
    ensures r.Some? <==> reply.Some? && reply.value != []
    ensures r.Some? ==> r.value.lookupString == CleanSuggestion(reply.value) &&
                        r.value.presentableText == PresentableText(r.value.lookupString)
  {
    if reply.None? || reply.value == [] then None
    else
      var cleaned := CleanSuggestion(reply.value);
      Some(LookupItem(cleaned, PresentableText(cleaned)))
  }

  /** Only emptiness is checked before cleaning, so a blank reply still adds an empty entry. */
  lemma BlankReplyAddsEmptyItem()
    ensures ItemFor(Some(" ")) == Some(LookupItem("", ""))
  {
    CleanPlainText(" ");
    assert TrimStart(" ") == [];
  }
}
