/**
 * LLMTypedActionHandler: when a typed character should ask for an inline
 * completion, how the model's answer is cleaned before it is shown, and the
 * code-bearing sections of the prompt.
 */
module TypedAction {
  import opened JavaText
  import opened EditorContext

  // ---------------------------------------------------------------------------
  // Lines around the caret

  /** content.lastIndexOf('\n', offset - 1) + 1: where the caret's line starts. */
  function LineStartBefore(content: string, offset: nat): (r: nat)
    requires offset <= |content|
    ensures r <= offset
    ensures r == 0 || content[r - 1] == '\n'
    ensures forall i :: r <= i < offset ==> content[i] != '\n'
  {
    LastIndexOfChar(content, '\n', offset as int - 1) + 1
  }

  /** content.indexOf('\n', offset), or the length when there is none: where the caret's line ends. */
  function LineEndAfter(content: string, offset: nat): (r: nat)
    requires offset <= |content|
    ensures offset <= r <= |content|
    ensures r == |content| || content[r] == '\n'
    ensures forall i :: offset <= i < r ==> content[i] != '\n'
  {
    var e := IndexOfChar(content, '\n', offset);
    if e == -1 then |content| else e
  }

  // ---------------------------------------------------------------------------
  // shouldTriggerCompletion and its helpers

  /** What shouldTriggerAtLineStart looks for in a trimmed line. */
  predicate LineStartCue(line: string) {
    EndsWith(line, "{") || EndsWith(line, ";") ||
    Contains(line, "if") || Contains(line, "for") || Contains(line, "while") || Contains(line, "return")
  }

  /**
   * shouldTriggerAtLineStart as written: the cue is looked for in the text
   * from the start of the caret's own line to the caret.
   */
  predicate ShouldTriggerAtLineStart(content: string, offset: nat)
    requires offset <= |content|
  {
    offset != 0 && LineStartCue(Trim(content[LineStartBefore(content, offset)..offset]))
  }

  const SpaceKeywords: seq<string> := ["if", "for", "while", "return", "=", "new", "public", "private", "protected"]

  /** shouldTriggerAfterSpace: the trimmed text before the caret ends with a keyword. */
  predicate ShouldTriggerAfterSpace(beforeCursor: string) {
    exists k :: 0 <= k < |SpaceKeywords| && EndsWith(Trim(beforeCursor), SpaceKeywords[k])
  }

  /** What shouldTriggerAfterNewline looks for in a trimmed line. */
  predicate NewlineCue(line: string) {
    line != [] &&
    (EndsWith(line, "{") || EndsWith(line, ";") || Contains(line, ".") ||
     Contains(line, "if") || Contains(line, "for") || Contains(line, "while"))
  }

  /**
   * shouldTriggerAfterNewline: the cue in the caret's line up to the
   * character before the caret; the substring needs that line to be non-empty.
   */
  predicate ShouldTriggerAfterNewline(content: string, offset: nat)
    requires 1 <= offset <= |content| && LineStartBefore(content, offset) < offset
  {
    NewlineCue(Trim(content[LineStartBefore(content, offset)..offset - 1]))
  }

  /** Character.isLetterOrDigit, on ASCII. */
  predicate IsLetterOrDigit(c: char) {
    IsAsciiLetter(c) || ('0' <= c <= '9')
  }

  /** The caret sits on a blank line or at the start of its line: the first rule applies. */
  predicate AtBlankOrLineStart(content: string, offset: nat)
    requires offset <= |content|
  {
    var ls := LineStartBefore(content, offset);
    Trim(content[ls..LineEndAfter(content, offset)]) == [] || offset == ls
  }

  /**
   * The rules of shouldTriggerCompletion in their order, with the answer of
   * the line-start rule given as `atLineStart`.
   */
  function TriggerWith(content: string, offset: nat, c: char, atLineStart: bool): (r: bool)
    requires offset <= |content|
    ensures offset == 0 ==> !r
  {
    if offset == 0 then false
    else
      var beforeCursor := Trim(content[LineStartBefore(content, offset)..offset]);
      if AtBlankOrLineStart(content, offset) then atLineStart
      else if c == ';' || c == '}' || c == '{' then true
      else if c == ' ' then ShouldTriggerAfterSpace(beforeCursor)
      else if c == '.' || c == '(' || c == '=' then true
      else if IsLetterOrDigit(c) && beforeCursor != [] then true
      else if c == '\n' then ShouldTriggerAfterNewline(content, offset)
      else false
  }

  /** shouldTriggerCompletion as written. */
  function ShouldTriggerCompletion(content: string, offset: nat, c: char): (r: bool)
    requires offset <= |content|
    ensures offset == 0 ==> !r
  {
    TriggerWith(content, offset, c, ShouldTriggerAtLineStart(content, offset))
  }

  /** Past the line-start rule, ; } { . ( = always trigger. */
  lemma TriggerOnPunctuation(content: string, offset: nat, c: char, atLineStart: bool)
    requires 0 < offset <= |content| && !AtBlankOrLineStart(content, offset)
    requires c == ';' || c == '}' || c == '{' || c == '.' || c == '(' || c == '='
    ensures TriggerWith(content, offset, c, atLineStart)
  {
  }

  /** Past the line-start rule, a space triggers exactly after a keyword. */
  lemma TriggerOnSpace(content: string, offset: nat, atLineStart: bool)
    requires 0 < offset <= |content| && !AtBlankOrLineStart(content, offset)
    ensures TriggerWith(content, offset, ' ', atLineStart) ==
            ShouldTriggerAfterSpace(Trim(content[LineStartBefore(content, offset)..offset]))
  {
  }

  /** Past the line-start rule, a letter or digit triggers exactly after non-blank text. */
  lemma TriggerOnLetterOrDigit(content: string, offset: nat, c: char, atLineStart: bool)
    requires 0 < offset <= |content| && !AtBlankOrLineStart(content, offset)
    requires IsLetterOrDigit(c)
    ensures TriggerWith(content, offset, c, atLineStart) == (Trim(content[LineStartBefore(content, offset)..offset]) != [])
  {
    assert !(c == ';' || c == '}' || c == '{' || c == ' ' || c == '.' || c == '(' || c == '=');
  }

  /** Past the line-start rule, no other character but a newline triggers. */
  lemma NoTriggerOtherwise(content: string, offset: nat, c: char, atLineStart: bool)
    requires 0 < offset <= |content| && !AtBlankOrLineStart(content, offset)
    requires !(c == ';' || c == '}' || c == '{' || c == '.' || c == '(' || c == '=' || c == ' ' || c == '\n')
    requires !IsLetterOrDigit(c)
    ensures !TriggerWith(content, offset, c, atLineStart)
  {
  }

  /** An empty trimmed text holds no cue. */
  lemma NoCueInBlank(line: string)
    requires line == []
    ensures !LineStartCue(line)
  {
    assert !Contains(line, "if") && !Contains(line, "for") && !Contains(line, "while") && !Contains(line, "return");
  }

  /**
   * The line-start rule never fires: it is asked only when the text from the
   * line start to the caret is empty or blank, and that is where it looks.
   */
  lemma LineStartRuleNeverFires(content: string, offset: nat, c: char)
    requires offset <= |content| && AtBlankOrLineStart(content, offset)
    ensures !ShouldTriggerAtLineStart(content, offset)
    ensures !ShouldTriggerCompletion(content, offset, c)
  {
    if offset != 0 {
      var ls := LineStartBefore(content, offset);
      var le := LineEndAfter(content, offset);
      var before := content[ls..offset];
      if offset != ls {
        BlankIffAllTrimmable(content[ls..le]);
        assert forall i :: 0 <= i < |before| ==> before[i] == content[ls..le][i];
        BlankIffAllTrimmable(before);
      }
      NoCueInBlank(Trim(before));
    }
  }

  /** The line above the caret's line, without its '\n'; empty on the first line. */
  function PreviousLine(content: string, offset: nat): (r: string)
    requires offset <= |content|
    ensures NoNewline(r)
  {
    var ls := LineStartBefore(content, offset);
    if ls == 0 then []
    else
      content[LineStartBefore(content, ls - 1)..ls - 1]
  }

  /** shouldTriggerAtLineStart as its comments describe it: the cue is looked for in the previous line. */
  predicate ShouldTriggerAtLineStartIntended(content: string, offset: nat)
    requires offset <= |content|
  {
    offset != 0 && LineStartCue(Trim(PreviousLine(content, offset)))
  }

  /** shouldTriggerCompletion with the intended line-start rule. */
  function ShouldTriggerCompletionIntended(content: string, offset: nat, c: char): (r: bool)
    requires offset <= |content|
    ensures offset == 0 ==> !r
    ensures !AtBlankOrLineStart(content, offset) ==> r == ShouldTriggerCompletion(content, offset, c)
  {
    TriggerWith(content, offset, c, ShouldTriggerAtLineStartIntended(content, offset))
  }

  /** The last '\n' at or before `from` is the one at `at` when none lies between. */
  lemma LastNewlineAt(s: string, at: int, from: int)
    requires -1 <= at <= from < |s|
    requires at >= 0 ==> s[at] == '\n'
    requires forall i :: at < i <= from && 0 <= i ==> s[i] != '\n'
    ensures LastIndexOfChar(s, '\n', from) == at
  {
  }

  /** On a blank line or at a line start, the line-start rule alone decides. */
  lemma LineStartRuleDecides(content: string, offset: nat, c: char, atLineStart: bool)
    requires 0 < offset <= |content| && AtBlankOrLineStart(content, offset)
    ensures TriggerWith(content, offset, c, atLineStart) == atLineStart
  {
  }

  /** The caret at the end of a blank last line that follows the line `p`. */
  lemma BlankLineAfter(x: string, p: string, w: string)
    requires x == [] || x[|x| - 1] == '\n'
    requires NoNewline(p) && NoNewline(w) && IsBlank(w)
    ensures var content := x + p + "\n" + w;
            LineStartBefore(content, |content|) == |x| + |p| + 1 && AtBlankOrLineStart(content, |content|)
  {
    var content := x + p + "\n" + w;
    var nl := |x| + |p|;
    assert content[nl] == '\n';
    assert forall i :: nl < i < |content| ==> content[i] == w[i - nl - 1];
    LastNewlineAt(content, nl, |content| - 1);
    assert content[nl + 1..|content|] == w;
  }

  /** The line above a blank last line that follows `p` is `p`. */
  lemma PreviousLineOf(x: string, p: string, w: string)
    requires x == [] || x[|x| - 1] == '\n'
    requires NoNewline(p) && NoNewline(w) && IsBlank(w)
    ensures var content := x + p + "\n" + w;
            PreviousLine(content, |content|) == p
  {
    var content := x + p + "\n" + w;
    var nl := |x| + |p|;
    BlankLineAfter(x, p, w);
    assert forall i :: |x| <= i < nl ==> content[i] == p[i - |x|];
    if x == [] {
      LastNewlineAt(content, -1, nl - 1);
    } else {
      assert content[|x| - 1] == x[|x| - 1];
      LastNewlineAt(content, |x| - 1, nl - 1);
    }
    assert LineStartBefore(content, nl) == |x|;
    assert content[|x|..nl] == p;
    assert PreviousLine(content, |content|) == content[LineStartBefore(content, nl)..nl];
  }

  /**
   * With the intended rule, on a blank line after the line `p`, completion
   * triggers exactly when `p` (trimmed) carries the cue, whatever was typed.
   */
  lemma IntendedTriggersAfterCue(x: string, p: string, w: string, c: char)
    requires x == [] || x[|x| - 1] == '\n'
    requires NoNewline(p) && NoNewline(w) && IsBlank(w)
    ensures var content := x + p + "\n" + w;
            ShouldTriggerCompletionIntended(content, |content|, c) == LineStartCue(Trim(p))
  {
    var content := x + p + "\n" + w;
    BlankLineAfter(x, p, w);
    PreviousLineOf(x, p, w);
    LineStartRuleDecides(content, |content|, c, ShouldTriggerAtLineStartIntended(content, |content|));
  }

  /** "{\n" with the caret after the newline: the rule as written stays silent where the intended one fires. */
  lemma LineStartCounterexample()
    ensures !ShouldTriggerCompletion("{\n", 2, 'a')
    ensures ShouldTriggerCompletionIntended("{\n", 2, 'a')
  {
    assert "{\n" == [] + "{" + "\n" + [];
    IntendedTriggersAfterCue([], "{", [], 'a');
    assert Trim("{") == "{";
    assert LineStartCue("{");
    LineStartRuleNeverFires("{\n", 2, 'a');
  }

  // ---------------------------------------------------------------------------
  // cleanSuggestion

  const Fence: string := "```"

  /** The end of the run of ASCII letters that starts at `i`. */
  function LetterRunEnd(s: string, i: nat): (j: nat)
    requires i <= |s|
    ensures i <= j <= |s|
    ensures forall k :: i <= k < j ==> IsAsciiLetter(s[k])
    ensures j == |s| || !IsAsciiLetter(s[j])
    decreases |s| - i
  {
    if i < |s| && IsAsciiLetter(s[i]) then LetterRunEnd(s, i + 1) else i
  }

  /** The end of a match of ```[a-zA-Z]*\n? at the start of `s`. */
  function FenceEnd(s: string): (j: nat)
    requires StartsWith(s, Fence)
    ensures 3 <= j <= |s|
  {
    var k := LetterRunEnd(s, 3);
    if k < |s| && s[k] == '\n' then k + 1 else k
  }

  /** replaceAll("```[a-zA-Z]*\\n?", ""): every fence with its language tag and newline removed. */
  function StripFences(s: string): (r: string)
    ensures |r| <= |s|
    decreases |s|
  {
    if s == [] then []
    else if StartsWith(s, Fence) then StripFences(s[FenceEnd(s)..])
    else [s[0]] + StripFences(s[1..])
  }

  /** replaceAll of a literal: every occurrence of `p`, scanning left to right, removed. */
  function RemoveAll(s: string, p: string): (r: string)
    requires p != []
    ensures |r| <= |s|
    decreases |s|
  {
    if s == [] then []
    else if StartsWith(s, p) then RemoveAll(s[|p|..], p)
    else [s[0]] + RemoveAll(s[1..], p)
  }

  predicate NoBacktick(s: string) {
    forall i :: 0 <= i < |s| ==> s[i] != '`'
  }

  /** A character other than a backtick is kept as it is. */
  lemma StripFencesStep(a: string, t: string)
    requires a != [] && a[0] != '`'
    ensures StripFences(a + t) == [a[0]] + StripFences(a[1..] + t)
  {
    var s := a + t;
    assert s[0] == a[0];
    assert !StartsWith(s, Fence) by {
      if |s| >= 3 {
        assert s[..3][0] != Fence[0];
      }
    }
    assert s[1..] == a[1..] + t;
  }

  lemma {:induction false} StripFencesPlain(a: string, t: string)
    requires NoBacktick(a)
    ensures StripFences(a + t) == a + StripFences(t)
    decreases |a|
  {
    if a == [] {
      assert a + t == t;
    } else {
      StripFencesStep(a, t);
      assert NoBacktick(a[1..]);
      StripFencesPlain(a[1..], t);
      assert [a[0]] + (a[1..] + StripFences(t)) == a + StripFences(t);
    }
  }

  lemma {:induction false} RemoveAllPlain(a: string)
    requires NoBacktick(a)
    ensures RemoveAll(a, Fence) == a
    decreases |a|
  {
    if a != [] {
      assert a[0] != '`';
      RemoveAllPlain(a[1..]);
      assert [a[0]] + a[1..] == a;
    }
  }

  lemma {:induction false} LetterRunEndAt(s: string, i: nat, j: nat)
    requires i <= j <= |s|
    requires forall k :: i <= k < j ==> IsAsciiLetter(s[k])
    requires j == |s| || !IsAsciiLetter(s[j])
    ensures LetterRunEnd(s, i) == j
    decreases j - i
  {
    if i < j {
      LetterRunEndAt(s, i + 1, j);
    }
  }

  /** The markdown text-processing steps: fences gone, trimmed. */
  function Unfenced(s: string): string {
    Trim(RemoveAll(StripFences(s), Fence))
  }

  /** A code block in a fence with a language tag comes back as its body, trimmed. */
  lemma UnfenceWrapped(lang: string, body: string)
    requires forall i :: 0 <= i < |lang| ==> IsAsciiLetter(lang[i])
    requires NoBacktick(body)
    ensures Unfenced(Fence + lang + "\n" + body + Fence) == Trim(body)
  {
    var s := Fence + lang + "\n" + body + Fence;
    assert StartsWith(s, Fence);
    assert forall k :: 3 <= k < 3 + |lang| ==> s[k] == lang[k - 3];
    assert s[3 + |lang|] == '\n';
    LetterRunEndAt(s, 3, 3 + |lang|);
    assert s[FenceEnd(s)..] == body + Fence;
    StripFencesPlain(body, Fence);
    LetterRunEndAt(Fence, 3, 3);
    assert StripFences(Fence) == StripFences([]);
    assert body + [] == body;
    RemoveAllPlain(body);
  }

  /** The echo of the text before the cursor removed from the suggestion's start, then trimmed again. */
  function DropEcho(s: string, beforeCursor: string): (r: string)
    ensures |r| <= |s|
    ensures StartsWith(s, beforeCursor) ==> r == Trim(s[|beforeCursor|..])
    ensures !StartsWith(s, beforeCursor) ==> r == s
  {
    if StartsWith(s, beforeCursor) then Trim(s[|beforeCursor|..]) else s
  }

  /** A suggestion that repeats the typed text keeps only what follows it. */
  lemma DropEchoOfRepeat(beforeCursor: string, rest: string)
    ensures DropEcho(beforeCursor + rest, beforeCursor) == Trim(rest)
  {
    assert (beforeCursor + rest)[..|beforeCursor|] == beforeCursor;
    assert (beforeCursor + rest)[|beforeCursor|..] == rest;
  }

  /**
   * The length limit: past `maxLength`, cut at the last '\n' at or before the
   * limit when it lies beyond half the limit, else cut hard at the limit.
   */
  function Truncate(s: string, maxLength: nat): (r: string)
    ensures |r| <= maxLength || r == s
    ensures |s| <= maxLength ==> r == s
    ensures |s| > maxLength ==> |r| <= maxLength && r == s[..|r|]
    ensures |s| > maxLength ==>
              (|r| == maxLength && forall i :: maxLength / 2 < i <= maxLength ==> s[i] != '\n') ||
              (maxLength / 2 < |r| <= maxLength && s[|r|] == '\n' &&
               forall i :: |r| < i <= maxLength ==> s[i] != '\n')
  {
    if |s| <= maxLength then s
    else
      var cutPos := LastIndexOfChar(s, '\n', maxLength);
      if cutPos > 0 && cutPos > maxLength / 2 then s[..cutPos] else s[..maxLength]
  }

  /** The text before the cursor on the context's line, trimmed. */
  function BeforeCursor(ctx: CodeContext): string
    requires ctx.currentLine.Some? && 0 <= ctx.cursorPositionInLine <= |ctx.currentLine.value|
  {
    Trim(ctx.currentLine.value[..ctx.cursorPositionInLine])
  }

  /** cleanSuggestion: fences removed, trimmed, the echo of the typed text dropped, the length limited. */
  method CleanSuggestion(suggestion: Option<string>, ctx: CodeContext, maxLength: nat) returns (r: string)
    requires suggestion.Some? ==> ctx.currentLine.Some? && 0 <= ctx.cursorPositionInLine <= |ctx.currentLine.value|
    ensures suggestion.None? ==> r == []
    ensures suggestion.Some? ==> r == Truncate(DropEcho(Unfenced(suggestion.value), BeforeCursor(ctx)), maxLength)
    ensures |r| <= maxLength
  {
    if suggestion.None? {
      return [];
    }
    var s := StripFences(suggestion.value);
    s := RemoveAll(s, Fence);
    s := Trim(s);
    assert s == Unfenced(suggestion.value);
    var beforeCursor := Trim(ctx.currentLine.value[..ctx.cursorPositionInLine]);
    if StartsWith(s, beforeCursor) {
      s := Trim(s[|beforeCursor|..]);
    }
    assert s == DropEcho(Unfenced(suggestion.value), BeforeCursor(ctx));
    r := LimitLength(s, maxLength);
  }

  /** The length limit of cleanSuggestion, applied to the cleaned text. */
  method LimitLength(s: string, maxLength: nat) returns (r: string)
    ensures r == Truncate(s, maxLength)
  {
    r := s;
    if |s| > maxLength {
      var cutPos := LastIndexOfChar(s, '\n', maxLength);
      if cutPos > 0 && cutPos > maxLength / 2 {
        r := s[..cutPos];
      } else {
        r := s[..maxLength];
      }
    }
  }

  // ---------------------------------------------------------------------------
  // buildOptimizedPrompt: the code-bearing sections

  const PrecedingHeader: string := "\n=== 前置代码 ===\n"
  const CurrentLineHeader: string := "\n\n=== 当前行 ===\n"
  const LastInputLabel: string := "\n\n最后输入: '"

  /** The preceding code as the prompt shows it: at most its last 300 characters, marked with "...". */
  function PrecedingExcerpt(preceding: Option<string>): (r: string)
    ensures preceding.None? ==> r == []
    ensures preceding.Some? && |preceding.value| <= 300 ==> r == preceding.value
    ensures preceding.Some? && |preceding.value| > 300 ==>
              |r| == 303 && StartsWith(r, "...") && EndsWith(preceding.value, r[3..])
  {
    if preceding.None? || preceding.value == [] then []
    else
      var p := preceding.value;
      if |p| > 300 then "..." + p[|p| - 300..] else p
  }

  /** The current line with '|' at the cursor. */
  function WithCursor(line: string, pos: nat): (r: string)
    requires pos <= |line|
    ensures |r| == |line| + 1 && r[pos] == '|'
    ensures r[..pos] + r[pos + 1..] == line
  {
    var r := line[..pos] + "|" + line[pos..];
    assert r[..pos] == line[..pos] && r[pos + 1..] == line[pos..];
    r
  }

  /** The sections of buildOptimizedPrompt that carry the code, appended in order. */
  method PromptCodeSections(ctx: CodeContext, lastChar: char) returns (prompt: string)
    requires ctx.currentLine.Some? && 0 <= ctx.cursorPositionInLine <= |ctx.currentLine.value|
    ensures prompt == PrecedingHeader + PrecedingExcerpt(ctx.precedingCode) + CurrentLineHeader +
                      WithCursor(ctx.currentLine.value, ctx.cursorPositionInLine) + LastInputLabel + [lastChar] + "'\n\n"
  {
    prompt := PrecedingHeader;
    if ctx.precedingCode.Some? && ctx.precedingCode.value != [] {
      var preceding := ctx.precedingCode.value;
      if |preceding| > 300 {
        preceding := "..." + preceding[|preceding| - 300..];
      }
      prompt := prompt + preceding;
    }
    ghost var head := prompt;
    assert head == PrecedingHeader + PrecedingExcerpt(ctx.precedingCode);
    prompt := prompt + CurrentLineHeader;
    var line := ctx.currentLine.value;
    prompt := prompt + line[..ctx.cursorPositionInLine];
    prompt := prompt + "|";
    if ctx.cursorPositionInLine < |line| {
      prompt := prompt + line[ctx.cursorPositionInLine..];
    } else {
      assert line[ctx.cursorPositionInLine..] == [];
    }
    assert prompt == head + CurrentLineHeader + WithCursor(line, ctx.cursorPositionInLine);
    prompt := prompt + LastInputLabel + [lastChar] + "'\n\n";
  }
}
