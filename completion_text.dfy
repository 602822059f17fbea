/**
 * The text functions of CompletionCacheManager: code normalisation (comment
 * stripping and whitespace collapsing), the feature signature of the fuzzy
 * key, the exact and fuzzy cache keys, and the LCS-based similarity score.
 */
module CompletionText {
  import opened JavaText
  import opened EditorContext

  // ---------------------------------------------------------------------------
  // replaceAll("//[^\\n]*", "")

  /** No "//" starts anywhere in `s`. */
  predicate NoLineComment(s: string) {
    forall i :: 0 <= i < |s| - 1 ==> !(s[i] == '/' && s[i + 1] == '/')
  }

  /** The offset of the first '\n' at or after `from`, or |s|. */
  function NewlineOrEnd(s: string, from: nat): (k: nat)
    requires from <= |s|
    ensures from <= k <= |s| && (k == |s| || s[k] == '\n')
    ensures forall i :: from <= i < k ==> s[i] != '\n'
  {
    var k := IndexOfChar(s, '\n', from);
    if k < 0 then |s| else k
  }

  /** Every "//" up to (not including) the next '\n' removed, scanning left to right. */
  function StripLineComments(s: string): (r: string)
    ensures |r| <= |s|
    decreases |s|
  {
    if s == [] then []
    else if |s| >= 2 && s[0] == '/' && s[1] == '/' then
      StripLineComments(s[NewlineOrEnd(s, 2)..])
    else [s[0]] + StripLineComments(s[1..])
  }

  /** The result begins with the '\n' that ends a leading comment, or with the first character. */
  lemma {:induction false} StripLineCommentsFirst(s: string)
    ensures var r := StripLineComments(s);
            r != [] ==> r[0] == if StartsWith(s, "//") then '\n' else s[0]
    decreases |s|
  {
    if |s| >= 2 && s[0] == '/' && s[1] == '/' {
      var k := NewlineOrEnd(s, 2);
      StripLineCommentsFirst(s[k..]);
      if k < |s| {
        assert !StartsWith(s[k..], "//");
      }
    }
  }

  /** No "//" survives. */
  lemma {:induction false} StripLineCommentsClean(s: string)
    ensures NoLineComment(StripLineComments(s))
    decreases |s|
  {
    if |s| >= 2 && s[0] == '/' && s[1] == '/' {
      StripLineCommentsClean(s[NewlineOrEnd(s, 2)..]);
    } else if s != [] {
      var rest := StripLineComments(s[1..]);
      StripLineCommentsClean(s[1..]);
      StripLineCommentsFirst(s[1..]);
      var r := [s[0]] + rest;
      forall i | 0 <= i < |r| - 1
        ensures !(r[i] == '/' && r[i + 1] == '/')
      {
        if i > 0 {
          assert r[i] == rest[i - 1] && r[i + 1] == rest[i];
        }
      }
    }
  }

  /** Text without a line comment passes unchanged. */
  lemma {:induction false} StripLineCommentsNone(s: string)
    requires NoLineComment(s)
    ensures StripLineComments(s) == s
    decreases |s|
  {
    if s != [] {
      StripLineCommentsNone(s[1..]);
      assert [s[0]] + s[1..] == s;
    }
  }

  /** A comment at the very start goes, up to its '\n' (or the end). */
  lemma StripLeadingLineComment(c: string, rest: string)
    requires NoNewline(c) && (rest == [] || rest[0] == '\n')
    ensures StripLineComments("//" + c + rest) == StripLineComments(rest)
  {
    var s := "//" + c + rest;
    var k := NewlineOrEnd(s, 2);
    assert forall i :: 2 <= i < 2 + |c| ==> s[i] == c[i - 2];
    assert rest != [] ==> s[2 + |c|] == '\n';
    assert k == 2 + |c|;
    assert s[k..] == rest;
  }

  /**
   * A line comment is removed up to its '\n' (or the end), and nothing before
   * it is touched.
   */
  lemma {:induction false} StripLineCommentsAt(a: string, c: string, rest: string)
    requires NoLineComment(a) && (a == [] || a[|a| - 1] != '/')
    requires NoNewline(c) && (rest == [] || rest[0] == '\n')
    ensures StripLineComments(a + "//" + c + rest) == a + StripLineComments(rest)
    decreases |a|
  {
    if a == [] {
      assert a + "//" + c + rest == "//" + c + rest;
      StripLeadingLineComment(c, rest);
    } else {
      var s := a + "//" + c + rest;
      assert s[0] == a[0] && s[1..] == a[1..] + "//" + c + rest;
      assert !(s[0] == '/' && s[1] == '/') by {
        if |a| >= 2 {
          assert s[1] == a[1];
        } else {
          assert a[0] != '/';
        }
      }
      StripLineCommentsAt(a[1..], c, rest);
      var tail := StripLineComments(rest);
      assert StripLineComments(s) == [a[0]] + (a[1..] + tail);
      assert [a[0]] + (a[1..] + tail) == a + tail;
    }
  }

  // ---------------------------------------------------------------------------
  // replaceAll("/\\*.*?\\*/", "")

  // No block-comment opener (slash, star) starts anywhere in `s`.
  predicate NoBlockOpen(s: string) {
    forall i :: 0 <= i < |s| - 1 ==> !(s[i] == '/' && s[i + 1] == '*')
  }

  // No block-comment closer (star, slash) starts anywhere in `s`.
  predicate NoBlockClose(s: string) {
    forall i :: 0 <= i < |s| - 1 ==> !(s[i] == '*' && s[i + 1] == '/')
  }

  // Where the lazy match of the comment body that starts at `j` ends: the
  // index after the first closer, or -1 when a line terminator or the end of
  // the text comes first.
  function CommentClose(s: string, j: nat): (r: int)
    ensures r == -1 || (j + 2 <= r <= |s| && s[r - 2] == '*' && s[r - 1] == '/')
    decreases |s| - j
  {
    if j + 1 >= |s| then -1
    else if s[j] == '*' && s[j + 1] == '/' then j + 2
    else if IsLineTerminator(s[j]) then -1
    else CommentClose(s, j + 1)
  }

  /** Every one-line block comment removed, scanning left to right. */
  function StripBlockComments(s: string): (r: string)
    ensures |r| <= |s|
    decreases |s|
  {
    if s == [] then []
    else if |s| >= 2 && s[0] == '/' && s[1] == '*' && CommentClose(s, 2) >= 0 then
      StripBlockComments(s[CommentClose(s, 2)..])
    else [s[0]] + StripBlockComments(s[1..])
  }

  // Text without a block-comment opener passes unchanged.
  lemma {:induction false} StripBlockCommentsNone(s: string)
    requires NoBlockOpen(s)
    ensures StripBlockComments(s) == s
    decreases |s|
  {
    if s != [] {
      StripBlockCommentsNone(s[1..]);
      assert [s[0]] + s[1..] == s;
    }
  }

  // The close search skips a body without line terminators or closers.
  lemma {:induction false} CommentCloseAfter(s: string, body: string, j: nat, k: nat)
    requires 2 <= j <= 2 + |body| && k == 2 + |body| && k + 2 <= |s|
    requires s[2..k] == body && s[k] == '*' && s[k + 1] == '/'
    requires NoBlockClose(body) && forall i :: 0 <= i < |body| ==> !IsLineTerminator(body[i])
    ensures CommentClose(s, j) == k + 2
    decreases k - j
  {
    if j < k {
      assert s[j] == body[j - 2];
      if j + 1 < k {
        assert s[j + 1] == body[j - 1];
      }
      CommentCloseAfter(s, body, j + 1, k);
    }
  }

  // A block comment on one line at the very start goes, up to its first closer.
  lemma StripLeadingBlockComment(body: string, rest: string)
    requires NoBlockClose(body)
    requires forall i :: 0 <= i < |body| ==> !IsLineTerminator(body[i])
    ensures StripBlockComments("/*" + body + "*/" + rest) == StripBlockComments(rest)
  {
    var t := "/*" + body + "*/" + rest;
    CommentCloseAfter(t, body, 2, 2 + |body|);
    assert t[4 + |body|..] == rest;
  }

  // A block comment on one line is removed from its opener to its first
  // closer, and nothing before it is touched.
  lemma {:induction false} StripBlockCommentsAt(a: string, body: string, rest: string)
    requires NoBlockOpen(a) && NoBlockClose(body)
    requires forall i :: 0 <= i < |body| ==> !IsLineTerminator(body[i])
    ensures StripBlockComments(a + "/*" + body + "*/" + rest) == a + StripBlockComments(rest)
    decreases |a|
  {
    if a == [] {
      assert a + "/*" + body + "*/" + rest == "/*" + body + "*/" + rest;
      StripLeadingBlockComment(body, rest);
    } else {
      var s := a + "/*" + body + "*/" + rest;
      assert s[0] == a[0] && s[1..] == a[1..] + "/*" + body + "*/" + rest;
      assert !(s[0] == '/' && s[1] == '*') by {
        if |a| >= 2 {
          assert s[1] == a[1];
        } else {
          assert s[1] == '/';
        }
      }
      StripBlockCommentsAt(a[1..], body, rest);
      var tail := StripBlockComments(rest);
      assert StripBlockComments(s) == [a[0]] + (a[1..] + tail);
      assert [a[0]] + (a[1..] + tail) == a + tail;
    }
  }

  // ---------------------------------------------------------------------------
  // normalizeCode

  /** normalizeCode: comments removed, whitespace runs collapsed, trimmed; "" for null. */
  function NormalizeCode(code: Option<string>): (r: string)
    ensures code.None? ==> r == []
    ensures code.Some? ==> |r| <= |code.value|
    ensures r == [] || (!IsTrimmable(r[0]) && !IsTrimmable(r[|r| - 1]))
  {
    if code.None? then []
    else Trim(CollapseWhitespace(StripBlockComments(StripLineComments(code.value))))
  }

  /** A trailing line comment does not change the normalised code. */
  lemma TrailingCommentIgnored(a: string, c: string)
    requires NoLineComment(a) && (a == [] || a[|a| - 1] != '/') && NoNewline(c)
    ensures NormalizeCode(Some(a + "//" + c)) == NormalizeCode(Some(a))
  {
    StripLineCommentsAt(a, c, []);
    assert a + "//" + c + [] == a + "//" + c;
    assert a + [] == a;
    StripLineCommentsNone(a);
  }

  // ---------------------------------------------------------------------------
  // extractCodeFeatures

  /** No line terminator anywhere in `w`: what `.*` can cover. */
  predicate SingleLine(w: string) {
    forall k :: 0 <= k < |w| ==> !IsLineTerminator(w[k])
  }

  // The call pattern of extractCodeFeatures, which must match the whole
  // text: a word character, then a gap of `\s` characters (which may be line
  // terminators), then '('; the `.*` before the word character and the `.*`
  // after the parenthesis cannot cross a line terminator.
  predicate MatchesCallPattern(s: string) {
    exists i, j :: 0 <= i < j < |s| && IsWordChar(s[i]) && AllSpaces(s[i + 1..j]) && s[j] == '(' &&
      SingleLine(s[..i]) && SingleLine(s[j + 1..])
  }

  /** The features, in the fixed order the source tests them. */
  function CodeFeatures(code: string): (r: seq<string>)
    ensures "for" in r <==> Contains(code, "for (")
    ensures "func" in r <==> MatchesCallPattern(code)
    ensures |r| <= 7
  {
    (if Contains(code, "for (") then ["for"] else []) +
    (if Contains(code, "if (") then ["if"] else []) +
    (if Contains(code, "while (") then ["while"] else []) +
    (if Contains(code, "new ") then ["new"] else []) +
    (if Contains(code, ".") then ["method_call"] else []) +
    (if Contains(code, "=") then ["assign"] else []) +
    (if MatchesCallPattern(code) then ["func"] else [])
  }

  /** The gap between the word and '(' may hold a line break: "f\n(" has the "func" feature. */
  lemma CallFeatureAcrossLineBreak()
    ensures "func" in CodeFeatures("f\n(")
  {
    var s := "f\n(";
    assert IsWordChar(s[0]) && AllSpaces(s[1..2]) && s[2] == '(' && SingleLine(s[..0]) && SingleLine(s[3..]);
  }

  /** A line terminator after the last '(' leaves no "func" feature, since `.*` cannot cover it. */
  lemma TerminatorAfterLastParen(code: string, k: nat)
    requires k < |code| && IsLineTerminator(code[k])
    requires forall m :: k <= m < |code| ==> code[m] != '('
    ensures "func" !in CodeFeatures(code)
  {
  }

  /** String.join(sep, parts) */
  function JoinWith(parts: seq<string>, sep: string): (r: string)
    ensures parts == [] ==> r == []
    ensures |parts| == 1 ==> r == parts[0]
  {
    if parts == [] then []
    else if |parts| == 1 then parts[0]
    else parts[0] + sep + JoinWith(parts[1..], sep)
  }

  /** extractCodeFeatures: the features joined by "_"; "" for null. */
  function ExtractCodeFeatures(code: Option<string>): string {
    if code.None? then [] else JoinWith(CodeFeatures(code.value), "_")
  }

  // ---------------------------------------------------------------------------
  // Keys

  /** `h + t` starts with `h`. */
  lemma PrefixOfConcat(h: string, t: string)
    ensures StartsWith(h + t, h)
  {
    assert (h + t)[..|h|] == h;
  }

  /** What generateCacheKey appends after "fileName:". */
  function CacheKeyTail(c: CodeContext): string {
    (if c.currentMethodName.Some? then c.currentMethodName.value + ":" else []) +
    IntToString(JavaHash(NormalizeCode(c.precedingCode))) + ":" +
    IntToString(JavaHash(NormalizeCode(c.currentLine))) + ":" +
    (if c.localVariables.Some? && c.localVariables.value != [] then IntToString(JavaHash(c.localVariables.value)) else [])
  }

  /** generateCacheKey */
  function GenerateCacheKey(c: CodeContext): (r: string)
    ensures StartsWith(r, Show(c.fileName) + ":")
  {
    PrefixOfConcat(Show(c.fileName) + ":", CacheKeyTail(c));
    Show(c.fileName) + ":" + CacheKeyTail(c)
  }

  /** Contexts whose code normalises alike share an exact key. */
  lemma CacheKeyByNormalForm(c1: CodeContext, c2: CodeContext)
    requires c1.fileName == c2.fileName && c1.currentMethodName == c2.currentMethodName
    requires c1.localVariables == c2.localVariables
    requires NormalizeCode(c1.precedingCode) == NormalizeCode(c2.precedingCode)
    requires NormalizeCode(c1.currentLine) == NormalizeCode(c2.currentLine)
    ensures GenerateCacheKey(c1) == GenerateCacheKey(c2)
  {
  }

  /** generateFuzzyKey */
  function GenerateFuzzyKey(c: CodeContext): (r: string)
    ensures StartsWith(r, Show(c.fileName) + ":")
  {
    var tail := (if c.currentMethodName.Some? then c.currentMethodName.value else []) +
      ":" + ExtractCodeFeatures(c.precedingCode);
    PrefixOfConcat(Show(c.fileName) + ":", tail);
    Show(c.fileName) + ":" + tail
  }

  // ---------------------------------------------------------------------------
  // longestCommonSubsequence and calculateSimilarity

  /** The length of a longest common subsequence. */
  function Lcs(a: string, b: string): (n: nat)
    ensures n <= |a| && n <= |b|
    decreases |a| + |b|
  {
    if a == [] || b == [] then 0
    else if a[|a| - 1] == b[|b| - 1] then Lcs(a[..|a| - 1], b[..|b| - 1]) + 1
    else
      var x := Lcs(a[..|a| - 1], b);
      var y := Lcs(a, b[..|b| - 1]);
      if x >= y then x else y
  }

  /** The recurrence the table fills in, at prefixes of `a` and `b`. */
  lemma LcsStep(a: string, b: string, i: nat, j: nat)
    requires 1 <= i <= |a| && 1 <= j <= |b|
    ensures Lcs(a[..i], b[..j]) ==
              if a[i - 1] == b[j - 1] then Lcs(a[..i - 1], b[..j - 1]) + 1
              else Max(Lcs(a[..i - 1], b[..j]), Lcs(a[..i], b[..j - 1]))
  {
    assert a[..i][..i - 1] == a[..i - 1];
    assert b[..j][..j - 1] == b[..j - 1];
  }

  lemma {:induction false} LcsSymmetric(a: string, b: string)
    ensures Lcs(a, b) == Lcs(b, a)
    decreases |a| + |b|
  {
    if a != [] && b != [] {
      LcsSymmetric(a[..|a| - 1], b[..|b| - 1]);
      LcsSymmetric(a[..|a| - 1], b);
      LcsSymmetric(a, b[..|b| - 1]);
    }
  }

  lemma {:induction false} LcsSelf(a: string)
    ensures Lcs(a, a) == |a|
    decreases |a|
  {
    if a != [] {
      LcsSelf(a[..|a| - 1]);
    }
  }

  /** How much of a string the LCS looks at: its first 100 characters. */
  const LcsWindow := 100

  function Clip(s: string): (r: string)
    ensures |r| == Min(|s|, LcsWindow) && r == s[..|r|]
  {
    if |s| <= LcsWindow then s else s[..LcsWindow]
  }

  /** longestCommonSubsequence: the DP table over the first 100 characters of each string. */
  method LongestCommonSubsequence(s1: string, s2: string) returns (lcs: nat)
    ensures lcs == Lcs(Clip(s1), Clip(s2))
  {
    var a := Clip(s1);
    var b := Clip(s2);
    var m := |a|;
    var n := |b|;
    var dp := new nat[m + 1, n + 1]((_, _) => 0);
    for i := 1 to m + 1
      invariant forall p, q :: 0 <= p < i && 0 <= q <= n ==> dp[p, q] == Lcs(a[..p], b[..q])
      invariant forall p :: i <= p <= m ==> dp[p, 0] == 0
    {
      for j := 1 to n + 1
        invariant forall p, q :: 0 <= p < i && 0 <= q <= n ==> dp[p, q] == Lcs(a[..p], b[..q])
        invariant forall p :: i <= p <= m ==> dp[p, 0] == 0
        invariant forall q :: 0 <= q < j ==> dp[i, q] == Lcs(a[..i], b[..q])
      {
        LcsStep(a, b, i, j);
        if a[i - 1] == b[j - 1] {
          dp[i, j] := dp[i - 1, j - 1] + 1;
        } else {
          dp[i, j] := if dp[i - 1, j] >= dp[i, j - 1] then dp[i - 1, j] else dp[i, j - 1];
        }
      }
    }
    assert a[..m] == a && b[..n] == b;
    lcs := dp[m, n];
  }

  /** lcs * 100 / maxLen lies in [0, 100] when lcs <= maxLen. */
  lemma PercentBound(x: nat, y: nat)
    requires 0 < y && x <= y
    ensures 0 <= x * 100 / y <= 100
  {
    assert x * 100 <= y * 100;
    assert (y * 100) / y == 100;
  }

  /** The score of two normalised texts: their LCS as a percentage of the longer one. */
  function Score(n1: string, n2: string): (r: int)
    ensures 0 <= r <= 100
    ensures n1 == [] && n2 == [] ==> r == 0
  {
    var maxLen := Max(|n1|, |n2|);
    if maxLen > 0 then
      var lcs := Lcs(Clip(n1), Clip(n2));
      PercentBound(lcs, maxLen);
      lcs * 100 / maxLen
    else 0
  }

  /** calculateSimilarity: the score of the normalised texts, 0 when either is null. */
  function Similarity(code1: Option<string>, code2: Option<string>): (r: int)
    ensures 0 <= r <= 100
    ensures code1.None? || code2.None? ==> r == 0
    ensures NormalizeCode(code1) == [] && NormalizeCode(code2) == [] ==> r == 0
  {
    if code1.None? || code2.None? then 0
    else Score(NormalizeCode(code1), NormalizeCode(code2))
  }

  /** calculateSimilarity, computed with the DP table. */
  method CalculateSimilarity(code1: Option<string>, code2: Option<string>) returns (score: int)
    ensures score == Similarity(code1, code2)
  {
    if code1.None? || code2.None? {
      return 0;
    }
    var norm1 := NormalizeCode(code1);
    var norm2 := NormalizeCode(code2);
    var lcs := LongestCommonSubsequence(norm1, norm2);
    var maxLen := Max(|norm1|, |norm2|);
    score := if maxLen > 0 then lcs * 100 / maxLen else 0;
  }

  lemma ScoreSymmetric(n1: string, n2: string)
    ensures Score(n1, n2) == Score(n2, n1)
  {
    LcsSymmetric(Clip(n1), Clip(n2));
  }

  lemma SimilaritySymmetric(code1: Option<string>, code2: Option<string>)
    ensures Similarity(code1, code2) == Similarity(code2, code1)
  {
    if code1.Some? && code2.Some? {
      ScoreSymmetric(NormalizeCode(code1), NormalizeCode(code2));
    }
  }

  /**
   * Identical code scores 100 only up to 100 normalised characters: the LCS
   * looks at 100 characters but the score divides by the full length, so
   * identical code of 143 or more characters scores at most 69.
   */
  lemma SimilarityOfIdentical(code: string)
    requires NormalizeCode(Some(code)) != []
    ensures var n := |NormalizeCode(Some(code))|;
            Similarity(Some(code), Some(code)) == Min(n, LcsWindow) * 100 / n
    ensures |NormalizeCode(Some(code))| <= LcsWindow ==> Similarity(Some(code), Some(code)) == 100
    ensures |NormalizeCode(Some(code))| >= 143 ==> Similarity(Some(code), Some(code)) <= 69
  {
    var norm := NormalizeCode(Some(code));
    LcsSelf(Clip(norm));
    assert Score(norm, norm) == Lcs(Clip(norm), Clip(norm)) * 100 / |norm|;
    WindowScore(|norm|);
  }

  /** The score of a text against itself, as a function of its length n. */
  lemma WindowScore(n: nat)
    requires n > 0
    ensures n <= LcsWindow ==> Min(n, LcsWindow) * 100 / n == 100
    ensures n >= 143 ==> Min(n, LcsWindow) * 100 / n <= 69
  {
    if n <= LcsWindow {
      assert n * 100 / n == 100;
    } else {
      var q := 10000 / n;
      assert q * n <= 10000;
    }
  }
}
