/**
 * The parts of java.lang.String (and of the few regular expressions the plugin
 * applies) that the rest of the model relies on, stated over `seq<char>`.
 */
module JavaText {

  /** A Java reference that may be null. */
  datatype Option<+T> = None | Some(value: T)

  // ---------------------------------------------------------------------------
  // Prefixes, suffixes, substrings

  predicate StartsWith(s: string, p: string) {
    |p| <= |s| && s[..|p|] == p
  }

  predicate EndsWith(s: string, p: string) {
    |p| <= |s| && s[|s| - |p|..] == p
  }

  /** String.contains: `p` occurs somewhere in `s`. */
  predicate Contains(s: string, p: string)
    decreases |s|
  {
    StartsWith(s, p) || (s != [] && Contains(s[1..], p))
  }

  lemma {:induction false} ContainsAt(s: string, p: string, i: nat)
    requires i + |p| <= |s| && s[i..i + |p|] == p
    ensures Contains(s, p)
    decreases i
  {
    if i > 0 {
      assert s[1..][i - 1..i - 1 + |p|] == s[i..i + |p|];
      ContainsAt(s[1..], p, i - 1);
    }
  }

  // ---------------------------------------------------------------------------
  // String.trim: removes every leading and trailing char whose code is <= U+0020

  predicate IsTrimmable(c: char) {
    c <= ' '
  }

  function TrimStart(s: string): (r: string)
    ensures |r| <= |s| && r == s[|s| - |r|..]
    ensures r == [] || !IsTrimmable(r[0])
    ensures forall i :: 0 <= i < |s| - |r| ==> IsTrimmable(s[i])
  {
    if s != [] && IsTrimmable(s[0]) then TrimStart(s[1..]) else s
  }

  function TrimEnd(s: string): (r: string)
    ensures |r| <= |s| && r == s[..|r|]
    ensures r == [] || !IsTrimmable(r[|r| - 1])
    ensures forall i :: |r| <= i < |s| ==> IsTrimmable(s[i])
  {
    if s != [] && IsTrimmable(s[|s| - 1]) then TrimEnd(s[..|s| - 1]) else s
  }

  /** String.trim */
  function Trim(s: string): (r: string)
    ensures |r| <= |s|
    ensures r == [] || (!IsTrimmable(r[0]) && !IsTrimmable(r[|r| - 1]))
  {
    TrimEnd(TrimStart(s))
  }

  /** `s.trim().isEmpty()` */
  predicate IsBlank(s: string) {
    Trim(s) == []
  }

  lemma BlankIffAllTrimmable(s: string)
    ensures IsBlank(s) <==> forall i :: 0 <= i < |s| ==> IsTrimmable(s[i])
  {
    var t := TrimStart(s);
    if t != [] {
      assert t[0] == s[|s| - |t|];
    }
  }

  lemma TrimOfTrimmed(s: string)
    requires s == [] || (!IsTrimmable(s[0]) && !IsTrimmable(s[|s| - 1]))
    ensures Trim(s) == s
  {
  }

  lemma TrimIdempotent(s: string)
    ensures Trim(Trim(s)) == Trim(s)
  {
    TrimOfTrimmed(Trim(s));
  }

  // ---------------------------------------------------------------------------
  // Character classes

  /** The regular-expression class \s: [ \t\n\x0B\f\r] */
  predicate IsRegexSpace(c: char) {
    c == ' ' || c == '\t' || c == '\n' || c == '\U{000B}' || c == '\U{000C}' || c == '\r'
  }

  /** The regular-expression class \w: [a-zA-Z_0-9] */
  predicate IsWordChar(c: char) {
    ('a' <= c <= 'z') || ('A' <= c <= 'Z') || ('0' <= c <= '9') || c == '_'
  }

  predicate IsAsciiLetter(c: char) {
    ('a' <= c <= 'z') || ('A' <= c <= 'Z')
  }

  /** What '.' does not match in a Java regular expression (without DOTALL). */
  predicate IsLineTerminator(c: char) {
    c == '\n' || c == '\r' || c == '\U{0085}' || c == '\U{2028}' || c == '\U{2029}'
  }

  lemma SpaceIsTrimmable(c: char)
    requires IsRegexSpace(c)
    ensures IsTrimmable(c)
  {
  }

  // ---------------------------------------------------------------------------
  // s.replaceAll("\\s+", " "): every maximal run of \s becomes one space

  function DropSpaces(s: string): (r: string)
    ensures |r| <= |s| && r == s[|s| - |r|..]
    ensures r == [] || !IsRegexSpace(r[0])
    ensures forall i :: 0 <= i < |s| - |r| ==> IsRegexSpace(s[i])
  {
    if s != [] && IsRegexSpace(s[0]) then DropSpaces(s[1..]) else s
  }

  function CollapseWhitespace(s: string): (r: string)
    ensures |r| <= |s|
    ensures forall i :: 0 <= i < |r| && IsRegexSpace(r[i]) ==> r[i] == ' '
    ensures forall i :: 0 <= i < |r| - 1 ==> !(IsRegexSpace(r[i]) && IsRegexSpace(r[i + 1]))
    decreases |s|
  {
    if s == [] then []
    else if IsRegexSpace(s[0]) then
      var rest := DropSpaces(s);
      var tail := CollapseWhitespace(rest);
      assert tail == [] || !IsRegexSpace(tail[0]) by {
        if rest != [] {
          assert !IsRegexSpace(rest[0]);
          assert tail == [rest[0]] + CollapseWhitespace(rest[1..]);
        }
      }
      [' '] + tail
    else [s[0]] + CollapseWhitespace(s[1..])
  }

  /** A run of whitespace characters. */
  predicate AllSpaces(w: string) {
    forall i :: 0 <= i < |w| ==> IsRegexSpace(w[i])
  }

  lemma {:induction false} DropSpacesAppend(w: string, b: string)
    requires AllSpaces(w)
    ensures DropSpaces(w + b) == DropSpaces(b)
    decreases |w|
  {
    if w != [] {
      var wb := w + b;
      assert wb[0] == w[0] && IsRegexSpace(wb[0]);
      assert wb[1..] == w[1..] + b;
      assert DropSpaces(wb) == DropSpaces(wb[1..]);
      DropSpacesAppend(w[1..], b);
    } else {
      assert w + b == b;
    }
  }

  lemma {:induction false} DropSpacesSplit(a: string, t: string)
    requires !AllSpaces(a)
    ensures DropSpaces(a + t) == DropSpaces(a) + t
    decreases |a|
  {
    var at := a + t;
    assert a != [] && at[0] == a[0];
    if IsRegexSpace(a[0]) {
      assert at[1..] == a[1..] + t;
      assert DropSpaces(at) == DropSpaces(at[1..]);
      assert DropSpaces(a) == DropSpaces(a[1..]);
      DropSpacesSplit(a[1..], t);
    } else {
      assert DropSpaces(at) == at;
      assert DropSpaces(a) == a;
    }
  }

  lemma CollapseLeadingRun(w: string, b: string)
    requires w != [] && AllSpaces(w)
    ensures CollapseWhitespace(w + b) == [' '] + CollapseWhitespace(DropSpaces(b))
  {
    var wb := w + b;
    assert wb[0] == w[0];
    DropSpacesAppend(w, b);
  }

  lemma CollapseCons(c: char, t: string)
    requires !IsRegexSpace(c)
    ensures CollapseWhitespace([c] + t) == [c] + CollapseWhitespace(t)
  {
    assert ([c] + t)[1..] == t;
  }

  /** Only whether a gap holds whitespace matters to CollapseWhitespace, not how much. */
  lemma {:induction false} CollapseIgnoresRunLength(a: string, w1: string, w2: string, b: string)
    requires w1 != [] && w2 != [] && AllSpaces(w1) && AllSpaces(w2)
    ensures CollapseWhitespace(a + w1 + b) == CollapseWhitespace(a + w2 + b)
    decreases |a|
  {
    if a == [] {
      assert a + w1 + b == w1 + b && a + w2 + b == w2 + b;
      CollapseLeadingRun(w1, b);
      CollapseLeadingRun(w2, b);
    } else if !IsRegexSpace(a[0]) {
      CollapseIgnoresRunLength(a[1..], w1, w2, b);
      CollapseStepNonSpace(a, w1, b);
      CollapseStepNonSpace(a, w2, b);
    } else if AllSpaces(a) {
      assert a + w1 + b == (a + w1) + b && a + w2 + b == (a + w2) + b;
      CollapseLeadingRun(a + w1, b);
      CollapseLeadingRun(a + w2, b);
    } else {
      var a' := DropSpaces(a);
      assert a' != a;
      CollapseIgnoresRunLength(a', w1, w2, b);
      CollapseStepSpace(a, w1, b);
      CollapseStepSpace(a, w2, b);
    }
  }

  lemma CollapseStepNonSpace(a: string, w: string, b: string)
    requires a != [] && !IsRegexSpace(a[0])
    ensures CollapseWhitespace(a + w + b) == [a[0]] + CollapseWhitespace(a[1..] + w + b)
  {
    assert a + w + b == [a[0]] + (a[1..] + w + b);
    CollapseCons(a[0], a[1..] + w + b);
  }

  lemma CollapseStepSpace(a: string, w: string, b: string)
    requires a != [] && IsRegexSpace(a[0]) && !AllSpaces(a)
    ensures CollapseWhitespace(a + w + b) == [' '] + CollapseWhitespace(DropSpaces(a) + w + b)
  {
    var t := w + b;
    var d := DropSpaces(a);
    assert a + w + b == a + t;
    assert d + w + b == d + t;
    CollapseDropsLeadingRun(a, t);
  }

  lemma CollapseDropsLeadingRun(a: string, t: string)
    requires a != [] && IsRegexSpace(a[0]) && !AllSpaces(a)
    ensures CollapseWhitespace(a + t) == [' '] + CollapseWhitespace(DropSpaces(a) + t)
  {
    var at := a + t;
    assert at[0] == a[0];
    DropSpacesSplit(a, t);
  }

  // ---------------------------------------------------------------------------
  // indexOf / lastIndexOf for a single character

  /** s.indexOf(c, from): the first index >= from holding c, or -1. */
  function IndexOfChar(s: string, c: char, from: nat): (r: int)
    ensures -1 <= r < |s|
    ensures r >= 0 ==> from <= r && s[r] == c
    ensures r >= 0 ==> forall i :: from <= i < r ==> s[i] != c
    ensures r == -1 ==> forall i :: from <= i < |s| ==> s[i] != c
    decreases |s| - from
  {
    if from >= |s| then -1
    else if s[from] == c then from
    else IndexOfChar(s, c, from + 1)
  }

  /** s.lastIndexOf(c, from): the last index <= from holding c, or -1. */
  function LastIndexOfChar(s: string, c: char, from: int): (r: int)
    ensures -1 <= r < |s| && (r >= 0 ==> r <= from)
    ensures r >= 0 ==> s[r] == c
    ensures forall i :: r < i < |s| && i <= from ==> s[i] != c
    decreases if from < 0 then 0 else from + 1
  {
    if from < 0 then -1
    else if from >= |s| then LastIndexOfChar(s, c, |s| - 1)
    else if s[from] == c then from
    else LastIndexOfChar(s, c, from - 1)
  }

  // ---------------------------------------------------------------------------
  // split("\n", -1) and its inverse

  predicate NoNewline(s: string) {
    forall i :: 0 <= i < |s| ==> s[i] != '\n'
  }

  predicate AllNoNewline(lines: seq<string>) {
    forall k :: 0 <= k < |lines| ==> NoNewline(lines[k])
  }

  /** The lines joined by "\n" (the inverse of split("\n", -1)). */
  function Join(lines: seq<string>): string
    requires lines != []
  {
    if |lines| == 1 then lines[0] else lines[0] + "\n" + Join(lines[1..])
  }

  /** Every line followed by "\n" (what buildOriginalCode produces). */
  function JoinNL(lines: seq<string>): string {
    if lines == [] then [] else lines[0] + "\n" + JoinNL(lines[1..])
  }

  lemma {:induction false} JoinNLAppend(a: seq<string>, b: seq<string>)
    ensures JoinNL(a + b) == JoinNL(a) + JoinNL(b)
  {
    if a != [] {
      var ab := a + b;
      assert ab[0] == a[0] && ab[1..] == a[1..] + b;
      JoinNLAppend(a[1..], b);
      calc {
        JoinNL(ab);
        a[0] + "\n" + JoinNL(a[1..] + b);
        a[0] + "\n" + (JoinNL(a[1..]) + JoinNL(b));
        (a[0] + "\n" + JoinNL(a[1..])) + JoinNL(b);
      }
    } else {
      assert a + b == b;
    }
  }

  lemma {:induction false} JoinAppend(a: seq<string>, b: seq<string>)
    requires b != []
    ensures Join(a + b) == JoinNL(a) + Join(b)
  {
    if a != [] {
      var ab := a + b;
      assert |ab| > 1 && ab[0] == a[0] && ab[1..] == a[1..] + b;
      JoinAppend(a[1..], b);
      calc {
        Join(ab);
        a[0] + "\n" + Join(a[1..] + b);
        a[0] + "\n" + (JoinNL(a[1..]) + Join(b));
        (a[0] + "\n" + JoinNL(a[1..])) + Join(b);
      }
    } else {
      assert a + b == b;
    }
  }

  /** s.split("\n", -1): every line, trailing empty ones included. */
  function Split(s: string): (lines: seq<string>)
    ensures lines != [] && AllNoNewline(lines)
    decreases |s|
  {
    var i := IndexOfChar(s, '\n', 0);
    if i < 0 then [s] else [s[..i]] + Split(s[i + 1..])
  }

  lemma {:induction false} JoinSplit(s: string)
    ensures Join(Split(s)) == s
    decreases |s|
  {
    var i := IndexOfChar(s, '\n', 0);
    if i >= 0 {
      JoinSplit(s[i + 1..]);
      assert s == s[..i] + "\n" + s[i + 1..];
    }
  }

  lemma {:induction false} SplitJoin(lines: seq<string>)
    requires lines != [] && AllNoNewline(lines)
    ensures Split(Join(lines)) == lines
  {
    var s := Join(lines);
    if |lines| == 1 {
      assert IndexOfChar(s, '\n', 0) == -1;
    } else {
      assert s == lines[0] + "\n" + Join(lines[1..]);
      assert s[|lines[0]|] == '\n';
      assert IndexOfChar(s, '\n', 0) == |lines[0]|;
      assert s[..|lines[0]|] == lines[0];
      assert s[|lines[0]| + 1..] == Join(lines[1..]);
      SplitJoin(lines[1..]);
    }
  }

  // ---------------------------------------------------------------------------
  // String.hashCode and Integer.toString

  const TwoTo31: int := 0x8000_0000
  const TwoTo32: int := 0x1_0000_0000

  /** Two's-complement 32-bit wrap-around of an unbounded integer. */
  function Wrap32(x: int): (r: int)
    ensures -TwoTo31 <= r < TwoTo31
    ensures (r - x) % TwoTo32 == 0
  {
    (x + TwoTo31) % TwoTo32 - TwoTo31
  }

  /** String.hashCode: s[0]*31^(n-1) + ... + s[n-1], in 32-bit int arithmetic. */
  function JavaHash(s: string): (h: int)
    ensures -TwoTo31 <= h < TwoTo31
  {
    if s == [] then 0 else Wrap32(31 * JavaHash(s[..|s| - 1]) + s[|s| - 1] as int)
  }

  function DigitChar(d: nat): char
    requires d < 10
  {
    "0123456789"[d]
  }

  function NatToString(n: nat): (r: string)
    ensures r != [] && forall i :: 0 <= i < |r| ==> '0' <= r[i] <= '9'
  {
    if n < 10 then [DigitChar(n)] else NatToString(n / 10) + [DigitChar(n % 10)]
  }

  /** Integer.toString / "%d": optional '-' followed by decimal digits. */
  function IntToString(n: int): (r: string)
    ensures r != [] && (n < 0 <==> r[0] == '-')
  {
    if n < 0 then "-" + NatToString(-n) else NatToString(n)
  }

  // ---------------------------------------------------------------------------
  // Misc

  /** s.replaceAll("[^\\w].*", ""): the word characters before the first other one. */
  function LeadingWord(s: string): (r: string)
    ensures |r| <= |s| && r == s[..|r|]
    ensures forall i :: 0 <= i < |r| ==> IsWordChar(r[i])
    ensures |r| < |s| ==> !IsWordChar(s[|r|])
  {
    if s != [] && IsWordChar(s[0]) then [s[0]] + LeadingWord(s[1..]) else []
  }

  function Min(a: int, b: int): int { if a <= b then a else b }
  function Max(a: int, b: int): int { if a >= b then a else b }
}
