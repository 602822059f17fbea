/**
 * The line structure of an IntelliJ `Document` over its text: line `k` starts
 * right after the k-th '\n', a line's end offset excludes its '\n', and a text
 * has one line more than it has '\n' (`LineCount`).  `getLineCount()` itself
 * answers 0 for an empty document (`GetLineCount`), whose line 0 still starts
 * at offset 0.
 */
module DocLines {
  import opened JavaText

  function CountNewlines(s: string): (n: nat)
    ensures n <= |s|
  {
    if s == [] then 0 else CountNewlines(s[..|s| - 1]) + (if s[|s| - 1] == '\n' then 1 else 0)
  }

  lemma {:induction false} CountNewlinesAppend(a: string, b: string)
    ensures CountNewlines(a + b) == CountNewlines(a) + CountNewlines(b)
    decreases |b|
  {
    if b != [] {
      var ab := a + b;
      assert ab[..|ab| - 1] == a + b[..|b| - 1];
      assert ab[|ab| - 1] == b[|b| - 1];
      CountNewlinesAppend(a, b[..|b| - 1]);
    } else {
      assert a + b == a;
    }
  }

  lemma {:induction false} NoNewlineCount(s: string)
    ensures NoNewline(s) <==> CountNewlines(s) == 0
    decreases |s|
  {
    if s != [] {
      NoNewlineCount(s[..|s| - 1]);
      if NoNewline(s[..|s| - 1]) && s[|s| - 1] != '\n' {
        forall i | 0 <= i < |s|
          ensures s[i] != '\n'
        {
          if i < |s| - 1 {
            assert s[..|s| - 1][i] == s[i];
          }
        }
      }
      if NoNewline(s) {
        var t := s[..|s| - 1];
        forall i | 0 <= i < |t|
          ensures t[i] != '\n'
        {
          assert t[i] == s[i];
        }
      }
    }
  }

  /** The newlines of a prefix and of the slice after it add up. */
  lemma CountNewlinesSlices(d: string, a: nat, b: nat)
    requires a <= b <= |d|
    ensures CountNewlines(d[..b]) == CountNewlines(d[..a]) + CountNewlines(d[a..b])
    ensures CountNewlines(d[..b]) <= CountNewlines(d)
  {
    assert d[..b] == d[..a] + d[a..b];
    CountNewlinesAppend(d[..a], d[a..b]);
    assert d == d[..b] + d[b..];
    CountNewlinesAppend(d[..b], d[b..]);
  }

  function LineCount(d: string): nat {
    CountNewlines(d) + 1
  }

  /** Document.getLineCount(): no lines in an empty document, else one per '\n' plus one. */
  function GetLineCount(d: string): (n: nat)
    ensures n <= LineCount(d)
    ensures n == 0 <==> d == []
    ensures d != [] ==> n == LineCount(d)
  {
    if d == [] then 0 else CountNewlines(d) + 1
  }

  /** Document.getLineNumber(offset) */
  function LineNumber(d: string, offset: nat): (line: nat)
    requires offset <= |d|
    ensures line < LineCount(d)
  {
    CountNewlinesSlices(d, offset, |d|);
    CountNewlines(d[..offset])
  }

  /** Offset `r` begins a line: it is 0 or follows a '\n'. */
  predicate AtLineBoundary(d: string, r: nat)
    requires r <= |d|
  {
    r == 0 || d[r - 1] == '\n'
  }

  /** Document.getLineStartOffset(line) */
  function LineStart(d: string, line: nat): (r: nat)
    requires line < LineCount(d)
    ensures r <= |d| && AtLineBoundary(d, r)
    ensures CountNewlines(d[..r]) == line
    decreases |d|
  {
    if line == 0 then 0
    else
      var i := FirstNewline(d);
      var r' := LineStart(d[i + 1..], line - 1);
      LineStartShift(d, i, r', line);
      i + 1 + r'
  }

  /** The offset of the first '\n' of a text that has one. */
  function FirstNewline(d: string): (i: nat)
    requires CountNewlines(d) > 0
    ensures i < |d| && d[i] == '\n' && NoNewline(d[..i])
    ensures CountNewlines(d[i + 1..]) == CountNewlines(d) - 1
  {
    NewlineFound(d);
    var i := IndexOfChar(d, '\n', 0);
    FirstNewlineCount(d, i);
    i
  }

  lemma FirstNewlineCount(d: string, i: nat)
    requires i < |d| && d[i] == '\n' && NoNewline(d[..i])
    ensures CountNewlines(d[i + 1..]) == CountNewlines(d) - 1
  {
    var rest := d[i + 1..];
    assert d == d[..i] + [d[i]] + rest;
    CountNewlinesAppend(d[..i] + [d[i]], rest);
    CountNewlinesAppend(d[..i], [d[i]]);
    NoNewlineCount(d[..i]);
    assert CountNewlines([d[i]]) == 1 by {
      assert [d[i]][..0] == [];
    }
  }

  /** A line start in the text after the first '\n' is a line start of the whole text, one line further. */
  lemma LineStartShift(d: string, i: nat, r': nat, line: nat)
    requires i < |d| && d[i] == '\n' && NoNewline(d[..i]) && line >= 1
    requires r' <= |d| - i - 1 && AtLineBoundary(d[i + 1..], r')
    requires CountNewlines(d[i + 1..][..r']) == line - 1
    ensures i + 1 + r' <= |d| && AtLineBoundary(d, i + 1 + r')
    ensures CountNewlines(d[..i + 1 + r']) == line
  {
    var rest := d[i + 1..];
    assert d[..i + 1 + r'] == d[..i] + [d[i]] + rest[..r'];
    CountNewlinesAppend(d[..i] + [d[i]], rest[..r']);
    CountNewlinesAppend(d[..i], [d[i]]);
    NoNewlineCount(d[..i]);
    assert CountNewlines([d[i]]) == 1 by {
      assert [d[i]][..0] == [];
    }
    assert r' > 0 ==> d[i + r'] == rest[r' - 1];
  }

  lemma NewlineFound(d: string)
    requires CountNewlines(d) > 0
    ensures 0 <= IndexOfChar(d, '\n', 0)
    ensures NoNewline(d[..IndexOfChar(d, '\n', 0)])
  {
    var i := IndexOfChar(d, '\n', 0);
    if i < 0 {
      NoNewlineCount(d);
      assert false;
    }
  }

  /** The end of the newline-free run starting at `from`: the next '\n' or the text's end. */
  function NextNewline(d: string, from: nat): (r: nat)
    requires from <= |d|
    ensures from <= r <= |d| && NoNewline(d[from..r])
    ensures r == |d| || d[r] == '\n'
  {
    var k := IndexOfChar(d, '\n', from);
    if k < 0 then |d| else k
  }

  /** Document.getLineEndOffset(line): the end of the line, before its '\n'. */
  function LineEnd(d: string, line: nat): (r: nat)
    requires line < LineCount(d)
    ensures LineStart(d, line) <= r <= |d|
    ensures NoNewline(d[LineStart(d, line)..r])
    ensures r == |d| || d[r] == '\n'
    ensures CountNewlines(d[..r]) == line
  {
    var s := LineStart(d, line);
    var r := NextNewline(d, s);
    CountNewlinesSlices(d, s, r);
    NoNewlineCount(d[s..r]);
    r
  }

  /** A line start is determined by its line number. */
  lemma LineStartUnique(d: string, line: nat, r: nat)
    requires r <= |d| && AtLineBoundary(d, r) && CountNewlines(d[..r]) == line
    ensures line < LineCount(d) && LineStart(d, line) == r
  {
    CountNewlinesSlices(d, r, |d|);
    var s := LineStart(d, line);
    if s < r {
      CountNewlinesSlices(d, s, r);
    } else if r < s {
      CountNewlinesSlices(d, r, s);
    }
  }

  /** A '\n' at offset `a` is counted in every prefix that extends past it. */
  lemma NewlineCounted(d: string, a: nat, b: nat)
    requires a < b <= |d| && d[a] == '\n'
    ensures CountNewlines(d[..a]) < CountNewlines(d[..b])
  {
    CountNewlinesSlices(d, a, b);
    var t := d[a..b];
    assert t == [d[a]] + t[1..];
    CountNewlinesAppend([d[a]], t[1..]);
    assert CountNewlines([d[a]]) == 1 by {
      assert [d[a]][..0] == [];
    }
  }

  /** A line end is determined by its line number. */
  lemma LineEndUnique(d: string, line: nat, e: nat)
    requires e <= |d| && (e == |d| || d[e] == '\n') && CountNewlines(d[..e]) == line
    ensures line < LineCount(d) && LineEnd(d, line) == e
  {
    CountNewlinesSlices(d, e, |d|);
    var r := LineEnd(d, line);
    if r < e {
      NewlineCounted(d, r, e);
    } else if e < r {
      NewlineCounted(d, e, r);
    }
  }

  /** Text that is empty or ends in '\n' leaves the next text at the start of its next line. */
  lemma LineStartAfter(x: string, y: string)
    requires x == [] || x[|x| - 1] == '\n'
    ensures CountNewlines(x) < LineCount(x + y)
    ensures LineStart(x + y, CountNewlines(x)) == |x|
  {
    assert (x + y)[..|x|] == x;
    LineStartUnique(x + y, CountNewlines(x), |x|);
  }

  lemma LineStartMonotone(d: string, a: nat, b: nat)
    requires a <= b < LineCount(d)
    ensures LineStart(d, a) <= LineStart(d, b)
  {
    var sa, sb := LineStart(d, a), LineStart(d, b);
    if sb < sa {
      CountNewlinesSlices(d, sb, sa);
    }
  }

  // ---------------------------------------------------------------------------
  // Document edits

  /** Document.replaceString(start, end, text) */
  function ReplaceRange(d: string, start: nat, end: nat, t: string): (r: string)
    requires start <= end <= |d|
    ensures |r| == |d| - (end - start) + |t|
  {
    d[..start] + t + d[end..]
  }

  /** Document.insertString(offset, text) */
  function InsertAt(d: string, offset: nat, t: string): (r: string)
    requires offset <= |d|
    ensures |r| == |d| + |t|
  {
    d[..offset] + t + d[offset..]
  }

  /** Document.deleteString(start, end) */
  function DeleteRange(d: string, start: nat, end: nat): (r: string)
    requires start <= end <= |d|
    ensures |r| == |d| - (end - start)
  {
    d[..start] + d[end..]
  }

  /**
   * Deleting `count` lines from line `first`: from the start of `first` to just
   * past the end of the last of them (clamped to the last line of the document),
   * including its '\n' when there is one.
   */
  function DeleteLineSpan(d: string, first: nat, count: nat): (r: string)
    requires first < LineCount(d) && count >= 1
    ensures |r| <= |d|
  {
    var start := LineStart(d, first);
    var last := Min(first + count - 1, LineCount(d) - 1);
    LineStartMonotone(d, first, last);
    var endOffset := Min(LineEnd(d, last) + 1, |d|);
    DeleteRange(d, start, endOffset)
  }

  /** DeleteLineSpan, given its intermediate offsets. */
  lemma DeleteLineSpanIs(d: string, first: nat, count: nat, start: nat, last: nat, endOffset: nat)
    requires first < LineCount(d) && count >= 1
    requires last == Min(first + count - 1, LineCount(d) - 1) && first <= last
    requires start == LineStart(d, first) && start <= LineStart(d, last)
    requires endOffset == Min(LineEnd(d, last) + 1, |d|)
    ensures start <= endOffset <= |d|
    ensures DeleteLineSpan(d, first, count) == DeleteRange(d, start, endOffset)
  {
  }

  lemma CountNewlinesJoinNL(lines: seq<string>)
    requires AllNoNewline(lines)
    ensures CountNewlines(JoinNL(lines)) == |lines|
  {
    if lines != [] {
      var n := |lines|;
      assert lines == lines[..n - 1] + [lines[n - 1]];
      JoinNLAppend(lines[..n - 1], [lines[n - 1]]);
      assert JoinNL([lines[n - 1]]) == lines[n - 1] + "\n";
      CountNewlinesJoinNL(lines[..n - 1]);
      NoNewlineCount(lines[n - 1]);
      CountNewlinesAppend(JoinNL(lines[..n - 1]), lines[n - 1] + "\n");
      CountNewlinesAppend(lines[n - 1], "\n");
      assert CountNewlines("\n") == 1;
    }
  }

  lemma CountNewlinesJoinNLIf(lines: seq<string>)
    ensures AllNoNewline(lines) ==> CountNewlines(JoinNL(lines)) == |lines|
  {
    if AllNoNewline(lines) {
      CountNewlinesJoinNL(lines);
    }
  }

  /** Lines joined with a '\n' after each: the last character is a '\n' and the rest holds one fewer. */
  lemma JoinNLLastNewline(lines: seq<string>)
    requires lines != [] && AllNoNewline(lines)
    ensures var j := JoinNL(lines);
            |j| >= 1 && j[|j| - 1] == '\n' && CountNewlines(j[..|j| - 1]) == |lines| - 1
  {
    var n := |lines|;
    var j := JoinNL(lines);
    assert lines == lines[..n - 1] + [lines[n - 1]];
    JoinNLAppend(lines[..n - 1], [lines[n - 1]]);
    var head := JoinNL(lines[..n - 1]) + lines[n - 1];
    assert j == head + "\n";
    assert j[..|j| - 1] == head;
    CountNewlinesJoinNL(lines[..n - 1]);
    NoNewlineCount(lines[n - 1]);
    CountNewlinesAppend(JoinNL(lines[..n - 1]), lines[n - 1]);
  }

  /** The span deleted when the last line to delete is followed by a '\n'. */
  lemma DeleteLineSpanBetween(d: string, first: nat, count: nat, last: nat, start: nat, e: nat)
    requires count >= 1 && last == first + count - 1 && last < LineCount(d)
    requires LineStart(d, first) == start && e < |d| && LineEnd(d, last) == e
    ensures DeleteLineSpan(d, first, count) == d[..start] + d[e + 1..]
  {
  }

  /** Text that is empty or ends in '\n': what follows it starts a line. */
  predicate EndsAtLineBoundary(x: string) {
    x == [] || x[|x| - 1] == '\n'
  }

  /** How slices of `x + j + y` fall on its three parts. */
  lemma ConcatSlices(x: string, j: string, y: string)
    requires |j| >= 1
    ensures var d := x + j + y;
            d[..|x|] == x && d[..|x| + |j| - 1] == x + j[..|j| - 1] &&
            d[|x| + |j| - 1] == j[|j| - 1] && d[|x| + |j|..] == y &&
            (|x| > 0 ==> d[|x| - 1] == x[|x| - 1])
  {
    var d := x + j + y;
    assert d[..|x| + |j| - 1] == x + j[..|j| - 1];
    assert d[|x| + |j|..] == y;
  }

  /**
   * Whole lines `T` right after text `x` that ends a line: they are the lines
   * `CountNewlines(x)` to `CountNewlines(x) + |T| - 1`, and deleting that many
   * lines from there leaves `x + y`.
   */
  lemma DeleteInsertedLines(x: string, T: seq<string>, y: string)
    requires EndsAtLineBoundary(x) && T != [] && AllNoNewline(T)
    ensures CountNewlines(x) < LineCount(x + JoinNL(T) + y)
    ensures DeleteLineSpan(x + JoinNL(T) + y, CountNewlines(x), |T|) == x + y
  {
    JoinNLLastNewline(T);
    DeleteJoinedLines(x, JoinNL(T), y, CountNewlines(x), |T|);
  }

  /** `DeleteInsertedLines` for the joined text `j` of `count` lines. */
  lemma DeleteJoinedLines(x: string, j: string, y: string, line: nat, count: nat)
    requires EndsAtLineBoundary(x) && CountNewlines(x) == line
    requires |j| >= 1 && j[|j| - 1] == '\n' && CountNewlines(j[..|j| - 1]) + 1 == count
    ensures line < LineCount(x + j + y)
    ensures DeleteLineSpan(x + j + y, line, count) == x + y
  {
    var d := x + j + y;
    var last: nat := line + count - 1;
    InsertedLineBounds(x, j, y, line, last);
    DeleteLineSpanBetween(d, line, count, last, |x|, |x| + |j| - 1);
    ConcatOuter(x, j, y);
  }

  lemma ConcatOuter(x: string, j: string, y: string)
    ensures (x + j + y)[..|x|] + (x + j + y)[|x| + |j|..] == x + y
  {
    var d := x + j + y;
    assert d[..|x|] == x && d[|x| + |j|..] == y;
  }

  lemma InsertedLineBounds(x: string, j: string, y: string, line: nat, last: nat)
    requires EndsAtLineBoundary(x) && CountNewlines(x) == line
    requires |j| >= 1 && j[|j| - 1] == '\n' && CountNewlines(j[..|j| - 1]) + line == last
    ensures last < LineCount(x + j + y)
    ensures LineStart(x + j + y, line) == |x| && LineEnd(x + j + y, last) == |x| + |j| - 1
  {
    var d := x + j + y;
    ConcatSlices(x, j, y);
    LineStartUnique(d, line, |x|);
    var e := |x| + |j| - 1;
    CountNewlinesAppend(x, j[..|j| - 1]);
    LineEndUnique(d, last, e);
  }

  /**
   * Inserting whole lines at a line start and then deleting that many lines from
   * there gives back the text: the span deleted is exactly the inserted one.
   */
  lemma InsertLinesThenDelete(d: string, line: nat, lines: seq<string>)
    requires line < LineCount(d) && lines != [] && AllNoNewline(lines)
    ensures var d2 := InsertAt(d, LineStart(d, line), JoinNL(lines));
            line < LineCount(d2) && DeleteLineSpan(d2, line, |lines|) == d
  {
    InsertLinesAtThenDelete(d, line, lines, LineStart(d, line));
  }

  lemma InsertLinesAtThenDelete(d: string, line: nat, lines: seq<string>, q: nat)
    requires lines != [] && AllNoNewline(lines)
    requires q <= |d| && AtLineBoundary(d, q) && CountNewlines(d[..q]) == line
    ensures var d2 := InsertAt(d, q, JoinNL(lines));
            line < LineCount(d2) && DeleteLineSpan(d2, line, |lines|) == d
  {
    PrefixEndsLine(d, q);
    DeleteInsertedLines(d[..q], lines, d[q..]);
  }

  /** The text before a line boundary ends a line. */
  lemma PrefixEndsLine(d: string, q: nat)
    requires q <= |d| && AtLineBoundary(d, q)
    ensures EndsAtLineBoundary(d[..q]) && d[..q] + d[q..] == d
  {
    assert q > 0 ==> d[..q][q - 1] == d[q - 1];
  }
}
