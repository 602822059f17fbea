/**
 * Concrete diff sessions.  `UndoExample` is a single change that Undo restores and
 * Keep confirms; `UndoAllCanLoseALine` is a two-delta diff for which Undo All
 * does not give back the original document, because the second delta's
 * original line is placed by its position in the original text while the
 * document already holds the inserted line of the first.  `UndoMidLineLosesText`
 * is a single change whose selection starts inside a line: its original line
 * is placed at the start of that line, so Undo deletes the wrong line.
 * `UndoEmptiedDocumentLosesText` deletes a whole document: the proposal leaves
 * no line to put the original one above, so Undo cannot bring it back.
 * `KeepAllCanLoseALine` is the Keep All counterpart of `UndoAllCanLoseALine`:
 * two changes around an unchanged line, for which Keep All deletes that line
 * and keeps an original one.
 */
module DiffExamples {
  import opened JavaText
  import opened DocLines
  import opened DiffRenderer
  import opened DiffRoundTrip

  // ---------------------------------------------------------------------------
  // "b" proposed as "X" between two unchanged lines

  lemma JoinABC()
    ensures Join(["a"] + ["b"] + ["c"]) == "a\nb\nc"
  {
    assert ["a"] + ["b"] + ["c"] == ["a", "b", "c"];
    assert ["a", "b", "c"][1..] == ["b", "c"] && ["b", "c"][1..] == ["c"];
    assert Join(["c"]) == "c";
  }

  lemma JoinAXC()
    ensures Join(["a"] + ["X"] + ["c"]) == "a\nX\nc"
  {
    assert ["a"] + ["X"] + ["c"] == ["a", "X", "c"];
    assert ["a", "X", "c"][1..] == ["X", "c"] && ["X", "c"][1..] == ["c"];
    assert Join(["c"]) == "c";
  }

  lemma WholeText(d: string, t: string)
    ensures d[0..|d|] == d && ReplaceRange(d, 0, |d|, t) == t
  {
    assert d[..0] == [] && d[|d|..] == [];
  }

  /** Undo gives back "a\nb\nc"; Keep leaves "a\nX\nc". */
  lemma UndoExample()
    ensures var d0 := "a\nb\nc";
            var dl := Delta(Change, 1, ["b"], 1, ["X"]);
            var r := RenderedState(d0, 0, |d0|, "a\nX\nc", [dl]);
            UndoChunkText(r.0, r.1[0]) == d0 &&
            KeepChunkText(r.0, r.1[0]) == "a\nX\nc"
  {
    var dl := Delta(Change, 1, ["b"], 1, ["X"]);
    JoinABC();
    JoinAXC();
    WholeText("a\nb\nc", "a\nX\nc");
    UndoRestoresOriginal("a\nb\nc", 0, 5, ["a"], ["c"], dl);
    KeepRestoresProposal("a\nb\nc", 0, 5, "a\nX\nc", dl);
  }

  // ---------------------------------------------------------------------------
  // "N" inserted before "a" and "c" changed to "C"

  function Ins(): Delta { Delta(Insert, 0, [], 0, ["N"]) }
  function Chg(): Delta { Delta(Change, 2, ["c"], 3, ["C"]) }

  lemma ExDeltas()
    ensures WellFormedDeltas([Ins(), Chg()])
  {
    assert WellFormedDelta(Ins()) && WellFormedDelta(Chg());
  }

  /** Text made of whole lines: one '\n' per line, ending at a line boundary. */
  lemma WholeLines(x: string, lines: seq<string>)
    requires lines != [] && AllNoNewline(lines) && x == JoinNL(lines)
    ensures CountNewlines(x) == |lines| && EndsAtLineBoundary(x)
  {
    CountNewlinesJoinNL(lines);
    JoinNLLastNewline(lines);
  }

  lemma OneLine(j: string, line: string)
    requires j == line + "\n" && NoNewline(line)
    ensures |j| >= 1 && j[|j| - 1] == '\n' && CountNewlines(j[..|j| - 1]) == 0
  {
    assert j[..|j| - 1] == line;
    NoNewlineCount(line);
  }

  /** The pieces of the texts in this session, each a whole line but the last. */
  predicate Pieces(n: string, a: string, b: string, c: string, t: string) {
    n == "N\n" && a == "a\n" && b == "b\n" && c == "c\n" && t == "C\nd"
  }

  lemma ExTexts(n: string, a: string, b: string, c: string, t: string)
    requires Pieces(n, a, b, c, t)
    ensures n + a + b + t == "N\na\nb\nC\nd" && a + c + t == "a\nc\nC\nd"
    ensures a + c + t != "a\nb\nc\nd"
  {
    assert (a + c + t)[2] == 'c';
  }

  /** Rendering, then Undo All, leaves the lines "a", "c" and "C\nd". */
  lemma ExResult(d0: string, n: string, a: string, b: string, c: string, t: string)
    requires Pieces(n, a, b, c, t)
    ensures var r := RenderedState(d0, 0, |d0|, n + a + b + t, [Ins(), Chg()]);
            ResolveAllText(r.0, r.1, false) == a + c + t
  {
    ExRendered(d0, n, a, b, c, t);
    ExUndoAll(n, a, b, c, t);
  }

  /** Two deltas are placed from the second to the first. */
  lemma MaterializedTwo(d: string, base: nat, first: Delta, second: Delta)
    requires DeltaShape(first) && DeltaShape(second)
    ensures var p1 := PlaceDelta(d, base, second);
            var p0 := PlaceDelta(p1.0, base, first);
            Materialized(d, base, [first, second]) == (p0.0, [p0.1, p1.1])
  {
    var ds := [first, second];
    var p1 := PlaceDelta(d, base, second);
    var p0 := PlaceDelta(p1.0, base, first);
    assert ds[2..] == [];
    assert Materialized(d, base, ds[2..]) == (d, []);
    MaterializedStep(d, base, ds, 1);
    assert [p1.1] + [] == [p1.1];
    assert Materialized(d, base, ds[1..]) == (p1.0, [p1.1]);
    MaterializedStep(d, base, ds, 0);
    assert ds[0..] == ds;
    assert [p0.1] + [p1.1] == [p0.1, p1.1];
  }

  /** The change goes in first, at line 2 of the proposed text, which is "b". */
  lemma ExPlaceChange(n: string, a: string, b: string, c: string, t: string)
    requires Pieces(n, a, b, c, t)
    ensures PlaceDelta(n + a + b + t, 0, Chg()) == (n + a + c + b + t, DiffChunk(Chg(), 2, 3, false))
  {
    var x := n + a;
    assert JoinNL(["N", "a"]) == x;
    WholeLines(x, ["N", "a"]);
    LineStartAfterLines(x, b, t);
    PlacedSourceLines(x + b + t, 0, Chg(), |x|);
    assert JoinNL(["c"]) == c;
    InsertAtRegroup(x, c, b, t);
  }

  /** The insertion goes in next and leaves the text alone. */
  lemma ExPlaceInsert(d: string)
    ensures PlaceDelta(d, 0, Ins()) == (d, DiffChunk(Ins(), -1, 0, false))
  {
  }

  lemma ExRendered(d0: string, n: string, a: string, b: string, c: string, t: string)
    requires Pieces(n, a, b, c, t) && |d0| >= 0
    ensures RenderedState(d0, 0, |d0|, n + a + b + t, [Ins(), Chg()]) ==
              (n + a + c + b + t, [DiffChunk(Ins(), -1, 0, false), DiffChunk(Chg(), 2, 3, false)])
  {
    var d1 := n + a + b + t;
    WholeText(d0, d1);
    assert LineNumber(d0, 0) == 0 by { assert d0[..0] == []; }
    MaterializedTwo(d1, 0, Ins(), Chg());
    ExPlaceChange(n, a, b, c, t);
    ExPlaceInsert(n + a + c + b + t);
  }

  /** Undoing the change deletes line 3, which is "b", not "C". */
  lemma ExUndoChange(n: string, a: string, b: string, c: string, t: string)
    requires Pieces(n, a, b, c, t)
    ensures UndoChunkText(n + a + c + b + t, DiffChunk(Chg(), 2, 3, false)) == n + a + c + t
  {
    var x := n + a + c;
    assert JoinNL(["N", "a", "c"]) == x;
    WholeLines(x, ["N", "a", "c"]);
    OneLine(b, "b");
    DeleteJoinedLines(x, b, t, 3, 1);
    UndoInRange(x + b + t, DiffChunk(Chg(), 2, 3, false), 3);
  }

  /** Undoing the insertion deletes line 0, "N". */
  lemma ExUndoInsert(n: string, a: string, b: string, c: string, t: string)
    requires Pieces(n, a, b, c, t)
    ensures UndoChunkText(n + a + c + t, DiffChunk(Ins(), -1, 0, false)) == a + c + t
  {
    var y := a + c + t;
    OneLine(n, "N");
    assert [] + n + y == n + a + c + t;
    assert [] + y == y;
    DeleteJoinedLines([], n, y, 0, 1);
    UndoInRange(n + a + c + t, DiffChunk(Ins(), -1, 0, false), 0);
  }

  /** Undo All resolves the change, then the insertion. */
  lemma ExUndoAll(n: string, a: string, b: string, c: string, t: string)
    requires Pieces(n, a, b, c, t)
    ensures ResolveAllText(n + a + c + b + t, [DiffChunk(Ins(), -1, 0, false), DiffChunk(Chg(), 2, 3, false)], false)
              == a + c + t
  {
    var ci, cc := DiffChunk(Ins(), -1, 0, false), DiffChunk(Chg(), 2, 3, false);
    ExUndoChange(n, a, b, c, t);
    ExUndoInsert(n, a, b, c, t);
    ResolveAllTwo(n + a + c + b + t, ci, cc, false);
  }

  lemma ResolveAllTwo(d: string, c0: DiffChunk, c1: DiffChunk, keep: bool)
    requires ChunkShape(c0) && ChunkShape(c1)
    ensures ResolveAllText(d, [c0, c1], keep) == ResolveStep(ResolveStep(d, c1, keep), c0, keep)
  {
    var cs := [c0, c1];
    ResolveAllUnfold(d, cs, 1, keep);
    assert cs[..2] == cs;
    ResolveAllUnfold(ResolveStep(d, c1, keep), cs, 0, keep);
    assert cs[..0] == [];
  }

  /**
   * Undo All after rendering this diff over the whole of "a\nb\nc\nd" leaves
   * "a\nc\nC\nd": the line "b" is lost and the proposed "C" stays.
   */
  lemma UndoAllCanLoseALine(d0: string, d1: string)
    requires d0 == "a\nb\nc\nd" && d1 == "N\na\nb\nC\nd"
    ensures var ds := [Delta(Insert, 0, [], 0, ["N"]), Delta(Change, 2, ["c"], 3, ["C"])];
            var r := RenderedState(d0, 0, |d0|, d1, ds);
            WellFormedDeltas(ds) &&
            ResolveAllText(r.0, r.1, false) == "a\nc\nC\nd" != d0
  {
    var n, a, b, c, t := "N\n", "a\n", "b\n", "c\n", "C\nd";
    ExDeltas();
    ExTexts(n, a, b, c, t);
    ExResult(d0, n, a, b, c, t);
  }

  // ---------------------------------------------------------------------------
  // "a" proposed as "b" in a selection that starts inside the line "Qa"

  function MidLine(): Delta { Delta(Change, 0, ["a"], 0, ["b"]) }

  /** The selection [1, 4) of "Qa\nz" replaced by "b\nz"; the selection starts on line 0. */
  lemma MidLineReplaced(d0: string)
    requires d0 == "Qa\nz"
    ensures ReplaceRange(d0, 1, 4, "b\nz") == "Qb\nz" && LineNumber(d0, 1) == 0
    ensures d0[1..4] == Join([] + MidLine().source + ["z"])
  {
    assert d0[..1] == "Q" && d0[4..] == [];
    NoNewlineCount("Q");
    assert [] + ["a"] + ["z"] == ["a", "z"] && ["a", "z"][1..] == ["z"];
  }

  /** The original "a" goes in at the start of line 0, above "Qb". */
  lemma MidLinePlaced(d1: string)
    requires d1 == "Qb\nz"
    ensures PlaceDelta(d1, 0, MidLine()) == ("a\n" + d1, DiffChunk(MidLine(), 0, 1, false))
  {
    assert ["a"][1..] == [];
    assert JoinNL(["a"]) == "a\n";
    PlacedSourceLines(d1, 0, MidLine(), 0);
    assert InsertAt(d1, 0, "a\n") == "a\n" + d1 by { assert d1[..0] == [] && d1[0..] == d1; }
  }

  /** Undo deletes line 1, "Qb", which also held the unselected "Q". */
  lemma MidLineUndone(x: string, j: string, y: string)
    requires x == "a\n" && j == "Qb\n" && y == "z"
    ensures UndoChunkText(x + j + y, DiffChunk(MidLine(), 0, 1, false)) == x + y
  {
    assert JoinNL(["a"]) == x;
    WholeLines(x, ["a"]);
    OneLine(j, "Qb");
    DeleteJoinedLines(x, j, y, 1, 1);
    UndoInRange(x + j + y, DiffChunk(MidLine(), 0, 1, false), 1);
  }

  /**
   * A well-formed single change, with a common line after it, whose
   * selection starts inside a line: rendering and Undo (or Undo All) leave
   * "a\nz", not "Qa\nz".  This is the case the line-boundary condition of
   * `UndoRestoresOriginal` excludes.
   */
  lemma UndoMidLineLosesText(d0: string)
    requires d0 == "Qa\nz"
    ensures var r := RenderedState(d0, 1, 4, "b\nz", [MidLine()]);
            WellFormedDelta(MidLine()) && !AtLineBoundary(d0, 1) &&
            d0[1..4] == Join([] + MidLine().source + ["z"]) &&
            UndoChunkText(r.0, r.1[0]) == "a\nz" != d0 &&
            ResolveAllText(r.0, r.1, false) == "a\nz"
  {
    MidLineReplaced(d0);
    MidLineRendered(d0);
    MidLineResolved();
    assert ("a\nz")[0] != d0[0];
  }

  /** Rendering puts the original "a" above "Qb\nz" and records line 0 for it, line 1 for "b". */
  lemma MidLineRendered(d0: string)
    requires d0 == "Qa\nz"
    ensures RenderedState(d0, 1, 4, "b\nz", [MidLine()]) == ("a\nQb\nz", [DiffChunk(MidLine(), 0, 1, false)])
  {
    MidLineReplaced(d0);
    SingleDeltaRendered(d0, 1, 4, "b\nz", MidLine());
    MidLinePlaced("Qb\nz");
    assert "a\n" + "Qb\nz" == "a\nQb\nz";
  }

  /** Undo and Undo All of that chunk both delete "Qb". */
  lemma MidLineResolved()
    ensures UndoChunkText("a\nQb\nz", DiffChunk(MidLine(), 0, 1, false)) == "a\nz"
    ensures ResolveAllText("a\nQb\nz", [DiffChunk(MidLine(), 0, 1, false)], false) == "a\nz"
  {
    assert "a\n" + "Qb\n" + "z" == "a\nQb\nz";
    MidLineUndone("a\n", "Qb\n", "z");
    assert "a\n" + "z" == "a\nz";
    ResolveAllSingle("a\nQb\nz", DiffChunk(MidLine(), 0, 1, false), false);
  }

  // ---------------------------------------------------------------------------
  // The whole document "a\n" proposed as nothing

  function WholeDeletion(): Delta { Delta(Delete, 0, ["a"], 0, []) }

  /**
   * A well-formed deletion of the whole document "a\n", with the common empty
   * line after it: the rendered document is empty, so `getLineCount()` is 0,
   * the original line is never put back, and Undo (or Undo All) leaves "".
   */
  lemma UndoEmptiedDocumentLosesText(d0: string)
    requires d0 == "a\n"
    ensures var r := RenderedState(d0, 0, 2, "", [WholeDeletion()]);
            WellFormedDelta(WholeDeletion()) && AtLineBoundary(d0, 0) &&
            d0[0..2] == Join([] + WholeDeletion().source + [""]) &&
            "" == Join([] + WholeDeletion().target + [""]) &&
            r.0 == "" && r.1[0].originalStartLine == -1 &&
            UndoChunkText(r.0, r.1[0]) == "" != d0 &&
            ResolveAllText(r.0, r.1, false) == ""
  {
    var dl := WholeDeletion();
    assert [] + dl.source + [""] == ["a", ""] && ["a", ""][1..] == [""];
    assert [] + dl.target + [""] == [""];
    assert ReplaceRange(d0, 0, 2, "") == "" by { assert d0[..0] == [] && d0[2..] == []; }
    SingleDeltaRendered(d0, 0, 2, "", dl);
    ResolveAllSingle("", PlaceDelta("", LineNumber(d0, 0), dl).1, false);
  }

  // ---------------------------------------------------------------------------
  // "a\nx\nb" proposed as "A\nx\nB": two changes around an unchanged line

  function ChangeA(): Delta { Delta(Change, 0, ["a"], 0, ["A"]) }
  function ChangeB(): Delta { Delta(Change, 2, ["b"], 2, ["B"]) }

  /** The pieces of this session's texts, each a whole line but the last. */
  predicate KeepPieces(a: string, b: string, aa: string, x: string, bb: string) {
    a == "a\n" && b == "b\n" && aa == "A\n" && x == "x\n" && bb == "B"
  }

  /** The second change goes in first, at line 2 of the proposal, above "B". */
  lemma KeepPlaceSecond(a: string, b: string, aa: string, x: string, bb: string)
    requires KeepPieces(a, b, aa, x, bb)
    ensures PlaceDelta(aa + x + bb, 0, ChangeB()) == (aa + x + b + bb, DiffChunk(ChangeB(), 2, 3, false))
  {
    var y := aa + x;
    assert JoinNL(["A", "x"]) == y;
    WholeLines(y, ["A", "x"]);
    LineStartAfterLines(y, bb, []);
    assert y + bb + [] == aa + x + bb;
    PlacedSourceLines(aa + x + bb, 0, ChangeB(), |y|);
    assert JoinNL(["b"]) == b;
    InsertAtRegroup(y, b, bb, []);
  }

  /** The first change goes in next, at line 0, above "A". */
  lemma KeepPlaceFirst(a: string, b: string, aa: string, x: string, bb: string)
    requires KeepPieces(a, b, aa, x, bb)
    ensures PlaceDelta(aa + x + b + bb, 0, ChangeA()) == (a + aa + x + b + bb, DiffChunk(ChangeA(), 0, 1, false))
  {
    var d := aa + x + b + bb;
    assert JoinNL(["a"]) == a;
    assert |d| > 0;
    PlacedSourceLines(d, 0, ChangeA(), 0);
    assert InsertAt(d, 0, a) == a + d by { assert d[..0] == [] && d[0..] == d; }
    assert a + d == a + aa + x + b + bb;
  }

  /** Keeping the second chunk deletes line 2, which is the unchanged "x", not "b". */
  lemma KeepSecondChunk(y: string, x: string, z: string)
    requires EndsAtLineBoundary(y) && CountNewlines(y) == 2 && x == "x\n"
    ensures KeepChunkText(y + x + z, DiffChunk(ChangeB(), 2, 3, false)) == y + z
  {
    OneLine(x, "x");
    DeleteJoinedLines(y, x, z, 2, 1);
    assert |y + x + z| > 0;
  }

  /** Keeping the first chunk deletes line 0, "a". */
  lemma KeepFirstChunk(a: string, z: string)
    requires a == "a\n"
    ensures KeepChunkText(a + z, DiffChunk(ChangeA(), 0, 1, false)) == z
  {
    OneLine(a, "a");
    assert [] + a + z == a + z;
    assert [] + z == z;
    DeleteJoinedLines([], a, z, 0, 1);
  }

  lemma Group5(p: string, q: string, r: string, s: string, t: string)
    ensures p + q + r + s + t == (p + q) + r + (s + t)
    ensures (p + q) + (s + t) == p + (q + s + t)
  {
  }

  /**
   * Keep All after rendering this diff over the whole of "a\nx\nb" leaves
   * "A\nb\nB": the unchanged line "x" is lost and the original "b" stays.
   */
  lemma KeepAllCanLoseALine(d0: string, d1: string)
    requires d0 == "a\nx\nb" && d1 == "A\nx\nB"
    ensures var ds := [ChangeA(), ChangeB()];
            var r := RenderedState(d0, 0, |d0|, d1, ds);
            WellFormedDeltas(ds) &&
            ResolveAllText(r.0, r.1, true) == "A\nb\nB" != d1
  {
    var a, b, aa, x, bb := "a\n", "b\n", "A\n", "x\n", "B";
    assert WellFormedDelta(ChangeA()) && WellFormedDelta(ChangeB());
    KeepTexts(a, b, aa, x, bb);
    KeepRendered(d0, a, b, aa, x, bb);
    KeepResolved(a, b, aa, x, bb);
  }

  lemma KeepTexts(a: string, b: string, aa: string, x: string, bb: string)
    requires KeepPieces(a, b, aa, x, bb)
    ensures aa + x + bb == "A\nx\nB" && aa + b + bb == "A\nb\nB"
    ensures aa + b + bb != aa + x + bb
  {
    assert (aa + b + bb)[2] == 'b';
  }

  lemma KeepRendered(d0: string, a: string, b: string, aa: string, x: string, bb: string)
    requires KeepPieces(a, b, aa, x, bb)
    ensures RenderedState(d0, 0, |d0|, aa + x + bb, [ChangeA(), ChangeB()]) ==
              (a + aa + x + b + bb, [DiffChunk(ChangeA(), 0, 1, false), DiffChunk(ChangeB(), 2, 3, false)])
  {
    var d1 := aa + x + bb;
    WholeText(d0, d1);
    assert LineNumber(d0, 0) == 0 by { assert d0[..0] == []; }
    MaterializedTwo(d1, 0, ChangeA(), ChangeB());
    KeepPlaceSecond(a, b, aa, x, bb);
    KeepPlaceFirst(a, b, aa, x, bb);
  }

  /** Keep All resolves the second change, then the first. */
  lemma KeepResolved(a: string, b: string, aa: string, x: string, bb: string)
    requires KeepPieces(a, b, aa, x, bb)
    ensures ResolveAllText(a + aa + x + b + bb, [DiffChunk(ChangeA(), 0, 1, false), DiffChunk(ChangeB(), 2, 3, false)], true)
              == aa + b + bb
  {
    var c0, c1 := DiffChunk(ChangeA(), 0, 1, false), DiffChunk(ChangeB(), 2, 3, false);
    ResolveAllTwo(a + aa + x + b + bb, c0, c1, true);
    Group5(a, aa, x, b, bb);
    assert JoinNL(["a", "A"]) == a + aa;
    WholeLines(a + aa, ["a", "A"]);
    KeepSecondChunk(a + aa, x, b + bb);
    KeepFirstChunk(a, aa + b + bb);
  }
}
