/**
 * What one round of ModernDiffRenderer leaves in the document.  For a diff
 * of one delta, keeping the chunk leaves the proposed text in place of the
 * selection, and undoing it gives back the original document.  For several
 * deltas the original lines are placed by their position in the original text
 * while the document already holds the proposed lines, so Undo All need not
 * restore the original (DiffExamples.UndoAllCanLoseALine exhibits such a diff).
 */
module DiffRoundTrip {
  import opened JavaText
  import opened DocLines
  import opened DiffRenderer

  /** The document and chunks right after rendering the diff `ds` over the selection. */
  function RenderedState(d0: string, ss: nat, se: nat, modifiedText: string, ds: seq<Delta>): (r: (string, seq<DiffChunk>))
    requires ss <= se <= |d0| && forall k :: 0 <= k < |ds| ==> DeltaShape(ds[k])
    ensures |r.1| == |ds|
  {
    Materialized(ReplaceRange(d0, ss, se, modifiedText), LineNumber(d0, ss), ds)
  }

  lemma SingleDeltaRendered(d0: string, ss: nat, se: nat, modifiedText: string, dl: Delta)
    requires ss <= se <= |d0| && DeltaShape(dl)
    ensures var p := PlaceDelta(ReplaceRange(d0, ss, se, modifiedText), LineNumber(d0, ss), dl);
            RenderedState(d0, ss, se, modifiedText, [dl]) == (p.0, [p.1])
  {
    var d1 := ReplaceRange(d0, ss, se, modifiedText);
    var base := LineNumber(d0, ss);
    assert [dl][1..] == [];
    assert Materialized(d1, base, [dl][1..]) == (d1, []);
    var p := PlaceDelta(d1, base, dl);
    assert Materialized(d1, base, [dl]) == (p.0, [p.1] + []);
    assert [p.1] + [] == [p.1];
    assert RenderedState(d0, ss, se, modifiedText, [dl]) == Materialized(d1, base, [dl]);
  }

  /** Resolving all of a single chunk is resolving that chunk. */
  lemma ResolveAllSingle(d: string, c: DiffChunk, keep: bool)
    requires ChunkShape(c)
    ensures ResolveAllText(d, [c], keep) == ResolveStep(d, c, keep)
  {
    assert [c][..0] == [];
  }

  /**
   * Keeping the only chunk of a diff leaves the selection replaced by the
   * proposed text, whatever the delta and wherever it was placed.
   */
  lemma KeepRestoresProposal(d0: string, ss: nat, se: nat, modifiedText: string, dl: Delta)
    requires ss <= se <= |d0| && WellFormedDelta(dl)
    ensures var r := RenderedState(d0, ss, se, modifiedText, [dl]);
            KeepChunkText(r.0, r.1[0]) == ReplaceRange(d0, ss, se, modifiedText) &&
            ResolveAllText(r.0, r.1, true) == ReplaceRange(d0, ss, se, modifiedText)
  {
    var d1 := ReplaceRange(d0, ss, se, modifiedText);
    var base := LineNumber(d0, ss);
    SingleDeltaRendered(d0, ss, se, modifiedText, dl);
    var p := PlaceDelta(d1, base, dl);
    ResolveAllSingle(p.0, p.1, true);
    KeepPlaced(d1, base, dl);
  }

  /** Keeping a chunk right after placing it deletes what the placing inserted. */
  lemma KeepPlaced(d: string, base: nat, dl: Delta)
    requires WellFormedDelta(dl)
    ensures var p := PlaceDelta(d, base, dl);
            KeepChunkText(p.0, p.1) == d
  {
    var line := base + dl.sourcePosition;
    var p := PlaceDelta(d, base, dl);
    if dl.kind != Insert && line < GetLineCount(d) {
      var d2 := InsertAt(d, LineStart(d, line), JoinNL(dl.source));
      assert p.0 == d2 && p.1.originalStartLine == line;
      InsertLinesThenDelete(d, line, dl.source);
      assert d2 != [] && line < GetLineCount(d2);
      assert KeepChunkText(d2, p.1) == DeleteLineSpan(d2, line, |dl.source|);
    }
  }

  /** Whole lines appended to text that ends at a line boundary keep it at one. */
  lemma JoinNLKeepsBoundary(x: string, lines: seq<string>)
    requires EndsAtLineBoundary(x) && AllNoNewline(lines)
    ensures EndsAtLineBoundary(x + JoinNL(lines))
    ensures CountNewlines(x + JoinNL(lines)) == CountNewlines(x) + |lines|
  {
    CountNewlinesJoinNL(lines);
    CountNewlinesAppend(x, JoinNL(lines));
    if lines != [] {
      JoinNLLastNewline(lines);
    } else {
      assert x + JoinNL(lines) == x;
    }
  }

  /** The prefix before the selection ends at a line boundary when the selection starts a line. */
  lemma PrefixBoundary(d0: string, ss: nat)
    requires ss <= |d0| && AtLineBoundary(d0, ss)
    ensures EndsAtLineBoundary(d0[..ss])
  {
  }

  /**
   * Undoing a chunk placed where the text holds `x`, the proposed lines and
   * `tail`: the proposed lines give way to the original ones.
   */
  lemma UndoPlaced(x: string, tail: string, base: nat, dl: Delta)
    requires WellFormedDelta(dl) && EndsAtLineBoundary(x)
    requires CountNewlines(x) == base + dl.sourcePosition
    requires x + JoinNL(dl.target) + tail != []
    ensures var p := PlaceDelta(x + JoinNL(dl.target) + tail, base, dl);
            UndoChunkText(p.0, p.1) == x + JoinNL(dl.source) + tail
  {
    match dl.kind {
      case Insert => UndoPlacedInsert(x, tail, base, dl);
      case Delete => UndoPlacedDelete(x, tail, base, dl);
      case Change => UndoPlacedChange(x, tail, base, dl);
    }
  }

  lemma UndoPlacedInsert(x: string, tail: string, base: nat, dl: Delta)
    requires WellFormedDelta(dl) && EndsAtLineBoundary(x) && dl.kind == Insert
    requires CountNewlines(x) == base + dl.sourcePosition
    ensures var p := PlaceDelta(x + JoinNL(dl.target) + tail, base, dl);
            UndoChunkText(p.0, p.1) == x + JoinNL(dl.source) + tail
  {
    DeleteInsertedLines(x, dl.target, tail);
    EmptyMiddle(x, JoinNL(dl.source), tail);
  }

  lemma UndoPlacedDelete(x: string, tail: string, base: nat, dl: Delta)
    requires WellFormedDelta(dl) && EndsAtLineBoundary(x) && dl.kind == Delete
    requires CountNewlines(x) == base + dl.sourcePosition
    requires x + JoinNL(dl.target) + tail != []
    ensures var p := PlaceDelta(x + JoinNL(dl.target) + tail, base, dl);
            UndoChunkText(p.0, p.1) == x + JoinNL(dl.source) + tail
  {
    var t := JoinNL(dl.target);
    assert t == [];
    var d := x + t + tail;
    LineStartAfterLines(x, t, tail);
    assert base + dl.sourcePosition < GetLineCount(d);
    PlacedSourceLines(d, base, dl, |x|);
    var p := PlaceDelta(d, base, dl);
    InsertAtRegroup(x, JoinNL(dl.source), t, tail);
    assert p.0 == x + JoinNL(dl.source) + t + tail;
    UndoUnplaced(p.0, p.1);
    EmptyMiddle(x + JoinNL(dl.source), t, tail);
  }

  lemma UndoPlacedChange(x: string, tail: string, base: nat, dl: Delta)
    requires WellFormedDelta(dl) && EndsAtLineBoundary(x) && dl.kind == Change
    requires CountNewlines(x) == base + dl.sourcePosition
    ensures var p := PlaceDelta(x + JoinNL(dl.target) + tail, base, dl);
            UndoChunkText(p.0, p.1) == x + JoinNL(dl.source) + tail
  {
    var xo := x + JoinNL(dl.source);
    ChangePlaced(x, tail, base, dl);
    JoinNLKeepsBoundary(x, dl.source);
    DeleteInsertedLines(xo, dl.target, tail);
    var p := PlaceDelta(x + JoinNL(dl.target) + tail, base, dl);
    UndoInRange(p.0, p.1, CountNewlines(xo));
  }

  /** A chunk without proposed lines leaves the text alone on undo. */
  lemma UndoUnplaced(d: string, c: DiffChunk)
    requires ChunkShape(c) && c.modifiedStartLine < 0
    ensures UndoChunkText(d, c) == d
  {
  }

  lemma Assoc(x: string, t: string, tail: string)
    ensures x + (t + tail) == x + t + tail
  {
  }

  lemma UndoInRange(d: string, c: DiffChunk, line: nat)
    requires ChunkShape(c) && c.modifiedStartLine == line < GetLineCount(d)
    ensures UndoChunkText(d, c) == DeleteLineSpan(d, line, |c.delta.target|)
  {
  }

  /** Placing a change right after `x`: its source lines go in after `x`, its target lines follow. */
  lemma ChangePlaced(x: string, tail: string, base: nat, dl: Delta)
    requires WellFormedDelta(dl) && EndsAtLineBoundary(x) && dl.kind == Change
    requires CountNewlines(x) == base + dl.sourcePosition
    ensures var p := PlaceDelta(x + JoinNL(dl.target) + tail, base, dl);
            p.0 == x + JoinNL(dl.source) + JoinNL(dl.target) + tail &&
            p.1.modifiedStartLine == CountNewlines(x) + |dl.source|
  {
    var t := JoinNL(dl.target);
    var d := x + t + tail;
    var line := base + dl.sourcePosition;
    LineStartAfterLines(x, t, tail);
    PlacedSourceLines(d, base, dl, |x|);
    InsertAtRegroup(x, JoinNL(dl.source), t, tail);
  }

  /** A deletion or change whose line exists has its source lines inserted at that line's start. */
  lemma PlacedSourceLines(d: string, base: nat, dl: Delta, q: nat)
    requires DeltaShape(dl) && dl.kind != Insert && base + dl.sourcePosition < GetLineCount(d)
    requires LineStart(d, base + dl.sourcePosition) == q
    ensures PlaceDelta(d, base, dl).0 == InsertAt(d, q, JoinNL(dl.source))
  {
  }

  lemma EmptyMiddle(x: string, j: string, y: string)
    requires j == []
    ensures x + j + y == x + y
  {
  }

  lemma LineStartAfterLines(x: string, t: string, tail: string)
    requires EndsAtLineBoundary(x)
    ensures CountNewlines(x) < LineCount(x + t + tail) && LineStart(x + t + tail, CountNewlines(x)) == |x|
  {
    LineStartAfter(x, t + tail);
    Assoc(x, t, tail);
  }

  lemma InsertAtRegroup(x: string, j: string, t: string, tail: string)
    ensures InsertAt(x + t + tail, |x|, j) == x + j + t + tail
  {
    var d := x + t + tail;
    assert d[..|x|] == x && d[|x|..] == t + tail;
  }

  /** A selection made of `P`, `M` and `S` as lines, cut after `P` and after `M`. */
  lemma SelectionAsLines(pre: string, P: seq<string>, M: seq<string>, S: seq<string>, post: string)
    requires S != []
    ensures pre + Join(P + M + S) + post == (pre + JoinNL(P)) + JoinNL(M) + (Join(S) + post)
  {
    JoinAppend(P + M, S);
    JoinNLAppend(P, M);
    Regroup(pre, JoinNL(P), JoinNL(M), Join(S), post);
  }

  lemma Regroup(pre: string, a: string, b: string, c: string, e: string)
    ensures pre + (a + b + c) + e == (pre + a) + b + (c + e)
  {
  }

  /** The text before the common prefix's end ends a line and counts its lines. */
  lemma PrefixLines(d0: string, ss: nat, P: seq<string>)
    requires ss <= |d0| && AllNoNewline(P) && (P != [] || AtLineBoundary(d0, ss))
    ensures EndsAtLineBoundary(d0[..ss] + JoinNL(P))
    ensures CountNewlines(d0[..ss] + JoinNL(P)) == LineNumber(d0, ss) + |P|
  {
    CountNewlinesJoinNL(P);
    CountNewlinesAppend(d0[..ss], JoinNL(P));
    if P != [] {
      JoinNLLastNewline(P);
      LastOfAppend(d0[..ss], JoinNL(P));
    } else {
      PrefixBoundary(d0, ss);
      AppendEmpty(d0[..ss], JoinNL(P));
    }
  }

  lemma LastOfAppend(x: string, j: string)
    requires j != []
    ensures (x + j)[|x + j| - 1] == j[|j| - 1]
  {
  }

  lemma AppendEmpty(x: string, j: string)
    requires j == []
    ensures x + j == x
  {
  }

  /**
   * Undoing the only chunk of a diff gives back the original document, when the
   * selection held `P + source + S` and the proposal `P + target + S` as lines,
   * the delta sits after the common prefix `P`, at least one common line `S`
   * follows it, the chunk starts a line of the document, and the proposal
   * leaves the document non-empty (an empty document has no line to put the
   * original lines above).
   */
  lemma UndoRestoresOriginal(d0: string, ss: nat, se: nat, P: seq<string>, S: seq<string>, dl: Delta)
    requires ss <= se <= |d0| && WellFormedDelta(dl) && S != []
    requires AllNoNewline(P)
    requires dl.sourcePosition == |P| && dl.targetPosition == |P|
    requires d0[ss..se] == Join(P + dl.source + S)
    requires P != [] || AtLineBoundary(d0, ss)
    requires ReplaceRange(d0, ss, se, Join(P + dl.target + S)) != []
    ensures var r := RenderedState(d0, ss, se, Join(P + dl.target + S), [dl]);
            UndoChunkText(r.0, r.1[0]) == d0 &&
            ResolveAllText(r.0, r.1, false) == d0
  {
    var modifiedText := Join(P + dl.target + S);
    SingleDeltaRendered(d0, ss, se, modifiedText, dl);
    var p := PlaceDelta(ReplaceRange(d0, ss, se, modifiedText), LineNumber(d0, ss), dl);
    ResolveAllSingle(p.0, p.1, false);
    UndoSingle(d0, ss, se, P, S, dl);
  }

  /** The single chunk, placed and undone, in terms of the lines around the delta. */
  lemma UndoSingle(d0: string, ss: nat, se: nat, P: seq<string>, S: seq<string>, dl: Delta)
    requires ss <= se <= |d0| && WellFormedDelta(dl) && S != []
    requires AllNoNewline(P)
    requires dl.sourcePosition == |P|
    requires d0[ss..se] == Join(P + dl.source + S)
    requires P != [] || AtLineBoundary(d0, ss)
    requires ReplaceRange(d0, ss, se, Join(P + dl.target + S)) != []
    ensures var p := PlaceDelta(ReplaceRange(d0, ss, se, Join(P + dl.target + S)), LineNumber(d0, ss), dl);
            UndoChunkText(p.0, p.1) == d0
  {
    var pre, post := d0[..ss], d0[se..];
    PrefixLines(d0, ss, P);
    SelectionAsLines(pre, P, dl.source, S, post);
    SelectionAsLines(pre, P, dl.target, S, post);
    SplitAround(d0, ss, se);
    UndoPlaced(pre + JoinNL(P), Join(S) + post, LineNumber(d0, ss), dl);
  }

  lemma SplitAround(d: string, ss: nat, se: nat)
    requires ss <= se <= |d|
    ensures d == d[..ss] + d[ss..se] + d[se..]
  {
  }
}
