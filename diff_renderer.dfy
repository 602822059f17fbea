/**
 * The inline diff session of ModernDiffRenderer: the selection is replaced by the
 * proposed text, the original lines of every deletion or change are inserted just
 * above the proposed lines, and each resulting chunk is then kept or undone, one
 * at a time or all together.
 *
 * A chunk is identified by its index in `chunks` (the source compares chunk
 * objects by identity).  The line deltas come from the diff library and are an
 * input here.
 */
module DiffRenderer {
  import opened JavaText
  import opened DocLines

  datatype DeltaType = Insert | Delete | Change

  /** A line delta: `source` lines at `sourcePosition` of the original become `target` lines. */
  datatype Delta = Delta(kind: DeltaType, sourcePosition: nat, source: seq<string>,
                         targetPosition: nat, target: seq<string>)

  /** DiffChunk; -1 marks an absent start line. */
  datatype DiffChunk = DiffChunk(delta: Delta, originalStartLine: int, modifiedStartLine: int,
                                 processed: bool)

  /** The line counts each kind of delta has. */
  predicate DeltaShape(dl: Delta) {
    match dl.kind
    case Insert => dl.source == [] && dl.target != []
    case Delete => dl.source != [] && dl.target == []
    case Change => dl.source != [] && dl.target != []
  }

  /** What the diff library promises of a single delta: its lines came from splitting at '\n'. */
  predicate WellFormedDelta(dl: Delta) {
    DeltaShape(dl) && AllNoNewline(dl.source) && AllNoNewline(dl.target)
  }

  /** Deltas are well-formed, sorted and non-overlapping on both sides. */
  predicate WellFormedDeltas(ds: seq<Delta>) {
    (forall k :: 0 <= k < |ds| ==> WellFormedDelta(ds[k])) &&
    (forall k :: 0 < k < |ds| ==>
       ds[k - 1].sourcePosition + |ds[k - 1].source| <= ds[k].sourcePosition &&
       ds[k - 1].targetPosition + |ds[k - 1].target| <= ds[k].targetPosition)
  }

  /** An insertion never has original lines shown, a deletion never has proposed ones. */
  predicate ChunkShape(c: DiffChunk) {
    DeltaShape(c.delta) &&
    (c.delta.kind == Insert ==> c.originalStartLine == -1) &&
    (c.delta.kind == Delete ==> c.modifiedStartLine == -1)
  }

  // ---------------------------------------------------------------------------
  // Materialising the diff

  /**
   * One step of renderDifferences: the delta is placed at line `base + sourcePosition`
   * of the current text; for a deletion or change its source lines are inserted
   * there when that line exists.
   */
  function PlaceDelta(d: string, base: nat, dl: Delta): (r: (string, DiffChunk))
    requires DeltaShape(dl)
    ensures var line := base + dl.sourcePosition;
            var c := r.1;
            ChunkShape(c) && c.delta == dl && !c.processed &&
            c.originalStartLine == (if dl.kind != Insert && line < GetLineCount(d) then line else -1) &&
            c.modifiedStartLine == (match dl.kind
                                    case Insert => line
                                    case Change => line + |dl.source|
                                    case Delete => -1)
    ensures r.1.originalStartLine == -1 ==> r.0 == d
  {
    var line := base + dl.sourcePosition;
    var c0 := DiffChunk(dl, -1, -1, false);
    var c1 := if dl.kind == Insert then c0.(modifiedStartLine := line)
              else if dl.kind == Change then c0.(modifiedStartLine := line + |dl.source|)
              else c0;
    if dl.kind != Insert && line < GetLineCount(d) then
      (InsertAt(d, LineStart(d, line), JoinNL(dl.source)), c1.(originalStartLine := line))
    else
      (d, c1)
  }

  /** Placing a deletion or change adds exactly its source lines to the text. */
  lemma PlaceDeltaAddsSourceLines(d: string, base: nat, dl: Delta)
    requires WellFormedDelta(dl)
    ensures var r := PlaceDelta(d, base, dl);
            CountNewlines(r.0) == CountNewlines(d) + (if r.1.originalStartLine >= 0 then |dl.source| else 0)
  {
    var line := base + dl.sourcePosition;
    if dl.kind != Insert && line < GetLineCount(d) {
      var q := LineStart(d, line);
      var j := JoinNL(dl.source);
      CountNewlinesJoinNL(dl.source);
      assert d[..q] + j + d[q..] == InsertAt(d, q, j);
      CountNewlinesAppend(d[..q], j);
      CountNewlinesAppend(d[..q] + j, d[q..]);
      assert d == d[..q] + d[q..];
      CountNewlinesAppend(d[..q], d[q..]);
    }
  }

  /** The text and the chunks after placing `ds` from the last delta to the first. */
  function Materialized(d: string, base: nat, ds: seq<Delta>): (r: (string, seq<DiffChunk>))
    requires forall k :: 0 <= k < |ds| ==> DeltaShape(ds[k])
    ensures |r.1| == |ds|
    ensures forall k :: 0 <= k < |ds| ==> r.1[k].delta == ds[k] && ChunkShape(r.1[k]) && !r.1[k].processed
    decreases |ds|
  {
    if ds == [] then (d, [])
    else
      var rest := Materialized(d, base, ds[1..]);
      var placed := PlaceDelta(rest.0, base, ds[0]);
      (placed.0, [placed.1] + rest.1)
  }

  /** Materialized of a suffix, one delta unfolded. */
  lemma MaterializedStep(d: string, base: nat, ds: seq<Delta>, i: nat)
    requires i < |ds| && forall k :: 0 <= k < |ds| ==> DeltaShape(ds[k])
    ensures Materialized(d, base, ds[i..]) ==
              (PlaceDelta(Materialized(d, base, ds[i + 1..]).0, base, ds[i]).0,
               [PlaceDelta(Materialized(d, base, ds[i + 1..]).0, base, ds[i]).1] + Materialized(d, base, ds[i + 1..]).1)
  {
    assert ds[i..][1..] == ds[i + 1..];
  }

  // ---------------------------------------------------------------------------
  // Resolving chunks

  /** The line that updateChunkLines compares against: the larger recorded start, at least 0. */
  function AffectedLine(c: DiffChunk): (r: nat)
    ensures r >= c.originalStartLine && r >= c.modifiedStartLine
  {
    Max(if c.originalStartLine >= 0 then c.originalStartLine else 0,
        if c.modifiedStartLine >= 0 then c.modifiedStartLine else 0)
  }

  /** One chunk after a deletion of |linesDelta| lines at `affected`. */
  function ShiftChunk(c: DiffChunk, affected: nat, linesDelta: int): (r: DiffChunk)
    requires ChunkShape(c)
    ensures ChunkShape(r) && r.delta == c.delta && r.processed == c.processed
    ensures c.processed ==> r == c
    ensures !c.processed ==>
              r.originalStartLine == (if c.originalStartLine > affected then c.originalStartLine + linesDelta
                                      else c.originalStartLine) &&
              r.modifiedStartLine == (if c.modifiedStartLine > affected then c.modifiedStartLine + linesDelta
                                      else c.modifiedStartLine)
  {
    if c.processed then c
    else
      c.(originalStartLine := if c.originalStartLine > affected then c.originalStartLine + linesDelta
                              else c.originalStartLine,
         modifiedStartLine := if c.modifiedStartLine > affected then c.modifiedStartLine + linesDelta
                              else c.modifiedStartLine)
  }

  /** updateChunkLines: every other unprocessed chunk is shifted. */
  function ShiftChunks(cs: seq<DiffChunk>, idx: nat, linesDelta: int): (r: seq<DiffChunk>)
    requires idx < |cs| && forall k :: 0 <= k < |cs| ==> ChunkShape(cs[k])
    ensures |r| == |cs| && r[idx] == cs[idx]
    ensures forall k :: 0 <= k < |cs| ==> ChunkShape(r[k])
  {
    seq(|cs|, k requires 0 <= k < |cs| =>
      if k == idx then cs[k] else ShiftChunk(cs[k], AffectedLine(cs[idx]), linesDelta))
  }

  /** The text after keeping one chunk: its original lines are deleted when they are in range. */
  function KeepChunkText(d: string, c: DiffChunk): (r: string)
    requires ChunkShape(c)
    ensures |r| <= |d|
  {
    if 0 <= c.originalStartLine < GetLineCount(d) then
      DeleteLineSpan(d, c.originalStartLine, |c.delta.source|)
    else d
  }

  /** The text after undoing one chunk: its proposed lines are deleted when they are in range. */
  function UndoChunkText(d: string, c: DiffChunk): (r: string)
    requires ChunkShape(c)
    ensures |r| <= |d|
  {
    if 0 <= c.modifiedStartLine < GetLineCount(d) then
      DeleteLineSpan(d, c.modifiedStartLine, |c.delta.target|)
    else d
  }

  /** The chunks after a local keep (or undo) of chunk `idx` of the text `d`. */
  function AfterLocal(d: string, cs: seq<DiffChunk>, idx: nat, keep: bool): (r: seq<DiffChunk>)
    requires idx < |cs| && forall k :: 0 <= k < |cs| ==> ChunkShape(cs[k])
    ensures |r| == |cs| && r[idx] == cs[idx].(processed := true)
    ensures forall k :: 0 <= k < |cs| ==> ChunkShape(r[k]) && r[k].delta == cs[k].delta
    ensures forall k :: 0 <= k < |cs| && k != idx ==> r[k].processed == cs[k].processed
  {
    var c := cs[idx];
    var line := if keep then c.originalStartLine else c.modifiedStartLine;
    var size := if keep then |c.delta.source| else |c.delta.target|;
    var shifted := if 0 <= line < GetLineCount(d) then ShiftChunks(cs, idx, -size) else cs;
    assert |shifted| == |cs| && forall k :: 0 <= k < |cs| ==>
      ChunkShape(shifted[k]) && shifted[k].delta == cs[k].delta && shifted[k].processed == cs[k].processed;
    shifted[idx := c.(processed := true)]
  }

  /** AfterLocal, given the chunks after the shift. */
  lemma AfterLocalIs(d: string, cs: seq<DiffChunk>, idx: nat, keep: bool, shifted: seq<DiffChunk>)
    requires idx < |cs| && forall k :: 0 <= k < |cs| ==> ChunkShape(cs[k])
    requires var c := cs[idx];
             var line := if keep then c.originalStartLine else c.modifiedStartLine;
             var size := if keep then |c.delta.source| else |c.delta.target|;
             shifted == if 0 <= line < GetLineCount(d) then ShiftChunks(cs, idx, -size) else cs
    ensures |shifted| == |cs|
    ensures AfterLocal(d, cs, idx, keep) == shifted[idx := cs[idx].(processed := true)]
  {
  }

  lemma PrependAssoc(c: DiffChunk, a: seq<DiffChunk>, b: seq<DiffChunk>)
    ensures [c] + (a + b) == ([c] + a) + b
  {
  }

  /** Replacing the first chunk of a list leaves the rest. */
  lemma UpdateHead(head: seq<DiffChunk>, c: DiffChunk, rest: seq<DiffChunk>)
    requires |head| == 1
    ensures (head + rest)[0 := c] == [c] + rest
  {
    assert forall k :: 0 <= k < |rest| + 1 ==> (head + rest)[0 := c][k] == ([c] + rest)[k];
  }

  /** One step of Keep All (`keep`) or Undo All: an unprocessed chunk is resolved, a processed one skipped. */
  function ResolveStep(d: string, c: DiffChunk, keep: bool): (r: string)
    requires ChunkShape(c)
    ensures c.processed ==> r == d
  {
    if c.processed then d else if keep then KeepChunkText(d, c) else UndoChunkText(d, c)
  }

  /** The text after Keep All (`keep`) or Undo All, which visit the chunks from the last to the first. */
  function ResolveAllText(d: string, cs: seq<DiffChunk>, keep: bool): (r: string)
    requires forall k :: 0 <= k < |cs| ==> ChunkShape(cs[k])
    ensures |r| <= |d|
    decreases |cs|
  {
    if cs == [] then d else ResolveAllText(ResolveStep(d, cs[|cs| - 1], keep), cs[..|cs| - 1], keep)
  }

  lemma ResolveAllUnfold(d: string, cs: seq<DiffChunk>, i: nat, keep: bool)
    requires i < |cs| && forall k :: 0 <= k < |cs| ==> ChunkShape(cs[k])
    ensures ResolveAllText(d, cs[..i + 1], keep) == ResolveAllText(ResolveStep(d, cs[i], keep), cs[..i], keep)
  {
    assert cs[..i + 1][..i] == cs[..i];
  }

  /** Every chunk marked processed, nothing else touched. */
  function MarkAll(cs: seq<DiffChunk>): (r: seq<DiffChunk>)
    ensures |r| == |cs|
    ensures forall k :: 0 <= k < |cs| ==>
              (r[k].processed && r[k].delta == cs[k].delta &&
               r[k].originalStartLine == cs[k].originalStartLine &&
               r[k].modifiedStartLine == cs[k].modifiedStartLine)
  {
    seq(|cs|, k requires 0 <= k < |cs| => cs[k].(processed := true))
  }

  // ---------------------------------------------------------------------------
  // Counting and navigation

  function CountProcessed(cs: seq<DiffChunk>): (n: nat)
    ensures n <= |cs|
  {
    if cs == [] then 0 else CountProcessed(cs[..|cs| - 1]) + (if cs[|cs| - 1].processed then 1 else 0)
  }

  function CountUnprocessed(cs: seq<DiffChunk>): (n: nat)
    ensures n <= |cs|
  {
    if cs == [] then 0 else CountUnprocessed(cs[..|cs| - 1]) + (if cs[|cs| - 1].processed then 0 else 1)
  }

  /** Every chunk is either processed or not: the two counts make up the total. */
  lemma {:induction false} CountsAddUp(cs: seq<DiffChunk>)
    ensures CountProcessed(cs) + CountUnprocessed(cs) == |cs|
  {
    if cs != [] {
      CountsAddUp(cs[..|cs| - 1]);
    }
  }

  /** No chunk is left to resolve exactly when every chunk is processed. */
  lemma {:induction false} NoneUnprocessed(cs: seq<DiffChunk>)
    ensures CountUnprocessed(cs) == 0 <==> forall k :: 0 <= k < |cs| ==> cs[k].processed
  {
    if cs != [] {
      var init := cs[..|cs| - 1];
      NoneUnprocessed(init);
      assert forall k :: 0 <= k < |init| ==> init[k] == cs[k];
    }
  }

  /** navigateNext: one forward, wrapping to the first. */
  function NextIndex(i: int, n: nat): (r: int)
    ensures 0 <= i < n ==> 0 <= r < n
    ensures n == 0 ==> r == i
  {
    if n == 0 then i else if i + 1 >= n then 0 else i + 1
  }

  /** navigatePrevious: one back, wrapping to the last. */
  function PrevIndex(i: int, n: nat): (r: int)
    ensures 0 <= i < n ==> 0 <= r < n
    ensures n == 0 ==> r == i
  {
    if n == 0 then i else if i - 1 < 0 then n - 1 else i - 1
  }

  lemma NextThenPrevious(i: int, n: nat)
    requires 0 <= i < n
    ensures PrevIndex(NextIndex(i, n), n) == i && NextIndex(PrevIndex(i, n), n) == i
  {
  }

  /** `steps` calls of navigateNext from `i` advance by `steps`, wrapping once past the end. */
  lemma {:induction false} Advance(i: int, n: nat, steps: nat)
    requires 0 <= i < n && steps <= n
    ensures Iterate(i, n, steps) == if i + steps < n then i + steps else i + steps - n
  {
    if steps > 0 {
      Advance(i, n, steps - 1);
    }
  }

  /** `n` calls of navigateNext come back to the same chunk. */
  lemma FullCycle(i: int, n: nat)
    requires 0 <= i < n
    ensures Iterate(i, n, n) == i
  {
    Advance(i, n, n);
  }

  /** The index after `steps` calls of navigateNext. */
  function Iterate(i: int, n: nat, steps: nat): int {
    if steps == 0 then i else NextIndex(Iterate(i, n, steps - 1), n)
  }

  /** scrollToCurrentChunk: the start of the chunk's first shown line, if that line exists. */
  function ScrollTarget(d: string, c: DiffChunk): (r: Option<nat>)
    ensures r.Some? ==> r.value <= |d| && AtLineBoundary(d, r.value)
    ensures r.Some? <==> var line := if c.originalStartLine >= 0 then c.originalStartLine else c.modifiedStartLine;
                         0 <= line < GetLineCount(d)
  {
    var line := if c.originalStartLine >= 0 then c.originalStartLine else c.modifiedStartLine;
    if 0 <= line < GetLineCount(d) then Some(LineStart(d, line)) else None
  }

  datatype RenderOutcome = NoDifferences | RenderFailed | Rendered
  datatype LocalOutcome = AlreadyProcessed | Resolved
  datatype BulkOutcome = NothingLeft | Declined | Applied

  /** The status label: position, total and what remains. */
  datatype Status = Remaining(position: int, total: nat, remaining: nat)
                  | AllDone(position: int, total: nat)

  // ---------------------------------------------------------------------------
  // The renderer

  class DiffSession {
    /** The editor's document text. */
    var doc: string
    var chunks: seq<DiffChunk>
    var currentChunkIndex: int
    var toolbarOpen: bool
    const originalText: string
    const modifiedText: string
    const selectionStart: int
    const selectionEnd: int

    ghost predicate Valid()
      reads this
    {
      (forall k :: 0 <= k < |chunks| ==> ChunkShape(chunks[k])) &&
      (if chunks == [] then currentChunkIndex == 0 else 0 <= currentChunkIndex < |chunks|)
    }

    constructor (text: string, originalText: string, modifiedText: string,
                 selectionStart: int, selectionEnd: int)
      ensures Valid()
      ensures doc == text && chunks == [] && currentChunkIndex == 0 && !toolbarOpen
      ensures this.originalText == originalText && this.modifiedText == modifiedText
      ensures this.selectionStart == selectionStart && this.selectionEnd == selectionEnd
    {
      doc := text;
      chunks := [];
      currentChunkIndex := 0;
      toolbarOpen := false;
      this.originalText := originalText;
      this.modifiedText := modifiedText;
      this.selectionStart := selectionStart;
      this.selectionEnd := selectionEnd;
    }

    /**
     * render / renderDifferences / showToolbar.  `deltas` is the line diff of
     * originalText against modifiedText.  A selection outside the document makes
     * the document calls throw, which render reports as an error.
     */
    method Render(deltas: seq<Delta>) returns (outcome: RenderOutcome, caretTarget: Option<nat>)
      requires Valid() && WellFormedDeltas(deltas)
      modifies this
      ensures Valid()
      ensures deltas == [] ==> outcome == NoDifferences
      ensures deltas != [] && !(0 <= selectionStart <= selectionEnd <= |old(doc)|) ==> outcome == RenderFailed
      ensures outcome != Rendered ==>
                doc == old(doc) && chunks == old(chunks) && caretTarget == None &&
                currentChunkIndex == old(currentChunkIndex) && toolbarOpen == old(toolbarOpen)
      ensures deltas != [] && 0 <= selectionStart <= selectionEnd <= |old(doc)| ==>
                outcome == Rendered &&
                var m := Materialized(ReplaceRange(old(doc), selectionStart, selectionEnd, modifiedText),
                                      LineNumber(old(doc), selectionStart), deltas);
                doc == m.0 && chunks == m.1 + old(chunks) &&
                currentChunkIndex == 0 && toolbarOpen &&
                caretTarget == ScrollTarget(doc, chunks[0])
    {
      if deltas == [] {
        return NoDifferences, None;
      }
      if !(0 <= selectionStart <= selectionEnd <= |doc|) {
        return RenderFailed, None;
      }
      var base := LineNumber(doc, selectionStart);
      doc := ReplaceRange(doc, selectionStart, selectionEnd, modifiedText);
      RenderDifferences(base, deltas);
      toolbarOpen := true;
      currentChunkIndex := 0;
      caretTarget := ScrollTarget(doc, chunks[0]);
      outcome := Rendered;
    }

    /** renderDifferences: the deltas are placed from the last to the first. */
    method RenderDifferences(base: nat, deltas: seq<Delta>)
      requires forall k :: 0 <= k < |deltas| ==> DeltaShape(deltas[k])
      modifies this
      ensures doc == Materialized(old(doc), base, deltas).0
      ensures chunks == Materialized(old(doc), base, deltas).1 + old(chunks)
      ensures currentChunkIndex == old(currentChunkIndex) && toolbarOpen == old(toolbarOpen)
    {
      ghost var d0 := doc;
      var i := |deltas|;
      while i > 0
        invariant 0 <= i <= |deltas|
        invariant doc == Materialized(d0, base, deltas[i..]).0
        invariant chunks == Materialized(d0, base, deltas[i..]).1 + old(chunks)
        invariant currentChunkIndex == old(currentChunkIndex) && toolbarOpen == old(toolbarOpen)
        decreases i
      {
        i := i - 1;
        MaterializedStep(d0, base, deltas, i);
        ghost var placed := PlaceDelta(Materialized(d0, base, deltas[i + 1..]).0, base, deltas[i]);
        PrependAssoc(placed.1, Materialized(d0, base, deltas[i + 1..]).1, old(chunks));
        PlaceChunk(deltas[i], base);
      }
      assert deltas[0..] == deltas;
    }

    /** One iteration of the loop in renderDifferences: the chunk is prepended, then filled in. */
    method PlaceChunk(dl: Delta, base: nat)
      requires DeltaShape(dl)
      modifies this
      ensures doc == PlaceDelta(old(doc), base, dl).0
      ensures chunks == [PlaceDelta(old(doc), base, dl).1] + old(chunks)
      ensures currentChunkIndex == old(currentChunkIndex) && toolbarOpen == old(toolbarOpen)
    {
      var deltaLine := base + dl.sourcePosition;
      ghost var rest := chunks;
      var d0 := doc;
      var chunk := DiffChunk(dl, -1, -1, false);
      chunks := [chunk] + chunks;
      if dl.kind == Delete || dl.kind == Change {
        var code := BuildOriginalCode(dl.source);
        InsertOriginalCode(deltaLine, code, 0);
        if deltaLine < GetLineCount(d0) {
          chunk := chunk.(originalStartLine := deltaLine);
          UpdateHead([DiffChunk(dl, -1, -1, false)], chunk, rest);
        }
      }
      assert chunks == [chunk] + rest;
      if dl.kind == Insert || dl.kind == Change {
        var c := chunk.(modifiedStartLine := deltaLine + (if dl.kind == Change then |dl.source| else 0));
        chunks := chunks[0 := c];
        UpdateHead([chunk], c, rest);
        chunk := c;
      }
      assert chunk == PlaceDelta(old(doc), base, dl).1;
    }

    /** insertOriginalCode: the lines go in at the start of `beforeLine`, when that line exists. */
    method InsertOriginalCode(beforeLine: nat, code: string, idx: nat)
      requires idx < |chunks|
      modifies this
      ensures beforeLine >= GetLineCount(old(doc)) ==> doc == old(doc) && chunks == old(chunks)
      ensures beforeLine < GetLineCount(old(doc)) ==>
                doc == InsertAt(old(doc), LineStart(old(doc), beforeLine), code) &&
                chunks == old(chunks)[idx := old(chunks)[idx].(originalStartLine := beforeLine)]
      ensures currentChunkIndex == old(currentChunkIndex) && toolbarOpen == old(toolbarOpen)
    {
      if beforeLine >= GetLineCount(doc) {
        return;
      }
      var insertOffset := LineStart(doc, beforeLine);
      doc := InsertAt(doc, insertOffset, code);
      chunks := chunks[idx := chunks[idx].(originalStartLine := beforeLine)];
    }

    /** buildOriginalCode: every line followed by a newline. */
    static method BuildOriginalCode(lines: seq<string>) returns (code: string)
      ensures code == JoinNL(lines)
      ensures AllNoNewline(lines) ==> CountNewlines(code) == |lines|
    {
      code := "";
      var i := 0;
      while i < |lines|
        invariant 0 <= i <= |lines|
        invariant code == JoinNL(lines[..i])
      {
        JoinNLAppend(lines[..i], [lines[i]]);
        assert lines[..i + 1] == lines[..i] + [lines[i]];
        code := code + lines[i] + "\n";
        i := i + 1;
      }
      assert lines[..|lines|] == lines;
      CountNewlinesJoinNLIf(lines);
    }

    /** handleLocalKeep: the chunk's original lines go, later chunks move up. */
    method LocalKeep(idx: nat) returns (outcome: LocalOutcome)
      requires Valid() && idx < |chunks|
      modifies this
      ensures Valid()
      ensures old(chunks[idx].processed) ==>
                outcome == AlreadyProcessed && doc == old(doc) && chunks == old(chunks)
      ensures !old(chunks[idx].processed) ==>
                outcome == Resolved &&
                doc == KeepChunkText(old(doc), old(chunks[idx])) &&
                chunks == AfterLocal(old(doc), old(chunks), idx, true)
      ensures currentChunkIndex == old(currentChunkIndex) && toolbarOpen == old(toolbarOpen)
    {
      if chunks[idx].processed {
        return AlreadyProcessed;
      }
      var chunk := chunks[idx];
      ghost var d0 := doc;
      ghost var cs0 := chunks;
      if 0 <= chunk.originalStartLine < GetLineCount(doc) {
        DeleteLines(chunk.originalStartLine, |chunk.delta.source|);
        UpdateChunkLines(idx, -|chunk.delta.source|);
      }
      assert doc == KeepChunkText(d0, chunk);
      AfterLocalIs(d0, cs0, idx, true, chunks);
      chunks := chunks[idx := chunk.(processed := true)];
      return Resolved;
    }

    /** handleLocalUndo: the chunk's proposed lines go, later chunks move up. */
    method LocalUndo(idx: nat) returns (outcome: LocalOutcome)
      requires Valid() && idx < |chunks|
      modifies this
      ensures Valid()
      ensures old(chunks[idx].processed) ==>
                outcome == AlreadyProcessed && doc == old(doc) && chunks == old(chunks)
      ensures !old(chunks[idx].processed) ==>
                outcome == Resolved &&
                doc == UndoChunkText(old(doc), old(chunks[idx])) &&
                chunks == AfterLocal(old(doc), old(chunks), idx, false)
      ensures currentChunkIndex == old(currentChunkIndex) && toolbarOpen == old(toolbarOpen)
    {
      if chunks[idx].processed {
        return AlreadyProcessed;
      }
      var chunk := chunks[idx];
      ghost var d0 := doc;
      ghost var cs0 := chunks;
      if 0 <= chunk.modifiedStartLine < GetLineCount(doc) {
        DeleteLines(chunk.modifiedStartLine, |chunk.delta.target|);
        UpdateChunkLines(idx, -|chunk.delta.target|);
      }
      assert doc == UndoChunkText(d0, chunk);
      AfterLocalIs(d0, cs0, idx, false, chunks);
      chunks := chunks[idx := chunk.(processed := true)];
      return Resolved;
    }

    /**
     * The deletion shared by the four resolve operations: from the start of line
     * `first` to past the end of line `first + count - 1` (clamped to the last line).
     */
    method DeleteLines(first: nat, count: nat)
      requires first < GetLineCount(doc) && count >= 1
      modifies this
      ensures doc == DeleteLineSpan(old(doc), first, count)
      ensures chunks == old(chunks) && currentChunkIndex == old(currentChunkIndex) && toolbarOpen == old(toolbarOpen)
    {
      var d := doc;
      var start := LineStart(d, first);
      var last := first + count - 1;
      if last >= GetLineCount(d) {
        last := GetLineCount(d) - 1;
      }
      LineStartMonotone(d, first, last);
      var endOffset := LineEnd(d, last) + 1;
      if endOffset > |d| {
        endOffset := |d|;
      }
      DeleteLineSpanIs(d, first, count, start, last, endOffset);
      doc := DeleteRange(d, start, endOffset);
    }

    /** updateChunkLines */
    method UpdateChunkLines(idx: nat, linesDelta: int)
      requires Valid() && idx < |chunks|
      modifies this
      ensures Valid()
      ensures chunks == ShiftChunks(old(chunks), idx, linesDelta)
      ensures doc == old(doc) && currentChunkIndex == old(currentChunkIndex) && toolbarOpen == old(toolbarOpen)
    {
      var processedChunk := chunks[idx];
      var affectedLine := Max(
        if processedChunk.originalStartLine >= 0 then processedChunk.originalStartLine else 0,
        if processedChunk.modifiedStartLine >= 0 then processedChunk.modifiedStartLine else 0);
      var j := 0;
      while j < |chunks|
        invariant 0 <= j <= |chunks| && |chunks| == |old(chunks)|
        invariant forall k :: 0 <= k < j ==>
                    chunks[k] == (if k == idx then old(chunks)[k] else ShiftChunk(old(chunks)[k], affectedLine, linesDelta))
        invariant forall k :: j <= k < |chunks| ==> chunks[k] == old(chunks)[k]
        invariant doc == old(doc) && currentChunkIndex == old(currentChunkIndex) && toolbarOpen == old(toolbarOpen)
      {
        var chunk := chunks[j];
        if j != idx && !chunk.processed {
          if chunk.originalStartLine > affectedLine {
            chunk := chunk.(originalStartLine := chunk.originalStartLine + linesDelta);
          }
          if chunk.modifiedStartLine > affectedLine {
            chunk := chunk.(modifiedStartLine := chunk.modifiedStartLine + linesDelta);
          }
          chunks := chunks[j := chunk];
        }
        j := j + 1;
      }
      assert forall k :: 0 <= k < |chunks| ==> chunks[k] == ShiftChunks(old(chunks), idx, linesDelta)[k];
    }

    /** The number of unprocessed chunks, as the stream count in handleKeep/handleUndo. */
    method UnprocessedCount() returns (n: nat)
      ensures n == CountUnprocessed(chunks)
    {
      n := 0;
      var i := 0;
      while i < |chunks|
        invariant 0 <= i <= |chunks|
        invariant n == CountUnprocessed(chunks[..i])
      {
        assert chunks[..i + 1][..i] == chunks[..i];
        if !chunks[i].processed {
          n := n + 1;
        }
        i := i + 1;
      }
      assert chunks[..|chunks|] == chunks;
    }

    /** handleKeep: with confirmation, every unprocessed chunk's original lines go, last chunk first. */
    method KeepAll(confirmed: bool) returns (outcome: BulkOutcome)
      requires Valid()
      modifies this
      ensures Valid()
      ensures CountUnprocessed(old(chunks)) == 0 ==>
                outcome == NothingLeft && doc == old(doc) && chunks == old(chunks) && !toolbarOpen
      ensures CountUnprocessed(old(chunks)) > 0 && !confirmed ==>
                outcome == Declined && doc == old(doc) && chunks == old(chunks) && toolbarOpen == old(toolbarOpen)
      ensures CountUnprocessed(old(chunks)) > 0 && confirmed ==>
                outcome == Applied && doc == ResolveAllText(old(doc), old(chunks), true) &&
                chunks == MarkAll(old(chunks)) && !toolbarOpen
      ensures currentChunkIndex == old(currentChunkIndex)
    {
      var unprocessedCount := UnprocessedCount();
      if unprocessedCount == 0 {
        toolbarOpen := false;
        return NothingLeft;
      }
      if !confirmed {
        return Declined;
      }
      ResolveAll(true);
      toolbarOpen := false;
      return Applied;
    }

    /** handleUndo: with confirmation, every unprocessed chunk's proposed lines go, last chunk first. */
    method UndoAll(confirmed: bool) returns (outcome: BulkOutcome)
      requires Valid()
      modifies this
      ensures Valid()
      ensures CountUnprocessed(old(chunks)) == 0 ==>
                outcome == NothingLeft && doc == old(doc) && chunks == old(chunks) && !toolbarOpen
      ensures CountUnprocessed(old(chunks)) > 0 && !confirmed ==>
                outcome == Declined && doc == old(doc) && chunks == old(chunks) && toolbarOpen == old(toolbarOpen)
      ensures CountUnprocessed(old(chunks)) > 0 && confirmed ==>
                outcome == Applied && doc == ResolveAllText(old(doc), old(chunks), false) &&
                chunks == MarkAll(old(chunks)) && !toolbarOpen
      ensures currentChunkIndex == old(currentChunkIndex)
    {
      var unprocessedCount := UnprocessedCount();
      if unprocessedCount == 0 {
        toolbarOpen := false;
        return NothingLeft;
      }
      if !confirmed {
        return Declined;
      }
      ResolveAll(false);
      toolbarOpen := false;
      return Applied;
    }

    /**
     * The write command of handleKeep (`keep`) and handleUndo: from the last chunk
     * to the first, each unprocessed chunk has its original (or proposed) lines
     * deleted and is marked processed; no recorded line is adjusted.
     */
    method ResolveAll(keep: bool)
      requires Valid()
      modifies this
      ensures Valid()
      ensures doc == ResolveAllText(old(doc), old(chunks), keep) && chunks == MarkAll(old(chunks))
      ensures currentChunkIndex == old(currentChunkIndex) && toolbarOpen == old(toolbarOpen)
    {
      var i := |chunks|;
      assert old(chunks)[..i] == old(chunks);
      while i > 0
        invariant 0 <= i <= |chunks| && |chunks| == |old(chunks)|
        invariant ResolveAllText(old(doc), old(chunks), keep) == ResolveAllText(doc, old(chunks)[..i], keep)
        invariant forall k :: 0 <= k < i ==> chunks[k] == old(chunks)[k]
        invariant forall k :: i <= k < |chunks| ==> chunks[k] == old(chunks)[k].(processed := true)
        invariant Valid() && currentChunkIndex == old(currentChunkIndex) && toolbarOpen == old(toolbarOpen)
      {
        i := i - 1;
        ResolveAllUnfold(doc, old(chunks), i, keep);
        ResolveChunkAt(i, keep);
      }
      assert old(chunks)[..0] == [];
      assert forall k :: 0 <= k < |chunks| ==> chunks[k] == MarkAll(old(chunks))[k];
    }

    /** One iteration of the loop of handleKeep (`keep`) or handleUndo. */
    method ResolveChunkAt(i: nat, keep: bool)
      requires Valid() && i < |chunks|
      modifies this
      ensures Valid()
      ensures doc == ResolveStep(old(doc), old(chunks)[i], keep)
      ensures chunks == old(chunks)[i := old(chunks)[i].(processed := true)]
      ensures currentChunkIndex == old(currentChunkIndex) && toolbarOpen == old(toolbarOpen)
    {
      var chunk := chunks[i];
      if chunk.processed {
        return;
      }
      if keep && 0 <= chunk.originalStartLine < GetLineCount(doc) {
        DeleteLines(chunk.originalStartLine, |chunk.delta.source|);
      } else if !keep && 0 <= chunk.modifiedStartLine < GetLineCount(doc) {
        DeleteLines(chunk.modifiedStartLine, |chunk.delta.target|);
      }
      chunks := chunks[i := chunk.(processed := true)];
    }

    /** navigateNext; the caret target is where scrollToCurrentChunk moves the caret. */
    method NavigateNext() returns (caretTarget: Option<nat>)
      requires Valid()
      modifies this
      ensures Valid()
      ensures currentChunkIndex == NextIndex(old(currentChunkIndex), |chunks|)
      ensures chunks == [] ==> caretTarget == None
      ensures chunks != [] ==> caretTarget == ScrollTarget(doc, chunks[currentChunkIndex])
      ensures doc == old(doc) && chunks == old(chunks) && toolbarOpen == old(toolbarOpen)
    {
      if chunks == [] {
        return None;
      }
      currentChunkIndex := currentChunkIndex + 1;
      if currentChunkIndex >= |chunks| {
        currentChunkIndex := 0;
      }
      caretTarget := ScrollTarget(doc, chunks[currentChunkIndex]);
    }

    /** navigatePrevious */
    method NavigatePrevious() returns (caretTarget: Option<nat>)
      requires Valid()
      modifies this
      ensures Valid()
      ensures currentChunkIndex == PrevIndex(old(currentChunkIndex), |chunks|)
      ensures chunks == [] ==> caretTarget == None
      ensures chunks != [] ==> caretTarget == ScrollTarget(doc, chunks[currentChunkIndex])
      ensures doc == old(doc) && chunks == old(chunks) && toolbarOpen == old(toolbarOpen)
    {
      if chunks == [] {
        return None;
      }
      currentChunkIndex := currentChunkIndex - 1;
      if currentChunkIndex < 0 {
        currentChunkIndex := |chunks| - 1;
      }
      caretTarget := ScrollTarget(doc, chunks[currentChunkIndex]);
    }

    /** updateStatusLabel: position, total and the number still unprocessed. */
    method StatusLabel() returns (s: Status)
      requires Valid()
      ensures s.total == |chunks| && s.position == currentChunkIndex + 1
      ensures s.Remaining? <==> CountUnprocessed(chunks) > 0
      ensures s.Remaining? ==> s.remaining == |chunks| - CountProcessed(chunks) == CountUnprocessed(chunks)
    {
      var total := |chunks|;
      var processed := 0;
      var i := 0;
      while i < |chunks|
        invariant 0 <= i <= |chunks|
        invariant processed == CountProcessed(chunks[..i])
      {
        assert chunks[..i + 1][..i] == chunks[..i];
        if chunks[i].processed {
          processed := processed + 1;
        }
        i := i + 1;
      }
      assert chunks[..|chunks|] == chunks;
      CountsAddUp(chunks);
      var remaining := total - processed;
      if remaining > 0 {
        s := Remaining(currentChunkIndex + 1, total, remaining);
      } else {
        s := AllDone(currentChunkIndex + 1, total);
      }
    }
  }
}
