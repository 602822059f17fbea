# LLM code assistant core in Dafny

This project models the core of an IntelliJ plugin that asks a language model for code completions and code edits. It also proves properties of that model. The core consists of:

- **The inline diff session** (`ModernDiffRenderer`). The selection is replaced by the model's proposal. The original lines of each deleted or changed block are shown just above the proposed lines. Each block (a *chunk*) can then be kept or undone, one at a time or all at once. The user can step through the chunks cyclically.
- **Three completion caches**:
  - `CompletionCacheManager`: exact, file-level and fuzzy tiers, least-used eviction, and an LCS-based similarity score;
  - `ContextCacheManager`: a hot/cold LRU pair with promotion and demotion;
  - `LLMCache`: a map whose entries expire.
- **The text helpers** of the typing handler, the document listener, the completion contributor, the edit-selection action and the editor-context utilities: trigger rules, context windows, cache keys, prompt excerpts and the cleaning of the model's replies.
- **Two small state machines**: the inline suggestion holder with its Tab handler, and the on/off flag.

Java's semantics are written out where the code depends on them:

- **Strings:**
  - `String.trim` removes every character up to `' '`;
  - `\s` is `[ \t\n\x0B\f\r]`;
  - `.` does not match a line terminator;
  - `$` also matches before one final line terminator;
  - `split("\n")` drops trailing empty strings;
  - `hashCode` wraps at 32 bits.
- **Maps:** `LinkedHashMap` keeps insertion or access order, and an ordered map is a sequence of pairs. The three tiers of `CompletionCacheManager` are `ConcurrentHashMap`s, which iterate in hash order. The model does not compute that order: where the source removes "the first key the iterator yields" from the fuzzy tier, that key is a parameter (`first`, any present key or the new one). The exact and file tiers keep their pairs in a sequence with new keys appended, and that sequence order stands for the iteration order (see "## Left out" for what that decides).
- **Integers:** `int` offsets and counters are unbounded integers; the only modelled 32-bit wrap-around is `hashCode`'s.

Module by module:

- **Shared modules:**
  - `JavaText`: the Java string library;
  - `DocLines`: the editor document (`getLineCount`, `getLineStartOffset`, `getLineEndOffset`, `insertString`, `deleteString`);
  - `OrderedMap`: an order-keeping map as a sequence of pairs.
- **Classes:** a class in the source whose fields change is a Dafny class, with the static fields as the fields of one instance. The clock, the network reply and the user's answers to dialogs are parameters.
- **Diff renderer:** `DiffRenderer` holds the session class. `DiffRoundTrip` proves the single-chunk round trips. `DiffExamples` works through concrete diff sessions.

The diff itself (java-diff-utils) is an input. `WellFormedDeltas` states what it promises:

- an insertion has no source lines and a deletion no target lines;
- lines hold no `'\n'`;
- deltas are sorted and do not overlap.

The renderer places each delta at `base + source position`. The document then holds the proposed text, and chunks placed earlier are not shifted when later lines go in above them. So the exact round trips are proved for a single chunk:

- `DiffRoundTrip.KeepRestoresProposal`: Keep leaves the proposal, for any single delta;
- `DiffRoundTrip.UndoRestoresOriginal`: Undo restores the original, when at least one line follows the delta, the proposal leaves the document non-empty, and either the selection starts a line or at least one common line precedes the delta. `DiffExamples.UndoMidLineLosesText` shows the second condition is needed: with `"Qa\nz"`, the selection starting after `Q` and the proposal `"b\nz"`, Undo leaves `"a\nz"` and the `Q` is lost.

With several chunks, Undo All can delete the wrong line. `DiffExamples.UndoAllCanLoseALine` shows such a case: the session that turns `"a\nb\nc\nd"` into `"N\na\nb\nC\nd"` leaves, after Undo All, `"a\nc\nC\nd"`. Keep All has the same flaw: `DiffExamples.KeepAllCanLoseALine` shows `"a\nx\nb"` proposed as `"A\nx\nB"` ending, after Keep All, as `"A\nb\nB"`: the unchanged `x` is deleted and the original `b` stays.

An empty document has no lines (`getLineCount()` is 0), so a proposal that deletes the whole document places no original line, and Undo cannot bring the text back: `DiffExamples.UndoEmptiedDocumentLosesText` shows this for `"a\n"`.

Other behaviours of the source that the model makes explicit:

- `EditSelection.FencedEchoShowsEmptyDiff`: the edit action judges identity before cleaning, so a reply that wraps the selection in a code fence leads to a diff with nothing in it.
- `EditSelection.DiffEmptiesSelectionIffBlank`: a blank reply proposes to delete the whole selection.
- `InlineCompletion.InlineCompletionManager.Accept`: accepting inserts the suggestion into the editor passed in, which need not be the one that showed it.
- `DocumentListener.CacheKeyCollision`: two contexts with equal hash codes share a cache key.
- `CompletionContributor.BlankReplyAddsEmptyItem`: the completion contributor adds an empty item for a blank reply.
- `CompletionCache.FileCacheCanExceedCap`: the file-level cache can grow past its cap of 20.
- `CompletionText.SimilarityOfIdentical`: identical code longer than 100 normalised characters scores below 100.
- `TypedAction.LineStartRuleNeverFires`: the line-start trigger rule of the typing handler never fires (see Findings).

## Model

| member | source | states |
|---|---|---|
| DiffRenderer.PlaceDelta | src/main/java/com/system/demo/LLM/ModernDiffRenderer.java:118-133 | One step of the render loop. The new chunk is unprocessed and carries its delta. For a deletion or change whose line `base + source position` exists (an empty document has none, since `getLineCount()` is 0), the source lines go in at that line's start and `originalStartLine` is that line; otherwise the text is unchanged and `originalStartLine` is -1. `modifiedStartLine` is the line plus the source size for a change, the line for an insertion, and -1 for a deletion. |
| DiffRenderer.PlaceDeltaAddsSourceLines | src/main/java/com/system/demo/LLM/ModernDiffRenderer.java:142-149 | Placing a delta adds exactly as many lines as it has source lines when it is placed, and none otherwise. |
| DiffRenderer.Materialized | src/main/java/com/system/demo/LLM/ModernDiffRenderer.java:117-123 | Rendering gives one chunk per delta, in delta order, each unprocessed and carrying its own delta. |
| DiffRenderer.MaterializedStep | src/main/java/com/system/demo/LLM/ModernDiffRenderer.java:118-123 | Deltas are placed from the last to the first: each earlier delta is placed on the text the later ones left, and its chunk goes first. |
| DiffRenderer.AffectedLine | src/main/java/com/system/demo/LLM/ModernDiffRenderer.java:377-380 | The line compared against is at least each of the chunk's recorded lines. |
| DiffRenderer.ShiftChunk | src/main/java/com/system/demo/LLM/ModernDiffRenderer.java:384-391 | A processed chunk is untouched. In an unprocessed one, each recorded line beyond the affected line moves by `linesDelta`; lines at or before it, and -1, stay. |
| DiffRenderer.ShiftChunks | src/main/java/com/system/demo/LLM/ModernDiffRenderer.java:375-393 | The chunk just resolved is left as it is; every chunk keeps its shape. |
| DiffRenderer.AfterLocal | src/main/java/com/system/demo/LLM/ModernDiffRenderer.java:321-332 | After a local keep or undo the chunk is processed, every chunk keeps its delta, and no other chunk changes its processed flag. |
| DiffRenderer.ResolveStep | src/main/java/com/system/demo/LLM/ModernDiffRenderer.java:601-602 | Keep All and Undo All skip a processed chunk: the text is unchanged. |
| DiffRenderer.ResolveAllText | src/main/java/com/system/demo/LLM/ModernDiffRenderer.java:600-617 | Resolving every chunk from the last to the first never lengthens the text. |
| DiffRenderer.ResolveAllUnfold | src/main/java/com/system/demo/LLM/ModernDiffRenderer.java:651-668 | The loop resolves chunk `i` before the chunks below it. |
| DiffRenderer.MarkAll | src/main/java/com/system/demo/LLM/ModernDiffRenderer.java:615 | Afterwards every chunk is processed, with its delta and both recorded lines unchanged. |
| DiffRenderer.CountsAddUp | src/main/java/com/system/demo/LLM/ModernDiffRenderer.java:508-510 | Processed and unprocessed chunks add up to the total, so `remaining = total - processed` counts the unprocessed ones. |
| DiffRenderer.NoneUnprocessed | src/main/java/com/system/demo/LLM/ModernDiffRenderer.java:579-580 | The unprocessed count is zero exactly when every chunk is processed. |
| DiffRenderer.NextIndex | src/main/java/com/system/demo/LLM/ModernDiffRenderer.java:545-553 | From a valid index, the next one is valid again (wrapping to 0); with no chunks nothing moves. |
| DiffRenderer.PrevIndex | src/main/java/com/system/demo/LLM/ModernDiffRenderer.java:529-536 | From a valid index, the previous one is valid again (wrapping to the last); with no chunks nothing moves. |
| DiffRenderer.NextThenPrevious | src/main/java/com/system/demo/LLM/ModernDiffRenderer.java:529-556 | Next then previous, and previous then next, come back to the same chunk. |
| DiffRenderer.Advance | src/main/java/com/system/demo/LLM/ModernDiffRenderer.java:545-553 | Up to `n` steps forward advance the index by that many, wrapping once past the end. |
| DiffRenderer.FullCycle | src/main/java/com/system/demo/LLM/ModernDiffRenderer.java:545-553 | `n` steps forward through `n` chunks return to the starting chunk. |
| DiffRenderer.ScrollTarget | src/main/java/com/system/demo/LLM/ModernDiffRenderer.java:561-572 | The caret moves exactly when the chunk's first shown line (original, else proposed) exists, and then to the start of a line. |
| DiffRenderer.DiffSession.constructor | src/main/java/com/system/demo/LLM/ModernDiffRenderer.java:66-75 | The session holds the texts and the selection; no chunks yet. |
| DiffRenderer.DiffSession.Render | src/main/java/com/system/demo/LLM/ModernDiffRenderer.java:80-103 | An empty diff changes nothing and reports it. A selection outside the document is an error that changes nothing. Otherwise the selection is replaced by the proposal and the deltas are materialised from the line of the selection's start. The toolbar then opens on chunk 0, and the caret moves to that chunk. |
| DiffRenderer.DiffSession.RenderDifferences | src/main/java/com/system/demo/LLM/ModernDiffRenderer.java:108-134 | The loop from the last delta to the first leaves the text and the chunks that `Materialized` describes, with the new chunks in front. |
| DiffRenderer.DiffSession.PlaceChunk | src/main/java/com/system/demo/LLM/ModernDiffRenderer.java:119-132 | One loop iteration: the chunk is prepended and filled in as `PlaceDelta` says. |
| DiffRenderer.DiffSession.InsertOriginalCode | src/main/java/com/system/demo/LLM/ModernDiffRenderer.java:142-149 | A line at or past `getLineCount()` changes nothing; an empty document has no lines, so nothing goes into it. Otherwise the code goes in at the line's start and only that chunk's `originalStartLine` is set. |
| DiffRenderer.DiffSession.LocalKeep | src/main/java/com/system/demo/LLM/ModernDiffRenderer.java:311-338 | A processed chunk changes nothing. Otherwise its original lines are deleted when they are in range, the later chunks are shifted up by the source size, and the chunk is processed (even when nothing was deleted). |
| DiffRenderer.DiffSession.LocalUndo | src/main/java/com/system/demo/LLM/ModernDiffRenderer.java:343-370 | Like LocalKeep, for the chunk's proposed lines and the target size. |
| DiffRenderer.DiffSession.DeleteLines | src/main/java/com/system/demo/LLM/ModernDiffRenderer.java:322-326 | Deletes from the start of the first line to past the end of the last one, clamped to the last line and to the text's end. |
| DiffRenderer.DiffSession.UpdateChunkLines | src/main/java/com/system/demo/LLM/ModernDiffRenderer.java:375-393 | The chunk list becomes `ShiftChunks` of itself; the text and navigation are unchanged. |
| DiffRenderer.DiffSession.UnprocessedCount | src/main/java/com/system/demo/LLM/ModernDiffRenderer.java:579 | Counts the chunks not yet processed. |
| DiffRenderer.DiffSession.KeepAll | src/main/java/com/system/demo/LLM/ModernDiffRenderer.java:577-623 | With nothing left, only the toolbar closes. Declining changes nothing. When confirmed, every unprocessed chunk's original lines are deleted, last chunk first, with no line adjustment. Every chunk ends processed and the toolbar closes. |
| DiffRenderer.DiffSession.UndoAll | src/main/java/com/system/demo/LLM/ModernDiffRenderer.java:628-674 | Like KeepAll, deleting proposed lines. |
| DiffRenderer.DiffSession.ResolveAll | src/main/java/com/system/demo/LLM/ModernDiffRenderer.java:598-617 | The write command leaves `ResolveAllText` of the text and every chunk processed. |
| DiffRenderer.DiffSession.ResolveChunkAt | src/main/java/com/system/demo/LLM/ModernDiffRenderer.java:601-616 | One iteration: one chunk resolved and marked processed, the others untouched. |
| DiffRenderer.DiffSession.NavigateNext | src/main/java/com/system/demo/LLM/ModernDiffRenderer.java:545-556 | The index moves cyclically forward, and the caret goes to that chunk's `ScrollTarget`. With no chunks there is no move. |
| DiffRenderer.DiffSession.NavigatePrevious | src/main/java/com/system/demo/LLM/ModernDiffRenderer.java:529-540 | The index moves cyclically back, and the caret goes to that chunk's `ScrollTarget`. |
| DiffRenderer.DiffSession.StatusLabel | src/main/java/com/system/demo/LLM/ModernDiffRenderer.java:506-524 | Position is index + 1 and the total is the chunk count. "Remaining" appears exactly when some chunk is unprocessed, with `total - processed` equal to the unprocessed count. |
| DiffRenderer.KeepChunkText | src/main/java/com/system/demo/LLM/ModernDiffRenderer.java:321-330 | Keeping a chunk never lengthens the text. |
| DiffRenderer.UndoChunkText | src/main/java/com/system/demo/LLM/ModernDiffRenderer.java:353-362 | Undoing a chunk never lengthens the text. |
| DiffRenderer.AfterLocalIs | src/main/java/com/system/demo/LLM/ModernDiffRenderer.java:321-332 | The chunks after a local keep or undo are the shifted ones when the lines were in range, else the old ones, with the chunk marked processed. |
| DiffRenderer.CountProcessed | src/main/java/com/system/demo/LLM/ModernDiffRenderer.java:508-509 | The processed chunks number at most the total. |
| DiffRenderer.CountUnprocessed | src/main/java/com/system/demo/LLM/ModernDiffRenderer.java:579-584 | The unprocessed chunks number at most the total. |
| DiffRoundTrip.SingleDeltaRendered | src/main/java/com/system/demo/LLM/ModernDiffRenderer.java:111-133 | Rendering one delta is one `PlaceDelta` on the text with the selection replaced. |
| DiffRoundTrip.ResolveAllSingle | src/main/java/com/system/demo/LLM/ModernDiffRenderer.java:600-617 | With a single chunk, Keep All or Undo All does what resolving that chunk does. |
| DiffRoundTrip.KeepRestoresProposal | src/main/java/com/system/demo/LLM/ModernDiffRenderer.java:321-326 | For a single well-formed delta, Keep (local or all) leaves the document with the selection replaced by the proposed text. |
| DiffRoundTrip.KeepPlaced | src/main/java/com/system/demo/LLM/ModernDiffRenderer.java:142-149 | Keeping a chunk right after placing it deletes exactly the lines placing inserted. |
| DiffRoundTrip.UndoPlaced | src/main/java/com/system/demo/LLM/ModernDiffRenderer.java:353-358 | Undoing a chunk placed after whole lines of a non-empty document replaces the proposed lines with the original ones. |
| DiffRoundTrip.UndoUnplaced | src/main/java/com/system/demo/LLM/ModernDiffRenderer.java:353 | A chunk without proposed lines (a deletion) leaves the text alone on undo. |
| DiffRoundTrip.ChangePlaced | src/main/java/com/system/demo/LLM/ModernDiffRenderer.java:125-131 | A change's source lines go in just above its target lines, and `modifiedStartLine` points at the first target line. |
| DiffRoundTrip.PlacedSourceLines | src/main/java/com/system/demo/LLM/ModernDiffRenderer.java:146-147 | The source lines, each followed by `'\n'`, go in at the start of the delta's line. |
| DiffRoundTrip.UndoRestoresOriginal | src/main/java/com/system/demo/LLM/ModernDiffRenderer.java:343-370 | For a single delta with at least one line after it, Undo and Undo All give back the original document, provided the proposal leaves the document non-empty and the selection starts a line or at least one common line precedes the delta. |
| DiffRoundTrip.UndoSingle | src/main/java/com/system/demo/LLM/ModernDiffRenderer.java:353-358 | Placing one delta on the text with the selection replaced, then undoing its chunk, gives the original document back when that text is not empty. |
| DiffRoundTrip.RenderedState | src/main/java/com/system/demo/LLM/ModernDiffRenderer.java:108-133 | Rendering gives one chunk per delta. |
| DiffRoundTrip.UndoPlacedInsert | src/main/java/com/system/demo/LLM/ModernDiffRenderer.java:353-358 | For an insertion, undo deletes exactly the inserted lines. |
| DiffRoundTrip.UndoPlacedDelete | src/main/java/com/system/demo/LLM/ModernDiffRenderer.java:353 | For a deletion in a non-empty document, the placed source lines stay on undo, which restores them. |
| DiffRoundTrip.UndoPlacedChange | src/main/java/com/system/demo/LLM/ModernDiffRenderer.java:353-358 | For a change, undo deletes the proposed lines below the placed source lines. |
| DiffRoundTrip.UndoInRange | src/main/java/com/system/demo/LLM/ModernDiffRenderer.java:353-358 | With its proposed lines in range, undo deletes exactly as many lines as the delta has target lines, from its first one. |
| DiffRoundTrip.PrefixLines | src/main/java/com/system/demo/LLM/ModernDiffRenderer.java:111 | The text up to the delta's line ends a line and has the selection's line number plus the common lines before the delta. |
| DiffExamples.UndoExample | src/main/java/com/system/demo/LLM/ModernDiffRenderer.java:311-370 | For `"a\nb\nc"` proposed as `"a\nX\nc"`, Undo gives back `"a\nb\nc"` and Keep leaves `"a\nX\nc"`. |
| DiffExamples.MaterializedTwo | src/main/java/com/system/demo/LLM/ModernDiffRenderer.java:118-123 | With two deltas the second is placed first and the chunks come out in delta order. |
| DiffExamples.ExPlaceChange | src/main/java/com/system/demo/LLM/ModernDiffRenderer.java:120 | The change of line `c` goes in at line 2 of the proposed text, above `b` instead of above `C`, and records lines 2 and 3. |
| DiffExamples.ExRendered | src/main/java/com/system/demo/LLM/ModernDiffRenderer.java:108-134 | The rendered document and chunks of a two-delta session, written out. |
| DiffExamples.ExUndoAll | src/main/java/com/system/demo/LLM/ModernDiffRenderer.java:651-668 | Undo All of that session removes the inserted line and the line below the misplaced original, so the line `b` is lost. |
| DiffExamples.ResolveAllTwo | src/main/java/com/system/demo/LLM/ModernDiffRenderer.java:600-617 | Two chunks are resolved the second first. |
| DiffExamples.UndoAllCanLoseALine | src/main/java/com/system/demo/LLM/ModernDiffRenderer.java:651-668 | With a well-formed two-delta diff, Undo All does not give back the original: `"a\nb\nc\nd"` ends as `"a\nc\nC\nd"`. |
| DiffExamples.UndoMidLineLosesText | src/main/java/com/system/demo/LLM/ModernDiffRenderer.java:111-149 | A well-formed single change with a common line after it, whose selection starts inside a line: `"Qa\nz"` with `[1, 4)` proposed as `"b\nz"` ends as `"a\nz"` after Undo or Undo All. |
| DiffExamples.UndoEmptiedDocumentLosesText | src/main/java/com/system/demo/LLM/ModernDiffRenderer.java:111-149 | For `"a\n"` with the whole text proposed as `""`, the well-formed deletion finds no line in the empty document, so its original line is never shown; Undo and Undo All leave `""`. |
| DiffExamples.KeepAllCanLoseALine | src/main/java/com/system/demo/LLM/ModernDiffRenderer.java:600-617 | With a well-formed two-change diff, Keep All does not leave the proposal: `"a\nx\nb"` proposed as `"A\nx\nB"` ends as `"A\nb\nB"`. |
| DiffExamples.KeepPlaceSecond | src/main/java/com/system/demo/LLM/ModernDiffRenderer.java:118-131 | The second change is placed first, its original `b` above line 2 of the proposal, `B`. |
| DiffExamples.KeepPlaceFirst | src/main/java/com/system/demo/LLM/ModernDiffRenderer.java:118-131 | The first change then puts `a` above line 0, which shifts the second chunk's lines down by one. |
| DiffExamples.KeepRendered | src/main/java/com/system/demo/LLM/ModernDiffRenderer.java:108-134 | The rendered document and chunks of that session, written out. |
| DiffExamples.KeepSecondChunk | src/main/java/com/system/demo/LLM/ModernDiffRenderer.java:606-612 | Keeping the second chunk deletes its recorded line 2, which now holds the unchanged `x`. |
| DiffExamples.KeepFirstChunk | src/main/java/com/system/demo/LLM/ModernDiffRenderer.java:606-612 | Keeping the first chunk deletes line 0, the original `a`. |
| DiffExamples.KeepResolved | src/main/java/com/system/demo/LLM/ModernDiffRenderer.java:600-617 | Keep All of that session leaves the proposed `A`, the original `b` and `B`. |
| DiffExamples.MidLineReplaced | src/main/java/com/system/demo/LLM/ModernDiffRenderer.java:111-114 | The selection replaced gives `"Qb\nz"`, and it starts on line 0. |
| DiffExamples.MidLinePlaced | src/main/java/com/system/demo/LLM/ModernDiffRenderer.java:120-149 | The original `a` goes in above line 0. |
| DiffExamples.MidLineRendered | src/main/java/com/system/demo/LLM/ModernDiffRenderer.java:108-134 | Rendering that session gives `"a\nQb\nz"`, with the original shown on line 0 and the proposal recorded on line 1. |
| DiffExamples.MidLineResolved | src/main/java/com/system/demo/LLM/ModernDiffRenderer.java:350-358 | Undo, and Undo All, of that chunk both leave `"a\nz"`. |
| DiffExamples.MidLineUndone | src/main/java/com/system/demo/LLM/ModernDiffRenderer.java:350-358 | Undo deletes line 1, `Qb`, which also held the unselected `Q`. |
| DiffExamples.ExDeltas | src/main/java/com/system/demo/LLM/ModernDiffRenderer.java:83-85 | The two deltas of the example are what a diff library can return. |
| DiffExamples.ExPlaceInsert | src/main/java/com/system/demo/LLM/ModernDiffRenderer.java:125-131 | An insertion leaves the text alone, and its chunk shows no original lines. |
| DiffExamples.ExUndoChange | src/main/java/com/system/demo/LLM/ModernDiffRenderer.java:353-358 | Undoing the change deletes line 3, which holds `b` rather than `C`. |
| DiffExamples.ExUndoInsert | src/main/java/com/system/demo/LLM/ModernDiffRenderer.java:353-358 | Undoing the insertion deletes line 0. |
| DiffExamples.ExResult | src/main/java/com/system/demo/LLM/ModernDiffRenderer.java:651-668 | Rendering and then Undo All leave the lines `a`, `c` and the rest, without `b`. |
| CompletionCache.WithIncrementedUse | src/main/java/com/system/demo/LLM/CompletionCacheManager.java:57-59 | One more use; the same context, suggestion, key and creation time. |
| CompletionCache.LeastUsedIndex | src/main/java/com/system/demo/LLM/CompletionCacheManager.java:366-381 | The entry with the smallest use count; among equal counts the first in sequence order (see "## Left out"). |
| CompletionCache.LeastUsedKey | src/main/java/com/system/demo/LLM/CompletionCacheManager.java:369-377 | The min-search loop finds the key of that entry, and none for an empty map. |
| CompletionCache.EvictLeastUsed | src/main/java/com/system/demo/LLM/CompletionCacheManager.java:366-381 | An empty map stays empty. |
| CompletionCache.EvictRemovesLeastUsed | src/main/java/com/system/demo/LLM/CompletionCacheManager.java:366-381 | Eviction removes exactly the least-used entry and keeps the others in order, with keys still unique. |
| CompletionCache.CandidateScores | src/main/java/com/system/demo/LLM/CompletionCacheManager.java:303-312 | Each unexpired candidate is scored by similarity; an expired one is skipped. |
| CompletionCache.BestSoFar | src/main/java/com/system/demo/LLM/CompletionCacheManager.java:303-316 | The running best: the first candidate with the highest positive score, or none when every score is 0 or less. |
| CompletionCache.BestSoFarStep | src/main/java/com/system/demo/LLM/CompletionCacheManager.java:313-316 | A candidate replaces the best only with a strictly higher score. |
| CompletionCache.BestAbove | src/main/java/com/system/demo/LLM/CompletionCacheManager.java:297-323 | An answer exists exactly when some score is above 70. The answer is the first of the highest-scoring candidates. |
| CompletionCache.FuzzyAnswerEligible | src/main/java/com/system/demo/LLM/CompletionCacheManager.java:305-307 | An answering candidate has not expired. |
| CompletionCache.BestCandidate | src/main/java/com/system/demo/LLM/CompletionCacheManager.java:303-322 | The scoring loop, with the DP table, answers what `FuzzyMatch` describes. |
| CompletionCache.FileLookup | src/main/java/com/system/demo/LLM/CompletionCacheManager.java:254-268 | An answer needs the file in the cache and a method name; the file cache keeps its size. |
| CompletionCache.StoredFileCache | src/main/java/com/system/demo/LLM/CompletionCacheManager.java:273-281 | The stored file entry is touched at `now` and, when there is a method name, maps the method to the new entry. |
| CompletionCache.StoreFileLevelKeepsFile | src/main/java/com/system/demo/LLM/CompletionCacheManager.java:273-292 | The file just stored is never the one dropped and holds the new entry, with file keys unique. |
| CompletionCache.FileCacheCanExceedCap | src/main/java/com/system/demo/LLM/CompletionCacheManager.java:282-291 | With 20 files whose eldest is alive, a new file makes 21: the cap is not enforced. |
| CompletionCache.ExactHit | src/main/java/com/system/demo/LLM/CompletionCacheManager.java:107-108 | The exact entry answers exactly when it is present and unexpired. |
| CompletionCache.LiveEntries | src/main/java/com/system/demo/LLM/CompletionCacheManager.java:392-393 | A fuzzy list keeps exactly its unexpired entries. |
| CompletionCache.PruneLists | src/main/java/com/system/demo/LLM/CompletionCacheManager.java:390-394 | Every fuzzy list is pruned; keys and order are kept. |
| CompletionCache.Cleanup | src/main/java/com/system/demo/LLM/CompletionCacheManager.java:386-397 | Exactly the unexpired exact entries and the unexpired files stay. A fuzzy key stays exactly when it has a live entry, and then with exactly its live entries in order: every such key is kept, and every kept list is some key's live entries. No tier grows. |
| CompletionCache.CleanupKeepsWellFormed | src/main/java/com/system/demo/LLM/CompletionCacheManager.java:386-397 | Cleanup keeps the caches well formed. |
| CompletionCache.LookupByKey | src/main/java/com/system/demo/LLM/CompletionCacheManager.java:106-131 | The tiers are tried in order. A live exact hit answers and is replaced with one more use. Otherwise the file cache answers, then the fuzzy match, and on a full miss the caches are cleaned. |
| CompletionCache.LookupKeepsWellFormed | src/main/java/com/system/demo/LLM/CompletionCacheManager.java:101-132 | A lookup keeps unique keys and the caps. |
| CompletionCache.Store | src/main/java/com/system/demo/LLM/CompletionCacheManager.java:137-140 | A null context or a null or blank suggestion changes nothing. |
| CompletionCache.Lookup | src/main/java/com/system/demo/LLM/CompletionCacheManager.java:101-132 | `getCachedSuggestion`: nothing for a null context, else `LookupByKey` under the exact key. `LookupKeepsWellFormed` is its invariant. |
| CompletionCache.FuzzyLookup | src/main/java/com/system/demo/LLM/CompletionCacheManager.java:297-323 | The candidates under the context's fuzzy key, answered as `FuzzyMatch` says; nothing when the key is absent. `BestAbove` states the answer. |
| CompletionCache.StoreExact | src/main/java/com/system/demo/LLM/CompletionCacheManager.java:145-148 | Evict the least-used entry when 100 are stored, then put. `StoreExactBounded` states its cap and answer. |
| CompletionCache.StoreFuzzy | src/main/java/com/system/demo/LLM/CompletionCacheManager.java:153-165 | Append to the key's list, then past 50 keys remove `first`. `StoreFuzzyBounded` states its effect on every key. |
| CompletionCache.StoreByKeys | src/main/java/com/system/demo/LLM/CompletionCacheManager.java:142-165 | The new entry goes into all three tiers. `StoreByKeysKeepsWellFormed` states the result. |
| CompletionCache.StoreFileLevel | src/main/java/com/system/demo/LLM/CompletionCacheManager.java:273-292 | The file's entry is put, and past 20 files the eldest is dropped only when expired. `StoreFileLevelKeepsFile` and `FileCacheCanExceedCap` state the result. |
| CompletionCache.CanComeFirst | src/main/java/com/system/demo/LLM/CompletionCacheManager.java:159-165 | The keys the iterator can yield first once the new key is in: the new key or any present one. |
| CompletionCache.StoreExactBounded | src/main/java/com/system/demo/LLM/CompletionCacheManager.java:145-148 | The exact cache stays within 100 entries and answers for the new key. |
| CompletionCache.StoreFuzzyBounded | src/main/java/com/system/demo/LLM/CompletionCacheManager.java:154-165 | The fuzzy tier keeps unique keys and at most 50 of them. Past 50 exactly the key `first` leaves and every other key keeps its list; the stored key's list gains the entry at its end, unless that key was new at a full tier and is itself `first`, in which case it is gone. |
| CompletionCache.StoreKeepsWellFormed | src/main/java/com/system/demo/LLM/CompletionCacheManager.java:137-169 | Storing keeps the caches well formed. The exact cache then answers with the new entry, and the fuzzy list ends with it unless the new fuzzy key was itself the one evicted. |
| CompletionCache.CompletionCacheManager.constructor | src/main/java/com/system/demo/LLM/CompletionCacheManager.java:18-24 | All three tiers start empty. |
| CompletionCache.CompletionCacheManager.GetCachedSuggestion | src/main/java/com/system/demo/LLM/CompletionCacheManager.java:101-132 | Answers and updates the caches as `Lookup` describes. |
| CompletionCache.CompletionCacheManager.GetFromFileCache | src/main/java/com/system/demo/LLM/CompletionCacheManager.java:254-268 | Does what `FileLookup` says and touches only the file cache. |
| CompletionCache.CompletionCacheManager.GetFuzzyMatch | src/main/java/com/system/demo/LLM/CompletionCacheManager.java:297-323 | Answers as `FuzzyLookup` describes. |
| CompletionCache.CompletionCacheManager.CacheSuggestion | src/main/java/com/system/demo/LLM/CompletionCacheManager.java:137-169 | Leaves the caches as `Store` describes, where `first` is the fuzzy key the map's iterator yields first: any present key or the new one. |
| CompletionCache.CompletionCacheManager.AddFuzzyEntry | src/main/java/com/system/demo/LLM/CompletionCacheManager.java:154-165 | Appends to the key's list and, past 50 keys, removes `first`, the key the iterator yields first (possibly the new one); the other tiers are unchanged. |
| CompletionCache.CompletionCacheManager.EvictLeastUsedEntry | src/main/java/com/system/demo/LLM/CompletionCacheManager.java:366-381 | Evicts from the exact cache only. |
| CompletionCache.CompletionCacheManager.CacheToFileLevel | src/main/java/com/system/demo/LLM/CompletionCacheManager.java:273-292 | Updates the file cache only. |
| CompletionCache.CompletionCacheManager.CleanupExpiredEntries | src/main/java/com/system/demo/LLM/CompletionCacheManager.java:386-397 | Leaves the caches as `Cleanup` describes. |
| CompletionCache.CompletionCacheManager.ClearAll | src/main/java/com/system/demo/LLM/CompletionCacheManager.java:402-407 | Empties all three tiers. |
| CompletionCache.FuzzyMatch | src/main/java/com/system/demo/LLM/CompletionCacheManager.java:303-322 | The answer is the suggestion of the first highest-scoring unexpired candidate, and only when its score is above 70. |
| CompletionCache.BestAboveOfScan | src/main/java/com/system/demo/LLM/CompletionCacheManager.java:313-322 | The running best at the end of the scan answers exactly when its score is above 70. |
| CompletionCache.PruneListsKeys | src/main/java/com/system/demo/LLM/CompletionCacheManager.java:390-391 | Pruning the fuzzy lists keeps their keys unique. |
| CompletionCache.FileLookupKeepsUnique | src/main/java/com/system/demo/LLM/CompletionCacheManager.java:254-268 | Touching a file on a file-level hit keeps the file keys unique. |
| CompletionCache.LookupByKeyKeepsWellFormed | src/main/java/com/system/demo/LLM/CompletionCacheManager.java:106-131 | Every branch of the lookup keeps unique keys and the caps. |
| CompletionCache.StoreByKeysKeepsWellFormed | src/main/java/com/system/demo/LLM/CompletionCacheManager.java:145-165 | Storing under the two keys keeps the caches well formed. The exact cache answers with the new entry, and the fuzzy list ends with it unless the new fuzzy key was itself the one evicted. |
| CompletionText.StripLineCommentsClean | src/main/java/com/system/demo/LLM/CompletionCacheManager.java:245 | No `//` is left after line comments are removed. |
| CompletionText.StripLineCommentsNone | src/main/java/com/system/demo/LLM/CompletionCacheManager.java:245 | Text without `//` passes unchanged. |
| CompletionText.StripLineCommentsAt | src/main/java/com/system/demo/LLM/CompletionCacheManager.java:245 | A line comment goes up to its newline, and nothing before it is touched. |
| CompletionText.CommentClose | src/main/java/com/system/demo/LLM/CompletionCacheManager.java:246 | The match, when there is one, ends right after a `*/`. |
| CompletionText.StripBlockCommentsNone | src/main/java/com/system/demo/LLM/CompletionCacheManager.java:246 | Text without `/*` passes unchanged. |
| CompletionText.StripBlockCommentsAt | src/main/java/com/system/demo/LLM/CompletionCacheManager.java:246 | A one-line block comment goes from its opener to its first closer, and nothing before it is touched. |
| CompletionText.NormalizeCode | src/main/java/com/system/demo/LLM/CompletionCacheManager.java:241-249 | A null input gives `""`. The result is no longer than the input and trimmed. |
| CompletionText.TrailingCommentIgnored | src/main/java/com/system/demo/LLM/CompletionCacheManager.java:241-249 | A trailing line comment does not change the normalised code. |
| CompletionText.CodeFeatures | src/main/java/com/system/demo/LLM/CompletionCacheManager.java:222-236 | `for` is a feature exactly when the code contains `"for ("`. `func` is one exactly when `MatchesCallPattern` holds: a word character, a run of `\s` (line breaks included) and `(`, with no line terminator before the word character or after the `(`. There are at most seven features. |
| CompletionText.MatchesCallPattern | src/main/java/com/system/demo/LLM/CompletionCacheManager.java:233 | The whole-string match of `.*\w\s*\(.*`: `.` cannot cover a line terminator, while `\s` can. |
| CompletionText.CallFeatureAcrossLineBreak | src/main/java/com/system/demo/LLM/CompletionCacheManager.java:233 | `"f\n("` has the `func` feature: the gap before `(` may hold a line break. |
| CompletionText.TerminatorAfterLastParen | src/main/java/com/system/demo/LLM/CompletionCacheManager.java:233 | A line terminator after the last `(` means no `func` feature. |
| CompletionText.ExtractCodeFeatures | src/main/java/com/system/demo/LLM/CompletionCacheManager.java:222-236 | `""` for null, else the features joined with `_`. |
| CompletionText.GenerateCacheKey | src/main/java/com/system/demo/LLM/CompletionCacheManager.java:174-198 | The key starts with the file name and `:`. |
| CompletionText.CacheKeyByNormalForm | src/main/java/com/system/demo/LLM/CompletionCacheManager.java:174-198 | Contexts whose code normalises alike, with the same file, method and variables, share the key. |
| CompletionText.GenerateFuzzyKey | src/main/java/com/system/demo/LLM/CompletionCacheManager.java:203-217 | The fuzzy key starts with the file name and `:`. |
| CompletionText.Lcs | src/main/java/com/system/demo/LLM/CompletionCacheManager.java:344-361 | The LCS length is at most each length. |
| CompletionText.LcsStep | src/main/java/com/system/demo/LLM/CompletionCacheManager.java:351-357 | The recurrence the DP table fills in. |
| CompletionText.LcsSymmetric | src/main/java/com/system/demo/LLM/CompletionCacheManager.java:344-361 | The LCS does not depend on the order of its arguments. |
| CompletionText.LcsSelf | src/main/java/com/system/demo/LLM/CompletionCacheManager.java:344-361 | A string's LCS with itself is its length. |
| CompletionText.Clip | src/main/java/com/system/demo/LLM/CompletionCacheManager.java:345-346 | Only the first 100 characters are looked at. |
| CompletionText.LongestCommonSubsequence | src/main/java/com/system/demo/LLM/CompletionCacheManager.java:344-361 | The nested loops compute the LCS of the two clipped strings. |
| CompletionText.Score | src/main/java/com/system/demo/LLM/CompletionCacheManager.java:333-338 | The score is in [0, 100] and is 0 for two empty texts. |
| CompletionText.Similarity | src/main/java/com/system/demo/LLM/CompletionCacheManager.java:328-339 | The score is in [0, 100]; it is 0 when either input is null or both normalise to empty. |
| CompletionText.CalculateSimilarity | src/main/java/com/system/demo/LLM/CompletionCacheManager.java:328-339 | The method computes `Similarity`. |
| CompletionText.SimilaritySymmetric | src/main/java/com/system/demo/LLM/CompletionCacheManager.java:328-339 | Similarity is symmetric. |
| CompletionText.SimilarityOfIdentical | src/main/java/com/system/demo/LLM/CompletionCacheManager.java:328-361 | Identical code scores 100 up to 100 normalised characters. From 143 on it scores 69 or less, so it can never be a fuzzy match. |
| CompletionText.StripLineComments | src/main/java/com/system/demo/LLM/CompletionCacheManager.java:245 | Removing line comments never lengthens the text. |
| CompletionText.StripLineCommentsFirst | src/main/java/com/system/demo/LLM/CompletionCacheManager.java:245 | The result starts with the `'\n'` that ends a leading comment, or else with the text's own first character. |
| CompletionText.StripLeadingLineComment | src/main/java/com/system/demo/LLM/CompletionCacheManager.java:245 | A comment at the very start goes up to its newline. |
| CompletionText.StripBlockComments | src/main/java/com/system/demo/LLM/CompletionCacheManager.java:246 | Removing block comments never lengthens the text. |
| CompletionText.CommentCloseAfter | src/main/java/com/system/demo/LLM/CompletionCacheManager.java:246 | The lazy match of a one-line body without a closer ends right after the `*/` that follows it. |
| CompletionText.StripLeadingBlockComment | src/main/java/com/system/demo/LLM/CompletionCacheManager.java:246 | A one-line block comment at the very start goes up to its first closer. |
| CompletionText.JoinWith | src/main/java/com/system/demo/LLM/CompletionCacheManager.java:235 | No features join to `""`, and a single feature joins to itself. |
| CompletionText.ScoreSymmetric | src/main/java/com/system/demo/LLM/CompletionCacheManager.java:333-338 | The score of two normal forms does not depend on their order. |
| CompletionText.WindowScore | src/main/java/com/system/demo/LLM/CompletionCacheManager.java:336-338 | A text scored against itself: 100 up to 100 characters, at most 69 from 143 characters. |
| ContextCache.TouchKeepsPairs | src/main/java/com/system/demo/utils/ContextCacheManager.java:129-136 | A read reorders the access-ordered map but keeps exactly its pairs. |
| ContextCache.PutLruGet | src/main/java/com/system/demo/utils/ContextCacheManager.java:26-44 | A put keeps the map within its cap and answers for the new key. Only a new key at a full map evicts, and then the eldest pair. |
| ContextCache.HotPutDemotes | src/main/java/com/system/demo/utils/ContextCacheManager.java:28-35 | A hot put keeps the tiers well formed with the key hot. The demoted eldest entry lands in the cold tier. |
| ContextCache.Store | src/main/java/com/system/demo/utils/ContextCacheManager.java:111-113 | A null or blank suggestion changes nothing. |
| ContextCache.StoreGoesCold | src/main/java/com/system/demo/utils/ContextCacheManager.java:110-124 | A put goes into the cold tier only: the hot tier and the counts are unchanged, and the cold tier answers with the entry. |
| ContextCache.AccessRecordedCounts | src/main/java/com/system/demo/utils/ContextCacheManager.java:153-155 | `recordAccess` adds exactly one to the key's count and changes no other. |
| ContextCache.PromotedOneTier | src/main/java/com/system/demo/utils/ContextCacheManager.java:160-173 | From two accesses on, the entry is hot and no longer cold; below that nothing changes. |
| ContextCache.MatchesUpTo | src/main/java/com/system/demo/utils/ContextCacheManager.java:213-218 | There are at most `n` positional matches. |
| ContextCache.IsSemanticallyClose | src/main/java/com/system/demo/utils/ContextCacheManager.java:203-223 | The counting loop computes `SemanticallyClose`: false for null or an empty shorter hash, else `5 * matches >= 4 * longer length`. |
| ContextCache.MatchesUpToSymmetric | src/main/java/com/system/demo/utils/ContextCacheManager.java:213-218 | The count of matches is symmetric. |
| ContextCache.SemanticallyCloseSymmetric | src/main/java/com/system/demo/utils/ContextCacheManager.java:203-223 | Closeness is symmetric. |
| ContextCache.SemanticallyCloseSelf | src/main/java/com/system/demo/utils/ContextCacheManager.java:203-223 | A hash is close to itself exactly when it is non-empty. |
| ContextCache.SemanticallyCloseLengths | src/main/java/com/system/demo/utils/ContextCacheManager.java:203-223 | Close hashes differ in length by at most a fifth of the longer one. |
| ContextCache.FirstClose | src/main/java/com/system/demo/utils/ContextCacheManager.java:184-194 | The answer is the first close entry in iteration order, and none exactly when no entry is close. |
| ContextCache.LookupKeepsWellFormed | src/main/java/com/system/demo/utils/ContextCacheManager.java:81-105 | `get` keeps the tiers well formed. |
| ContextCache.LookupHotFirst | src/main/java/com/system/demo/utils/ContextCacheManager.java:84-88 | A live hot entry answers and its access is counted; the cold tier is untouched. |
| ContextCache.LookupColdHit | src/main/java/com/system/demo/utils/ContextCacheManager.java:90-96 | A live cold entry answers when the hot one does not. Its access is counted, and from the second access on it lives only in the hot tier. |
| ContextCache.LookupMissKeepsEntries | src/main/java/com/system/demo/utils/ContextCacheManager.java:81-105 | With no live entry, expired entries are skipped but not removed: both tiers and the counts keep their contents. An answer can then only come from a hot entry close to the semantic key. |
| ContextCache.HotEntryShadowsPut | src/main/java/com/system/demo/utils/ContextCacheManager.java:110-124 | A put does not reach a key already hot: the hot entry still answers. |
| ContextCache.CleanedKeepsLive | src/main/java/com/system/demo/utils/ContextCacheManager.java:228-238 | `cleanExpired` keeps exactly the unexpired pairs of each tier. |
| ContextCache.Touch | src/main/java/com/system/demo/utils/ContextCacheManager.java:129-148 | `get` on an access-ordered map: a present key moves last. `TouchKeepsPairs` states that the pairs are kept. |
| ContextCache.PutLru | src/main/java/com/system/demo/utils/ContextCacheManager.java:26-44 | `put` on an access-ordered map with `removeEldestEntry` at the cap, returning the evicted eldest pair. `PutLruGet` states its effect. |
| ContextCache.HotPut | src/main/java/com/system/demo/utils/ContextCacheManager.java:26-36 | A hot put whose evicted eldest entry is demoted into the cold tier. `HotPutDemotes` states its effect. |
| ContextCache.ColdPut | src/main/java/com/system/demo/utils/ContextCacheManager.java:39-44 | A cold put, the least recently accessed entry leaving past 200. |
| ContextCache.Promoted | src/main/java/com/system/demo/utils/ContextCacheManager.java:160-173 | From two accesses on, a hot put and a cold removal. `PromotedOneTier` states its effect. |
| ContextCache.SemanticallyClose | src/main/java/com/system/demo/utils/ContextCacheManager.java:203-223 | False for a null hash or an empty shorter one; otherwise `5 * matches >= 4 * longer length`, the source's ratio test without division. `SemanticallyCloseSymmetric`, `SemanticallyCloseSelf` and `SemanticallyCloseLengths` state its properties. |
| ContextCache.FindSimilar | src/main/java/com/system/demo/utils/ContextCacheManager.java:179-197 | Nothing for a null or empty key, else `FirstClose` over the hot tier. |
| ContextCache.Lookup | src/main/java/com/system/demo/utils/ContextCacheManager.java:81-105 | `get` branch by branch: live hot entry, live cold entry with promotion, then the semantic scan. `LookupHotFirst`, `LookupColdHit` and `LookupMissKeepsEntries` state its properties. |
| ContextCache.Cleaned | src/main/java/com/system/demo/utils/ContextCacheManager.java:228-238 | Both tiers filtered to their unexpired entries. `CleanedKeepsLive` states its effect. |
| ContextCache.ContextCacheManager.constructor | src/main/java/com/system/demo/utils/ContextCacheManager.java:26-47 | Both tiers and the counts start empty. |
| ContextCache.ContextCacheManager.Get | src/main/java/com/system/demo/utils/ContextCacheManager.java:81-105 | Answers and updates the state as `Lookup` describes. |
| ContextCache.ContextCacheManager.Put | src/main/java/com/system/demo/utils/ContextCacheManager.java:110-124 | Leaves the state that `Store` describes. |
| ContextCache.ContextCacheManager.GetFromHotCache | src/main/java/com/system/demo/utils/ContextCacheManager.java:129-136 | Returns the hot entry and moves the key last. |
| ContextCache.ContextCacheManager.GetFromColdCache | src/main/java/com/system/demo/utils/ContextCacheManager.java:141-148 | Returns the cold entry and moves the key last. |
| ContextCache.ContextCacheManager.RecordAccess | src/main/java/com/system/demo/utils/ContextCacheManager.java:153-155 | Counts the access. |
| ContextCache.ContextCacheManager.PromoteToHotIfNeeded | src/main/java/com/system/demo/utils/ContextCacheManager.java:160-173 | Leaves the state that `Promoted` describes. |
| ContextCache.ContextCacheManager.PutHot | src/main/java/com/system/demo/utils/ContextCacheManager.java:28-35 | A hot put with demotion. |
| ContextCache.ContextCacheManager.PutCold | src/main/java/com/system/demo/utils/ContextCacheManager.java:41-43 | A cold put with eviction past 200. |
| ContextCache.ContextCacheManager.FindSimilarInCache | src/main/java/com/system/demo/utils/ContextCacheManager.java:179-197 | Scans the hot tier only. |
| ContextCache.ContextCacheManager.CleanExpired | src/main/java/com/system/demo/utils/ContextCacheManager.java:228-238 | Leaves the state that `Cleaned` describes. |
| ContextCache.ContextCacheManager.Clear | src/main/java/com/system/demo/utils/ContextCacheManager.java:262-273 | Empties both tiers and the counts. |
| ContextCache.MatchesUpToSelf | src/main/java/com/system/demo/utils/ContextCacheManager.java:213-218 | A hash matches itself at every compared position. |
| TypedAction.LineStartBefore | src/main/java/com/system/demo/LLM/LLMTypedActionHandler.java:128 | The start of the caret's line: at or before the caret, after a `'\n'` or at 0, with no `'\n'` between it and the caret. |
| TypedAction.ShouldTriggerAtLineStart | src/main/java/com/system/demo/LLM/LLMTypedActionHandler.java:171-188 | False at offset 0; otherwise the cue (ending in `{` or `;`, or containing `if`, `for`, `while` or `return`) in the trimmed text from the caret's own line start. `LineStartRuleNeverFires` states that it never fires where asked. |
| TypedAction.ShouldTriggerAfterSpace | src/main/java/com/system/demo/LLM/LLMTypedActionHandler.java:193-206 | The trimmed text before the caret ends with one of the nine keywords. `TriggerOnSpace` states where it decides. |
| TypedAction.ShouldTriggerAfterNewline | src/main/java/com/system/demo/LLM/LLMTypedActionHandler.java:211-229 | The trimmed line before the newline is non-empty and ends in `{` or `;` or contains `.`, `if`, `for` or `while`. |
| TypedAction.LineEndAfter | src/main/java/com/system/demo/LLM/LLMTypedActionHandler.java:129-130 | The end of the caret's line: the next `'\n'` or the end, with no `'\n'` before it. |
| TypedAction.ShouldTriggerCompletion | src/main/java/com/system/demo/LLM/LLMTypedActionHandler.java:121-166 | Never triggers at offset 0. |
| TypedAction.LineStartRuleDecides | src/main/java/com/system/demo/LLM/LLMTypedActionHandler.java:136-138 | On a blank line or at a line start the line-start rule alone decides, whatever was typed. |
| TypedAction.TriggerOnPunctuation | src/main/java/com/system/demo/LLM/LLMTypedActionHandler.java:141-153 | Otherwise `;` `}` `{` `.` `(` `=` always trigger. |
| TypedAction.TriggerOnSpace | src/main/java/com/system/demo/LLM/LLMTypedActionHandler.java:146-148 | Otherwise a space triggers exactly when the trimmed text before the caret ends with one of the keywords. |
| TypedAction.TriggerOnLetterOrDigit | src/main/java/com/system/demo/LLM/LLMTypedActionHandler.java:156-158 | Otherwise a letter or digit triggers exactly when the trimmed text before the caret is non-empty. |
| TypedAction.NoTriggerOtherwise | src/main/java/com/system/demo/LLM/LLMTypedActionHandler.java:160-165 | Otherwise no other character but a newline triggers. |
| TypedAction.LineStartRuleNeverFires | src/main/java/com/system/demo/LLM/LLMTypedActionHandler.java:171-188 | As written, the line-start rule is false wherever it is asked, and so is the completion decision. |
| TypedAction.LineStartCounterexample | src/main/java/com/system/demo/LLM/LLMTypedActionHandler.java:136-138 | For `"{\n"` with the caret after the newline, the rule as written stays silent and the intended one fires. |
| TypedAction.ShouldTriggerCompletionIntended | src/main/java/com/system/demo/LLM/LLMTypedActionHandler.java:171-188 | With the previous line as the line-start rule reads it: false at offset 0 and unchanged away from line starts. |
| TypedAction.PreviousLineOf | src/main/java/com/system/demo/LLM/LLMTypedActionHandler.java:175-179 | On a blank line after line `p`, the previous line is `p`. |
| TypedAction.IntendedTriggersAfterCue | src/main/java/com/system/demo/LLM/LLMTypedActionHandler.java:182-187 | On a blank line after `p`, the intended rule triggers exactly when trimmed `p` ends with `{` or `;` or contains `if`, `for`, `while` or `return`. |
| TypedAction.StripFences | src/main/java/com/system/demo/LLM/LLMTypedActionHandler.java:287 | Removing fences never lengthens the text. |
| TypedAction.StripFencesPlain | src/main/java/com/system/demo/LLM/LLMTypedActionHandler.java:287 | Text without a backtick passes unchanged. |
| TypedAction.UnfenceWrapped | src/main/java/com/system/demo/LLM/LLMTypedActionHandler.java:286-289 | A code block in a fence with a language tag comes back as its trimmed body. |
| TypedAction.DropEcho | src/main/java/com/system/demo/LLM/LLMTypedActionHandler.java:292-295 | A suggestion starting with the trimmed text before the cursor loses it and is trimmed again; otherwise it is unchanged. |
| TypedAction.DropEchoOfRepeat | src/main/java/com/system/demo/LLM/LLMTypedActionHandler.java:292-295 | A suggestion that repeats the typed text keeps only what follows it, trimmed. |
| TypedAction.Truncate | src/main/java/com/system/demo/LLM/LLMTypedActionHandler.java:298-307 | Text within the limit is unchanged. Past it, the result is a prefix of at most `maxLength` characters. It is cut at the last `'\n'` at or before the limit when that lies beyond half the limit, else cut hard at the limit. |
| TypedAction.CleanSuggestion | src/main/java/com/system/demo/LLM/LLMTypedActionHandler.java:283-310 | Null gives `""`. Otherwise fences are removed, the text trimmed, the echo dropped and the length limited. The result never exceeds the limit. |
| TypedAction.LimitLength | src/main/java/com/system/demo/LLM/LLMTypedActionHandler.java:298-307 | The method computes `Truncate`. |
| TypedAction.PrecedingExcerpt | src/main/java/com/system/demo/LLM/LLMTypedActionHandler.java:250-258 | Null gives nothing. Up to 300 characters are kept whole. Longer code gives `"..."` and its last 300 characters. |
| TypedAction.WithCursor | src/main/java/com/system/demo/LLM/LLMTypedActionHandler.java:261-265 | The line with `'|'` at the cursor: one longer, and the line again once the bar is cut out. |
| TypedAction.PromptCodeSections | src/main/java/com/system/demo/LLM/LLMTypedActionHandler.java:250-267 | The code sections of the prompt are appended in order: the preceding code, the current line with the cursor, and the last character. |
| TypedAction.TriggerWith | src/main/java/com/system/demo/LLM/LLMTypedActionHandler.java:121-166 | The rules in their order, with the line-start answer as a parameter: never at offset 0. |
| TypedAction.NoCueInBlank | src/main/java/com/system/demo/LLM/LLMTypedActionHandler.java:182-187 | An empty line holds no cue for the line-start rule. |
| TypedAction.PreviousLine | src/main/java/com/system/demo/LLM/LLMTypedActionHandler.java:175-179 | The line above the caret's line holds no `'\n'`. |
| TypedAction.BlankLineAfter | src/main/java/com/system/demo/LLM/LLMTypedActionHandler.java:128-138 | At the end of a blank line after line `p`, the line starts right after `p`'s newline and the line-start rule is asked. |
| TypedAction.LetterRunEnd | src/main/java/com/system/demo/LLM/LLMTypedActionHandler.java:287 | The `[a-zA-Z]*` run after the backticks: letters only, and the character after it is not one. |
| TypedAction.FenceEnd | src/main/java/com/system/demo/LLM/LLMTypedActionHandler.java:287 | A fence match takes at least the three backticks and stays within the text. |
| TypedAction.RemoveAll | src/main/java/com/system/demo/LLM/LLMTypedActionHandler.java:288 | Removing a literal never lengthens the text. |
| TypedAction.RemoveAllPlain | src/main/java/com/system/demo/LLM/LLMTypedActionHandler.java:288 | Text without a backtick keeps its characters when the fences are removed. |
| EditorContext.GetCacheKey | src/main/java/com/system/demo/utils/EditorContextUtils.java:72-76 | The key starts with `fileName_method_` and ends with `_` and the hash of the preceding code (0 for null). |
| EditorContext.CacheKeyNullLikeEmpty | src/main/java/com/system/demo/utils/EditorContextUtils.java:72-76 | A null preceding code and an empty one give the same key. |
| EditorContext.LeadingIndent | src/main/java/com/system/demo/utils/EditorContextUtils.java:292-300 | The width is at most 4 per character. |
| EditorContext.IndentRunAppend | src/main/java/com/system/demo/utils/EditorContextUtils.java:292-300 | A run of spaces and tabs adds its width (1 per space, 4 per tab) to what follows. |
| EditorContext.IndentStops | src/main/java/com/system/demo/utils/EditorContextUtils.java:296-297 | Counting stops at the first character that is neither a space nor a tab. |
| EditorContext.SpacesIndent | src/main/java/com/system/demo/utils/EditorContextUtils.java:292-300 | An all-space string is as wide as it is long. |
| EditorContext.CountLeadingSpaces | src/main/java/com/system/demo/utils/EditorContextUtils.java:292-300 | The counter loop computes `LeadingIndent`. |
| EditorContext.OffsetInOwnLine | src/main/java/com/system/demo/utils/EditorContextUtils.java:269-274 | The caret lies between its line's start and end. |
| EditorContext.ExtractTextContext | src/main/java/com/system/demo/utils/EditorContextUtils.java:265-287 | `currentLine` is the caret's line and `cursorPositionInLine` is the offset minus the line start. `indentLevel` is the indent width before the caret divided by 4. `precedingCode` is the trimmed text from 300 characters before the line start up to the caret. `followingCode` is the trimmed text from the caret up to 150 characters past the line end. |
| EditorContext.Tokens | src/main/java/com/system/demo/utils/EditorContextUtils.java:249 | Splitting a trimmed line gives only non-empty, whitespace-free tokens. |
| EditorContext.TokenEnd | src/main/java/com/system/demo/utils/EditorContextUtils.java:249 | A token ends at the next whitespace or at the end. |
| EditorContext.NameInTokens | src/main/java/com/system/demo/utils/EditorContextUtils.java:250-256 | The answer is the non-empty word prefix of a token that follows a keyword token; none means every such prefix is empty. When the first keyword token followed by a token with a non-empty word prefix is at index `i`, the answer is that prefix. |
| EditorContext.NameInLines | src/main/java/com/system/demo/utils/EditorContextUtils.java:247-258 | The answer comes from some line and none means no line gives a name. The answer is the name of the first line that gives one. |
| EditorContext.ExtractNameFromDefinition | src/main/java/com/system/demo/utils/EditorContextUtils.java:242-260 | A name found is non-empty and made of word characters. None means no line gives a name; otherwise the name is that of the first line giving one, taken from its first keyword token followed by a word. |
| EditorContext.FirstName | src/main/java/com/system/demo/utils/EditorContextUtils.java:247-258 | The first present name of a list: it is in the list, none means every entry is none, and it is the entry at the first present index. |
| EditorContext.IsValid | src/main/java/com/system/demo/utils/EditorContextUtils.java:41-43 | `ContextCache.isValid`: younger than 5000 ms and from the current document version. |
| EditorContext.ContextKey | src/main/java/com/system/demo/utils/EditorContextUtils.java:95 | The file name, offset and modification stamp joined with `_`. |
| EditorContext.StoredContexts | src/main/java/com/system/demo/utils/EditorContextUtils.java:20-25 | A put on the insertion-ordered map whose `removeEldestEntry` is `size() > 50`. |
| EditorContext.StoredContextsEvictsEldest | src/main/java/com/system/demo/utils/EditorContextUtils.java:20-25 | The key answers with the new entry and keys stay unique within 50. Another key keeps its entry, except the eldest, which leaves exactly when a new key arrives at 50. |
| EditorContext.ContextCacheStore.constructor | src/main/java/com/system/demo/utils/EditorContextUtils.java:20-25 | The cache starts empty. |
| EditorContext.ContextCacheStore.Lookup | src/main/java/com/system/demo/utils/EditorContextUtils.java:95-101 | A cached context answers exactly when it is present and valid: younger than 5000 ms and of the current version. |
| EditorContext.ContextCacheStore.Store | src/main/java/com/system/demo/utils/EditorContextUtils.java:20-25 | The entries become `StoredContexts` of the old ones: the key maps to the new entry, in place or appended, and past 50 the eldest pair leaves. Keys stay unique and the cache within 50. |
| EditorContext.ContextCacheStore.Clear | src/main/java/com/system/demo/utils/EditorContextUtils.java:331-333 | Empties the cache. |
| EditorContext.GetFullFileText | src/main/java/com/system/demo/utils/EditorContextUtils.java:303-305 | `""` without a file, else its text. |
| EditorContext.GetFileName | src/main/java/com/system/demo/utils/EditorContextUtils.java:324-326 | `"UnknownFile"` without a file, else its name. |
| EditorContext.BoundaryNotPast | src/main/java/com/system/demo/utils/EditorContextUtils.java:269-270 | A line start with as many newlines before it as the caret is not after the caret. |
| EditorContext.EndNotBefore | src/main/java/com/system/demo/utils/EditorContextUtils.java:269-271 | A line end with as many newlines before it as the caret is not before the caret. |
| EditorContext.FirstToken | src/main/java/com/system/demo/utils/EditorContextUtils.java:248 | The run up to the first whitespace of a trimmed line is a token. |
| EditSelection.IsSuggestionIdentical | src/main/java/com/system/demo/LLM/EditSelectionAction.java:111-119 | Identical exactly when both texts are present and have the same normal form; never for null. |
| EditSelection.IdenticalReflexive | src/main/java/com/system/demo/LLM/EditSelectionAction.java:111-119 | Every text is identical to itself. |
| EditSelection.Normalize | src/main/java/com/system/demo/LLM/EditSelectionAction.java:115-116 | Whitespace runs become one space, then trimmed. `IdenticalIgnoresRunLength` and `NormalizeKeepsFirst` state its properties. |
| EditSelection.IdenticalSymmetric | src/main/java/com/system/demo/LLM/EditSelectionAction.java:111-119 | The comparison is symmetric. |
| EditSelection.IdenticalIgnoresRunLength | src/main/java/com/system/demo/LLM/EditSelectionAction.java:115-116 | Only the presence of whitespace between two pieces matters, not its amount or kind. |
| EditSelection.StripTaggedFences | src/main/java/com/system/demo/LLM/EditSelectionAction.java:149 | The fence replacement never lengthens the text. |
| EditSelection.StrippedIsFenceFree | src/main/java/com/system/demo/LLM/EditSelectionAction.java:149-151 | No three backticks survive the tagged-fence replacement, so the two replacements after it find nothing. |
| EditSelection.RemoveFenceOfFenceFree | src/main/java/com/system/demo/LLM/EditSelectionAction.java:151 | Removing `` ``` `` from fence-free text changes nothing. |
| EditSelection.CodeWordOnLine | src/main/java/com/system/demo/LLM/EditSelectionAction.java:156 | The lazy match stops at the first `代码` with no line terminator before it. |
| EditSelection.RemoveHereIsLeadIn | src/main/java/com/system/demo/LLM/EditSelectionAction.java:156 | The replacement never lengthens the text. |
| EditSelection.CleanSuggestion | src/main/java/com/system/demo/LLM/EditSelectionAction.java:140-179 | The replacements computed one by one give `Cleaned`. |
| EditSelection.CleanedIsTrimmed | src/main/java/com/system/demo/LLM/EditSelectionAction.java:159-175 | The result is always trimmed. |
| EditSelection.CleanedFencedBlock | src/main/java/com/system/demo/LLM/EditSelectionAction.java:149-159 | A code block in a tagged fence cleans to its trimmed body. |
| EditSelection.CleanedEmptyIffBlank | src/main/java/com/system/demo/LLM/EditSelectionAction.java:140-179 | The result is `""` exactly for a null, empty or blank reply. |
| EditSelection.LooksLikeCode | src/main/java/com/system/demo/LLM/EditSelectionAction.java:170 | The whole-string match of the fallback test: one line that opens with a code character. |
| EditSelection.Cleaned | src/main/java/com/system/demo/LLM/EditSelectionAction.java:140-179 | `cleanSuggestion` branch by branch. `CleanedIsTrimmed`, `CleanedFencedBlock` and `CleanedEmptyIffBlank` state its properties. |
| EditSelection.Decide | src/main/java/com/system/demo/LLM/EditSelectionAction.java:72-105 | Once there is a selection, the reply leads to an error, the no-change prompt, the identical message or the diff. |
| EditSelection.WhitespaceEditShowsNoDiff | src/main/java/com/system/demo/LLM/EditSelectionAction.java:93-96 | A reply that only changes whitespace runs leads to the identical message. |
| EditSelection.DiffEmptiesSelectionIffBlank | src/main/java/com/system/demo/LLM/EditSelectionAction.java:93-104 | When a diff is shown, it proposes an empty selection exactly when the reply is blank. |
| EditSelection.FencedEchoShowsEmptyDiff | src/main/java/com/system/demo/LLM/EditSelectionAction.java:93-104 | The selection `"x"` echoed in a fence is not identical, and the diff then shows `"x"` against `"x"`. |
| EditSelection.EditSelectionAction.constructor | src/main/java/com/system/demo/LLM/EditSelectionAction.java:26-28 | The remembered selection starts at 0 with no editor. |
| EditSelection.EditSelectionAction.ActionPerformed | src/main/java/com/system/demo/LLM/EditSelectionAction.java:31-107 | Without editor, file or project nothing happens, and without a selection only a warning. Otherwise the selection and editor are remembered and the reply is decided on. |
| EditSelection.DropTrailingEmpty | src/main/java/com/system/demo/LLM/EditSelectionAction.java:193-194 | Only trailing empty strings are dropped, and the last one kept is non-empty. |
| EditSelection.SplitLines | src/main/java/com/system/demo/LLM/EditSelectionAction.java:193-194 | The lines hold no `'\n'`; text without one is a single line. |
| EditSelection.SplitLinesDropsTrailingNewline | src/main/java/com/system/demo/LLM/EditSelectionAction.java:193-194 | One more trailing `'\n'` gives the same lines. |
| EditSelection.SplitLinesRejoin | src/main/java/com/system/demo/LLM/EditSelectionAction.java:193-194 | The lines joined back are the text up to a trailing run of `'\n'`. |
| EditSelection.AfterFence | src/main/java/com/system/demo/LLM/EditSelectionAction.java:149 | One match of the tagged-fence pattern consumes at least the three backticks. |
| EditSelection.FenceStart | src/main/java/com/system/demo/LLM/EditSelectionAction.java:149 | The tagged-fence pattern matches at a position exactly when three backticks stand there. |
| EditSelection.TaggedOpening | src/main/java/com/system/demo/LLM/EditSelectionAction.java:149 | An opening fence with a language tag and a newline is consumed up to the first non-space character after it. |
| EditSelection.StripFencedBlock | src/main/java/com/system/demo/LLM/EditSelectionAction.java:149 | A tagged fenced block comes out as its body. |
| EditSelection.StripTaggedFencesPlain | src/main/java/com/system/demo/LLM/EditSelectionAction.java:149 | Text without a backtick passes the fence replacement unchanged. |
| EditSelection.AfterLeadIn | src/main/java/com/system/demo/LLM/EditSelectionAction.java:154-155 | The optional colon and the whitespace taken after a lead-in never lengthen the text. |
| EditSelection.RemoveLeadIn | src/main/java/com/system/demo/LLM/EditSelectionAction.java:154-155 | Removing a lead-in phrase never lengthens the text. |
| EditSelection.RemoveLeadInAbsent | src/main/java/com/system/demo/LLM/EditSelectionAction.java:154-155 | Text without the phrase's first letter is unchanged. |
| EditSelection.RemoveHereIsAbsent | src/main/java/com/system/demo/LLM/EditSelectionAction.java:156 | Text without the lead-in's first character is unchanged. |
| EditSelection.FencedEchoNotIdentical | src/main/java/com/system/demo/LLM/EditSelectionAction.java:111-119 | `"x"` and `"x"` in a fence are not identical. |
| EditSelection.FencedEchoCleaned | src/main/java/com/system/demo/LLM/EditSelectionAction.java:140-179 | `"x"` in a fence cleans to `"x"`. |
| EditSelection.JoinNLOfJoin | src/main/java/com/system/demo/LLM/EditSelectionAction.java:193-194 | Lines each followed by `'\n'` are the joined lines and one more `'\n'`. |
| EditSelection.RejoinWithEmptyLines | src/main/java/com/system/demo/LLM/EditSelectionAction.java:193-194 | Lines followed by empty ones join to the lines' text and then only `'\n'`s. |
| DocumentListener.Context | src/main/java/com/system/demo/LLM/LLMDocumentListener.java:61-68 | The context is the text before the caret, clipped to its last `maxContextLength` characters. |
| DocumentListener.ContextBounded | src/main/java/com/system/demo/LLM/LLMDocumentListener.java:61-68 | It is never longer than the setting nor than the text before the caret. |
| DocumentListener.ShouldTriggerAsWritten | src/main/java/com/system/demo/LLM/LLMDocumentListener.java:137-146 | False at offset 0. It throws exactly when the offset exceeds the context's length. |
| DocumentListener.AsWrittenThrowsIffClipped | src/main/java/com/system/demo/LLM/LLMDocumentListener.java:63-68 | With the caret in the document, the check as written throws exactly when the context was clipped. |
| DocumentListener.AsWrittenThrowsExample | src/main/java/com/system/demo/LLM/LLMDocumentListener.java:141 | For `"ab "` with the caret at 3 and a context of 1, the check as written throws. |
| DocumentListener.ShouldTriggerReadsCharBeforeCaret | src/main/java/com/system/demo/LLM/LLMDocumentListener.java:141-145 | The corrected check triggers exactly when the character just before the caret is a trigger character. |
| DocumentListener.ShouldTriggerAgreesWhenUnclipped | src/main/java/com/system/demo/LLM/LLMDocumentListener.java:137-146 | Wherever the check as written does not throw, the corrected one agrees with it. |
| DocumentListener.NatToStringInjective | src/main/java/com/system/demo/LLM/LLMDocumentListener.java:76 | Decimal notation is one-to-one. |
| DocumentListener.CacheKeyDeterminesOffset | src/main/java/com/system/demo/LLM/LLMDocumentListener.java:76 | Equal cache keys mean equal offsets. |
| DocumentListener.CacheKeyCollision | src/main/java/com/system/demo/LLM/LLMDocumentListener.java:76 | `"Aa"` and `"BB"` at the same offset share a key. |
| DocumentListener.SuggestionToShow | src/main/java/com/system/demo/LLM/LLMDocumentListener.java:118-123 | Nothing for a null or blank reply. Otherwise a prefix of the trimmed reply, of length the smaller of its length and the limit. |
| DocumentListener.QuietOutcomes | src/main/java/com/system/demo/LLM/LLMDocumentListener.java:31-52 | Switched off, without a project or within the debounce delay, nothing happens and the cache is not read. |
| DocumentListener.SecondEventDebounced | src/main/java/com/system/demo/LLM/LLMDocumentListener.java:47-52 | After an event passes the debounce, one sooner than the delay is ignored. |
| DocumentListener.RequestIsUnique | src/main/java/com/system/demo/LLM/LLMDocumentListener.java:87-106 | A request goes out only when no unfinished one has its key, and it is then the only one pending. |
| DocumentListener.CacheHitShortCircuits | src/main/java/com/system/demo/LLM/LLMDocumentListener.java:76-85 | With the cache on, a live cached reply is shown and no request is made. |
| DocumentListener.CompletionIsCached | src/main/java/com/system/demo/LLM/LLMDocumentListener.java:118-128 | A usable completed reply answers the same text at the same offset from the cache until it expires. |
| DocumentListener.LLMDocumentListener.constructor | src/main/java/com/system/demo/LLM/LLMDocumentListener.java:25-26 | No request time and no pending request. |
| DocumentListener.LLMDocumentListener.CancelPendingRequests | src/main/java/com/system/demo/LLM/LLMDocumentListener.java:148-155 | The pending map is empty afterwards. |
| DocumentListener.LLMDocumentListener.DocumentChanged | src/main/java/com/system/demo/LLM/LLMDocumentListener.java:30-106 | The outcome, the request time, the cache and the pending map are as `Outcome`, `CacheRead` and `PendingAfter` describe. It uses the corrected trigger check; `OutcomeAsWritten` is the handler as written. |
| DocumentListener.Outcome | src/main/java/com/system/demo/LLM/LLMDocumentListener.java:30-106 | How `documentChanged` ends, branch by branch in the source's order, with the corrected trigger check. `QuietOutcomes`, `CacheHitShortCircuits` and `RequestIsUnique` state its properties. |
| DocumentListener.OutcomeAsWritten | src/main/java/com/system/demo/LLM/LLMDocumentListener.java:30-106 | The same handler with the trigger check as written, which can throw (`Threw`). |
| DocumentListener.AsWrittenDiffersOnlyByThrowing | src/main/java/com/system/demo/LLM/LLMDocumentListener.java:63-74 | The handler as written throws exactly when an event passes the editor checks with the caret beyond the clipped context. Otherwise it ends as `Outcome` does. |
| DocumentListener.CacheRead | src/main/java/com/system/demo/LLM/LLMDocumentListener.java:76-85 | The cache is read, under the event's key, only when the event reaches the cache and caching is on. |
| DocumentListener.PendingAfter | src/main/java/com/system/demo/LLM/LLMDocumentListener.java:93-106 | A request replaces every pending request with its own unfinished one; otherwise the map is kept. |
| DocumentListener.CacheAfterCompletion | src/main/java/com/system/demo/LLM/LLMDocumentListener.java:110-128 | A completed, usable reply is cached under its key when caching is on; otherwise the cache is kept. `CompletionIsCached` states what it then answers. |
| DocumentListener.CacheKey | src/main/java/com/system/demo/LLM/LLMDocumentListener.java:76 | The printed hash code, `_` and the offset. `CacheKeyDeterminesOffset` and `CacheKeyCollision` state what it tells apart. |
| DocumentListener.LLMDocumentListener.RequestCompleted | src/main/java/com/system/demo/LLM/LLMDocumentListener.java:110-134 | The key leaves the pending map. A failure shows nothing. Otherwise `SuggestionToShow` is shown and cached when caching is on. |
| DocumentListener.ShouldTrigger | src/main/java/com/system/demo/LLM/LLMDocumentListener.java:137-146 | The corrected check never triggers at offset 0 or with an empty context. |
| DocumentListener.NoUnderscore | src/main/java/com/system/demo/LLM/LLMDocumentListener.java:76 | A printed hash has no `_` in it. |
| DocumentListener.FirstUnderscore | src/main/java/com/system/demo/LLM/LLMDocumentListener.java:76 | The first `_` of a key comes right after the printed hash. |
| DocumentListener.Prompt | src/main/java/com/system/demo/LLM/LLMDocumentListener.java:98 | The prompt is a fixed lead followed by the whole context. |
| CompletionContributor.BeforeCursor | src/main/java/com/system/demo/LLM/LLMCompletionContributor.java:41 | The first `min(offset, length)` characters. |
| CompletionContributor.AfterCursor | src/main/java/com/system/demo/LLM/LLMCompletionContributor.java:42 | The rest of the file from the clamped offset. |
| CompletionContributor.CursorSplit | src/main/java/com/system/demo/LLM/LLMCompletionContributor.java:41-42 | The two parts together give the file back, for every offset. |
| CompletionContributor.BeforeExcerpt | src/main/java/com/system/demo/LLM/LLMCompletionContributor.java:86 | Up to 1000 characters are kept whole. Longer text gives `"..."` and its last 1000 characters. |
| CompletionContributor.AfterExcerpt | src/main/java/com/system/demo/LLM/LLMCompletionContributor.java:87 | Up to 500 characters are kept whole. Longer text gives its first 500 characters and `"..."`. |
| CompletionContributor.ExcerptsKeepTextNearCaret | src/main/java/com/system/demo/LLM/LLMCompletionContributor.java:86-87 | The characters nearest the caret always reach the prompt, on both sides. |
| CompletionContributor.PromptHoldsContext | src/main/java/com/system/demo/LLM/LLMCompletionContributor.java:77-89 | The prompt contains the file name and both excerpts. |
| CompletionContributor.CompletionPrompt | src/main/java/com/system/demo/LLM/LLMCompletionContributor.java:77-89 | The file name and the two excerpts, each after its label. `PromptHoldsContext` states that they are all in it. |
| CompletionContributor.DropOpeningFence | src/main/java/com/system/demo/LLM/LLMCompletionContributor.java:96 | An opening fence line is removed only at the very start; otherwise the text is unchanged. |
| CompletionContributor.DropClosingFence | src/main/java/com/system/demo/LLM/LLMCompletionContributor.java:97 | A closing fence at the very end is removed, and the text never grows. |
| CompletionContributor.ClosingFenceBeforeTerminator | src/main/java/com/system/demo/LLM/LLMCompletionContributor.java:97 | A closing fence before one final line terminator is removed, and the terminator is kept. |
| CompletionContributor.CleanSuggestion | src/main/java/com/system/demo/LLM/LLMCompletionContributor.java:94-100 | The result is trimmed. |
| CompletionContributor.CleanedIsTrimmed | src/main/java/com/system/demo/LLM/LLMCompletionContributor.java:94-100 | Trimming the result changes nothing. |
| CompletionContributor.CleanFencedBlock | src/main/java/com/system/demo/LLM/LLMCompletionContributor.java:94-100 | A reply in a fenced block with a lower-case tag cleans to its trimmed body. |
| CompletionContributor.CleanPlainText | src/main/java/com/system/demo/LLM/LLMCompletionContributor.java:94-100 | A reply without a backtick is only trimmed. |
| CompletionContributor.PresentableText | src/main/java/com/system/demo/LLM/LLMCompletionContributor.java:58-60 | Up to 50 characters are kept whole; longer text gives its first 50 characters and `"..."`. |
| CompletionContributor.RequestPrompt | src/main/java/com/system/demo/LLM/LLMCompletionContributor.java:26-45 | A prompt is sent exactly when completion is switched on. |
| CompletionContributor.ItemFor | src/main/java/com/system/demo/LLM/LLMCompletionContributor.java:50-63 | An item is added exactly for a non-null, non-empty reply. It carries the cleaned reply and its presentable text. |
| CompletionContributor.BlankReplyAddsEmptyItem | src/main/java/com/system/demo/LLM/LLMCompletionContributor.java:50-52 | A blank reply still adds an empty item. |
| CompletionContributor.LowerRunEnd | src/main/java/com/system/demo/LLM/LLMCompletionContributor.java:96 | The `[a-z]*` run after the opening backticks: every character in it is a lower-case letter, and the one after it is not. |
| CompletionContributor.NoFenceWithoutBacktick | src/main/java/com/system/demo/LLM/LLMCompletionContributor.java:96-97 | Neither fence pattern changes text without a backtick. |
| InlineCompletion.Inserted | src/main/java/com/system/demo/LLM/LLMInlineCompletionManager.java:66-78 | The inserted text sits at the offset; what was before and after it is unchanged. |
| InlineCompletion.InsertedCutOut | src/main/java/com/system/demo/LLM/LLMInlineCompletionManager.java:66-78 | Cutting the inserted span out gives the document back. |
| InlineCompletion.InlineCompletionManager.constructor | src/main/java/com/system/demo/LLM/LLMInlineCompletionManager.java:12-14 | No inlay, no suggestion and no editor. |
| InlineCompletion.InlineCompletionManager.HasSuggestion | src/main/java/com/system/demo/LLM/LLMInlineCompletionManager.java:16-18 | True exactly when the inlay is present and valid and the suggestion is non-empty. |
| InlineCompletion.InlineCompletionManager.RemoveInlineSuggestion | src/main/java/com/system/demo/LLM/LLMInlineCompletionManager.java:53-64 | Inlay, suggestion and editor are reset whatever the state was, so repeating it changes nothing. |
| InlineCompletion.InlineCompletionManager.ShowInlineSuggestion | src/main/java/com/system/demo/LLM/LLMInlineCompletionManager.java:20-51 | A null editor or a null or blank suggestion changes nothing. Otherwise the editor is recorded. The trimmed suggestion is shown at the caret. When `addInlineElement` returns null, the inlay is null and the trimmed suggestion stays; when it throws, the inlay is null and the suggestion is `""`. A suggestion is showing afterwards exactly when the inlay was created. |
| InlineCompletion.InlineCompletionManager.Accept | src/main/java/com/system/demo/LLM/LLMInlineCompletionManager.java:66-78 | Without an inlay or with a null editor nothing changes. Otherwise the suggestion is inserted at the caret when the write succeeds, and the state is reset in every case. |
| InlineCompletion.TabAcceptHandler.constructor | src/main/java/com/system/demo/LLM/TabAcceptHandler.java:15-17 | Remembers whether there is an original handler. |
| InlineCompletion.TabAcceptHandler.Execute | src/main/java/com/system/demo/LLM/TabAcceptHandler.java:20-27 | With a suggestion Tab accepts it. Otherwise the key goes to the original handler, or is ignored, and nothing changes. |
| LlmCache.Lookup | src/main/java/com/system/demo/LLM/LLMCache.java:30-42 | A missing key gives null and no change. An expired key gives null and is removed. A live key gives its response and no change. |
| LlmCache.Stored | src/main/java/com/system/demo/LLM/LLMCache.java:44-48 | A null key or response changes nothing; otherwise the key's entry is replaced, stamped `now`. |
| LlmCache.LookupTouchesOnlyItsKey | src/main/java/com/system/demo/LLM/LLMCache.java:35-39 | `get` removes at most its own key and answers exactly when the key stays. |
| LlmCache.GetAfterPut | src/main/java/com/system/demo/LLM/LLMCache.java:21-48 | What was put is read back while `now - putTime <= minutes * 60000`, and never after. |
| LlmCache.PutKeepsOtherKeys | src/main/java/com/system/demo/LLM/LLMCache.java:44-48 | A put leaves every other key's answer as it was. |
| LlmCache.ExpiryIsPermanent | src/main/java/com/system/demo/LLM/LLMCache.java:21-23 | Once expired, an entry stays expired. |
| LlmCache.LLMCache.constructor | src/main/java/com/system/demo/LLM/LLMCache.java:10 | The cache starts empty. |
| LlmCache.LLMCache.Get | src/main/java/com/system/demo/LLM/LLMCache.java:30-42 | Answers and updates the map as `Lookup` describes. |
| LlmCache.LLMCache.Put | src/main/java/com/system/demo/LLM/LLMCache.java:44-48 | Leaves the map that `Stored` describes. |
| LlmCache.LLMCache.Clear | src/main/java/com/system/demo/LLM/LLMCache.java:50-56 | Empties the map; the size is then 0. |
| LlmState.LLMState.constructor | src/main/java/com/system/demo/LLM/LLMState.java:5 | The flag starts off. |
| LlmState.LLMState.Toggle | src/main/java/com/system/demo/LLM/LLMState.java:11-13 | Negates the flag. |
| LlmState.LLMState.SetEnabled | src/main/java/com/system/demo/LLM/LLMState.java:15-17 | `IsEnabled()` then returns the value. |
| JavaText.Trim | src/main/java/com/system/demo/LLM/LLMDocumentListener.java:118-123 | The trimmed text is no longer and neither starts nor ends with a character up to `' '`. |
| JavaText.BlankIffAllTrimmable | src/main/java/com/system/demo/LLM/LLMDocumentListener.java:118-123 | A text is blank exactly when every character is up to `' '`. |
| JavaText.TrimIdempotent | src/main/java/com/system/demo/LLM/LLMInlineCompletionManager.java:26-29 | Trimming twice is trimming once. |
| JavaText.CollapseWhitespace | src/main/java/com/system/demo/LLM/EditSelectionAction.java:115-116 | Each whitespace run becomes one space: no two whitespace characters in a row remain, and each one left is a space. |
| JavaText.CollapseIgnoresRunLength | src/main/java/com/system/demo/LLM/EditSelectionAction.java:115-116 | Only whether a gap holds whitespace matters, not how much. |
| JavaText.IndexOfChar | src/main/java/com/system/demo/LLM/LLMTypedActionHandler.java:129 | The first occurrence at or after `from`, or -1 when there is none. |
| JavaText.LastIndexOfChar | src/main/java/com/system/demo/LLM/LLMTypedActionHandler.java:128 | The last occurrence at or before `from`, or -1 when there is none. |
| JavaText.Split | src/main/java/com/system/demo/LLM/ModernDiffRenderer.java:83-84 | `split("\n", -1)` gives at least one line, none holding a `'\n'`. |
| JavaText.JoinSplit | src/main/java/com/system/demo/LLM/ModernDiffRenderer.java:83-84 | Joining the split lines gives the text back. |
| JavaText.SplitJoin | src/main/java/com/system/demo/LLM/ModernDiffRenderer.java:83-84 | Splitting joined lines gives the lines back. |
| JavaText.Wrap32 | src/main/java/com/system/demo/LLM/LLMDocumentListener.java:76 | The 32-bit two's-complement value congruent to the input. |
| JavaText.JavaHash | src/main/java/com/system/demo/LLM/LLMDocumentListener.java:76 | `String.hashCode` is a 32-bit int. |
| JavaText.NatToString | src/main/java/com/system/demo/utils/EditorContextUtils.java:72-76 | Printing a non-negative number gives decimal digits only. |
| JavaText.IntToString | src/main/java/com/system/demo/utils/EditorContextUtils.java:72-76 | A printed int starts with `-` exactly when it is negative. |
| JavaText.LeadingWord | src/main/java/com/system/demo/utils/EditorContextUtils.java:250-252 | The leading `\w` run of a token: word characters only, and the one after it is not. |
| DocLines.GetLineCount | src/main/java/com/system/demo/LLM/ModernDiffRenderer.java:144 | `getLineCount()`: 0 exactly for the empty document, otherwise one more than the number of `'\n'`; never more than the structural line count. |
| DocLines.CountNewlines | src/main/java/com/system/demo/LLM/ModernDiffRenderer.java:142-149 | A text holds at most as many newlines as characters. |
| DocLines.LineNumber | src/main/java/com/system/demo/LLM/ModernDiffRenderer.java:111 | `getLineNumber` of an offset in the document is an existing line. |
| DocLines.LineStart | src/main/java/com/system/demo/LLM/ModernDiffRenderer.java:146 | `getLineStartOffset` of line `n` is a line boundary with `n` newlines before it. |
| DocLines.LineEnd | src/main/java/com/system/demo/LLM/ModernDiffRenderer.java:325 | `getLineEndOffset` of line `n` is the next `'\n'` or the end, with no `'\n'` after the line start. |
| DocLines.LineStartUnique | src/main/java/com/system/demo/LLM/ModernDiffRenderer.java:146 | A line boundary with `n` newlines before it is the start of line `n`. |
| DocLines.LineEndUnique | src/main/java/com/system/demo/LLM/ModernDiffRenderer.java:325 | A `'\n'` or the end with `n` newlines before it is the end of line `n`. |
| DocLines.ReplaceRange | src/main/java/com/system/demo/LLM/ModernDiffRenderer.java:114 | `replaceString` changes the length by the replacement's minus the range's. |
| DocLines.InsertAt | src/main/java/com/system/demo/LLM/ModernDiffRenderer.java:147 | `insertString` lengthens the text by the inserted text. |
| DocLines.DeleteRange | src/main/java/com/system/demo/LLM/ModernDiffRenderer.java:326 | `deleteString` shortens the text by the range. |
| DocLines.DeleteLineSpan | src/main/java/com/system/demo/LLM/ModernDiffRenderer.java:322-326 | Deleting a span of lines never lengthens the text. |
| DocLines.DeleteInsertedLines | src/main/java/com/system/demo/LLM/ModernDiffRenderer.java:322-326 | Deleting the whole lines that follow a line boundary gives the text around them back. |
| DocLines.InsertLinesThenDelete | src/main/java/com/system/demo/LLM/ModernDiffRenderer.java:142-149 | Inserting whole lines at a line start and deleting that many lines there gives the document back. |
| OrderedMap.Get | src/main/java/com/system/demo/LLM/CompletionCacheManager.java:107 | `get` answers exactly for a present key, with a pair the map holds. |
| OrderedMap.Put | src/main/java/com/system/demo/LLM/CompletionCacheManager.java:148 | `put` overwrites a present key in its place and appends a new one. |
| OrderedMap.PutGet | src/main/java/com/system/demo/LLM/CompletionCacheManager.java:148 | After `put`, the key maps to the value and every other key to what it did. |
| OrderedMap.Remove | src/main/java/com/system/demo/LLM/CompletionCacheManager.java:378 | `remove` never lengthens the map. |
| OrderedMap.RemovePresent | src/main/java/com/system/demo/LLM/CompletionCacheManager.java:378 | Removing a present key takes out exactly its pair and keeps the order. |
| OrderedMap.RemoveGet | src/main/java/com/system/demo/LLM/CompletionCacheManager.java:378 | After `remove`, the key is absent and every other key keeps its value. |
| OrderedMap.Filter | src/main/java/com/system/demo/LLM/CompletionCacheManager.java:388 | `removeIf` keeps exactly the pairs that pass. |
| OrderedMap.FilterKeepsUnique | src/main/java/com/system/demo/LLM/CompletionCacheManager.java:388 | Filtering keeps keys unique. |
| OrderedMap.DropFirst | src/main/java/com/system/demo/LLM/CompletionCacheManager.java:159-165 | Dropping the eldest pair takes out one pair and adds none. |
| OrderedMap.DropFirstGet | src/main/java/com/system/demo/LLM/CompletionCacheManager.java:159-165 | Every key but the eldest keeps its value. |
| OrderedMap.MoveLast | src/main/java/com/system/demo/utils/ContextCacheManager.java:26 | In an access-ordered map, the key just put or read is last. |
| OrderedMap.MoveLastGet | src/main/java/com/system/demo/utils/ContextCacheManager.java:26 | Moving a key last changes only that key's value and adds at most one pair. |
| OrderedMap.MoveLastSamePairs | src/main/java/com/system/demo/utils/ContextCacheManager.java:129-136 | A read reorders an access-ordered map without changing its pairs. |

## Left out

- **UI:**
  - toolbars, highlighting, gutter icons, popup menus, dialogs and inlay rendering are not modelled;
  - the answers to the Keep All / Undo All confirmations, and what `addInlineElement` does (create the inlay, return null or throw), are parameters;
  - the Undo All / Keep All status label is not modelled, because the toolbar closes right after it.
- **Outside code:**
  - the diff itself (java-diff-utils) is an input, under the well-formedness the library promises;
  - the network client (`LLMClient`): its reply is a parameter;
  - the program structure interface (PSI), reflection and `getCodeContext`'s PSI walk: the file name and text are parameters;
  - `buildContextPromptForComment`, which the edit action calls, is not part of this model, so prompt selection in `EditSelectionAction` is left out;
  - `getStats` is not modelled.
- **Threads and time:**
  - `invokeLater`, write commands, background threads, futures, time-outs and read/write locks are left out, and every operation is modelled as running sequentially and at once;
  - a cancelled or timed-out request arrives as `RequestCompleted` with `failed` set;
  - the clock is the parameter `now`;
  - `DEBOUNCE_DELAY_MS` is declared but never used in the source.
- **Settings:**
  - `triggerDelayMs`, `maxContextLength`, `maxSuggestionLength`, `enableCache` and `cacheTimeoutMinutes` are parameters;
  - `LLMSettings` declares only the first and the third of these, with defaults 500 and 150;
  - `maxContextLength` and `maxSuggestionLength` are taken as non-negative, since a negative value makes `substring` throw.
- **Typing handler:**
  - the `pendingTask` and `lastContextKey` fields of the typing handler, and its scheduler, are left out;
  - the structured header of `buildOptimizedPrompt` (file type, class, method and variables) and its fixed instructions are left out, since they carry no code.
- **Unicode:** `Character.isLetterOrDigit` is modelled for ASCII letters and digits only, and case-insensitive matching for ASCII only.
- **UTF-16:** a Java `String` is a sequence of UTF-16 code units, while a Dafny `char` is one Unicode scalar value. For text outside the Basic Multilingual Plane, a character outside it is two Java `char`s and one Dafny `char`. So lengths and offsets, the substring limits (300, 150, 1000, 500, 50 and 100 characters, `maxContextLength`, `maxSuggestionLength`), `charAt` in `isSemanticallyClose`, the LCS window and `JavaHash` are modelled in scalar values and differ from the source on such text; for text inside the plane they agree.
- **Identity and nulls:**
  - a `static` field is the field of one instance;
  - object identity of chunks is their index in the list;
  - an editor in the edit action is an opaque identifier;
  - a null map key is refused at the call (`HasFileName` in the completion cache), because `ConcurrentHashMap` throws on it.
- **Integer width:** Java `int` and `long` arithmetic is unbounded except for `hashCode`.
- **Escaping:** the HTML escaping of the diff log is not modelled.
- **Caret:** the caret movement that the editor performs after `Accept` is left out. Inlay validity is an input field that the editor changes.
- DiffRenderer.KeepChunkText: its own contract states only that the text does not grow. What it deletes is stated by `DiffRoundTrip.KeepPlaced`, `DiffRoundTrip.KeepRestoresProposal` and `DocLines.DeleteLineSpan`.
- DiffRenderer.UndoChunkText: as for KeepChunkText, with `DiffRoundTrip.UndoPlaced` and `DiffRoundTrip.UndoRestoresOriginal`.
- TypedAction.StripFences: its own contract states only that the text does not grow. `TypedAction.UnfenceWrapped` and `TypedAction.StripFencesPlain` state what it removes in the common cases.
- DiffRoundTrip.UndoRestoresOriginal: proved for one delta with at least one line after it, and with the selection starting a line or a common line before the delta; `DiffExamples.UndoMidLineLosesText` shows the round trip failing without that. Several chunks are not covered, because of the source's placement (see `DiffExamples.UndoAllCanLoseALine`). It also requires the proposal to leave the document non-empty: the source gives an empty document no line to put the original above, so a proposal that deletes everything cannot be undone (`DiffExamples.UndoEmptiedDocumentLosesText`); `DiffRoundTrip.UndoSingle` carries the same condition.
- CompletionCache.LeastUsedIndex: among entries with equal use counts the model evicts the first in sequence order; the source scans a `ConcurrentHashMap` in hash order, which the model does not compute, so it may evict a different one of them.
- CompletionCache.StoreFileLevel: the "eldest" file the source may drop is the first in the hash order of a `ConcurrentHashMap`; the model takes the first inserted.
- CompletionCache.StoreFuzzy: which key leaves past 50 is the parameter `first` rather than the hash order; every statement about it holds for any admissible `first`.
- EditorContext.ExtractNameFromDefinition: the `matches(".*\\b(kw)\\b.*")` pre-check of each line is not modelled; the token test decides alone. They differ only on trimmed lines that hold `'\r'`, `'\u0085'`, `'\u2028'` or `'\u2029'`, where `.` stops and the source skips the line.
- DocumentListener.LLMDocumentListener.DocumentChanged: the method follows the corrected trigger check; the handler as written, which throws once the context was clipped, is `OutcomeAsWritten`, related to it by `AsWrittenDiffersOnlyByThrowing`.

## Findings

| source | as written | input that shows it | evidently intended | confidence | as-written member | corrected member |
|---|---|---|---|---|---|---|
| src/main/java/com/system/demo/LLM/LLMDocumentListener.java:141 | `context.charAt(offset - 1)` indexes the clipped context with a document offset, and throws once the context was clipped | document `"ab "`, caret at 3, `maxContextLength` 1: the context is `" "` and index 2 is out of range | test the character just before the caret, the last of the context | high (not executed) | DocumentListener.AsWrittenThrowsExample | DocumentListener.ShouldTriggerReadsCharBeforeCaret |
| src/main/java/com/system/demo/LLM/LLMTypedActionHandler.java:175-179 | the line-start rule reads the text from the caret's own line start, which is blank wherever the rule is asked, so it never fires | `"{\n"` with the caret at 2 and any character typed: no completion | read the previous line, as the comment and `shouldTriggerAfterNewline` do | high (not executed) | TypedAction.LineStartCounterexample | TypedAction.IntendedTriggersAfterCue |
