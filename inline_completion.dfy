/**
 * LLMInlineCompletionManager and TabAcceptHandler: the one inline suggestion
 * shown in an editor as an inlay, and the Tab key that accepts it.
 *
 * The manager's static fields are the fields of one instance.  An editor is
 * an object with its document text and its caret; the inlay is a value whose
 * validity the editor decides outside this model.  Whether the framework
 * manages to create the inlay, and whether the write command succeeds, are
 * parameters.
 */
module InlineCompletion {
  import opened JavaText

  /** What InlayModel.addInlineElement does: create the inlay, return null, or throw. */
  datatype InlayAttempt = Created | ReturnedNull | Threw

  class Editor {
    var text: string
    var caret: nat

    constructor (text: string, caret: nat)
      ensures this.text == text && this.caret == caret
    {
      this.text := text;
      this.caret := caret;
    }
  }

  /** An inline element placed at an offset; `valid` is false once the editor has disposed of it. */
  datatype Inlay = Inlay(offset: nat, valid: bool)

  /** Document.insertString: the text with `s` inserted at `offset`. */
  function Inserted(text: string, offset: nat, s: string): (r: string)
    requires offset <= |text|
    ensures |r| == |text| + |s|
    ensures r[..offset] == text[..offset] && r[offset..offset + |s|] == s && r[offset + |s|..] == text[offset..]
  {
    text[..offset] + s + text[offset..]
  }

  /** Inserting and then cutting the inserted span out gives the document back. */
  lemma InsertedCutOut(text: string, offset: nat, s: string)
    requires offset <= |text|
    ensures Inserted(text, offset, s)[..offset] + Inserted(text, offset, s)[offset + |s|..] == text
  {
    assert text[..offset] + text[offset..] == text;
  }

  class InlineCompletionManager {
    var currentInlay: Option<Inlay>
    var currentSuggestion: string
    var currentEditor: Editor?

    constructor ()
      ensures currentInlay == None && currentSuggestion == "" && currentEditor == null
    {
      currentInlay := None;
      currentSuggestion := "";
      currentEditor := null;
    }

    /** A shown inlay always carries a non-empty suggestion and the editor it was shown in. */
    predicate Valid()
      reads this
    {
      currentInlay.Some? ==> currentSuggestion != [] && currentEditor != null
    }

    /** hasSuggestion */
    function HasSuggestion(): (r: bool)
      reads this
      ensures r ==> currentInlay.Some? && currentInlay.value.valid && currentSuggestion != []
      ensures currentInlay.Some? && currentInlay.value.valid && currentSuggestion != [] ==> r
    {
      currentInlay.Some? && currentInlay.value.valid && currentSuggestion != []
    }

    /** removeInlineSuggestion: everything reset, whatever the state was. */
    method RemoveInlineSuggestion()
      modifies this
      ensures currentInlay == None && currentSuggestion == "" && currentEditor == null
      ensures Valid() && !HasSuggestion()
    {
      currentInlay := None;
      currentSuggestion := "";
      currentEditor := null;
    }

    /**
     * showInlineSuggestion, with the invokeLater'd part run at once.  A null
     * editor or a null or blank suggestion changes nothing; otherwise the
     * previous suggestion is removed and the trimmed one is shown at the
     * caret.  When addInlineElement returns null nothing is shown but the
     * trimmed suggestion stays; when it throws the suggestion is cleared too.
     * The editor is recorded in every case.
     */
    method ShowInlineSuggestion(editor: Editor?, suggestion: Option<string>, attempt: InlayAttempt)
      modifies this
      ensures editor == null || suggestion.None? || Trim(suggestion.value) == [] ==>
        currentInlay == old(currentInlay) && currentSuggestion == old(currentSuggestion) && currentEditor == old(currentEditor)
      ensures editor != null && suggestion.Some? && Trim(suggestion.value) != [] ==>
        currentEditor == editor &&
        (attempt == Created ==> currentInlay == Some(Inlay(editor.caret, true)) && currentSuggestion == Trim(suggestion.value)) &&
        (attempt == ReturnedNull ==> currentInlay == None && currentSuggestion == Trim(suggestion.value)) &&
        (attempt == Threw ==> currentInlay == None && currentSuggestion == "")
      ensures editor != null && suggestion.Some? && Trim(suggestion.value) != [] ==> (HasSuggestion() <==> attempt == Created)
      ensures old(Valid()) ==> Valid()
    {
      if editor == null || suggestion.None? || Trim(suggestion.value) == [] {
        return;
      }
      var clean := Trim(suggestion.value);
      if currentEditor != null && currentEditor != editor {
        RemoveInlineSuggestion();
      }
      RemoveInlineSuggestion();
      currentSuggestion := clean;
      currentEditor := editor;
      match attempt {
        case Created => currentInlay := Some(Inlay(editor.caret, true));
        case ReturnedNull => currentInlay := None;
        case Threw =>
          currentInlay := None;
          currentSuggestion := "";
      }
    }

    /**
     * accept: with an inlay and an editor, the current suggestion is inserted
     * at that editor's caret (when the write succeeds) and the state is reset
     * in every case.  The editor passed in need not be the one the suggestion
     * was shown in.
     */
    method Accept(editor: Editor?, writeSucceeds: bool)
      modifies this, editor
      ensures old(currentInlay).None? || editor == null ==>
        currentInlay == old(currentInlay) && currentSuggestion == old(currentSuggestion) && currentEditor == old(currentEditor) &&
        (editor != null ==> editor.text == old(editor.text) && editor.caret == old(editor.caret))
      ensures old(currentInlay).Some? && editor != null ==>
        currentInlay == None && currentSuggestion == "" && currentEditor == null &&
        editor.caret == old(editor.caret) &&
        editor.text == (if writeSucceeds && old(editor.caret) <= |old(editor.text)|
                        then Inserted(old(editor.text), old(editor.caret), old(currentSuggestion))
                        else old(editor.text))
    {
      if currentInlay.None? || editor == null {
        return;
      }
      if writeSucceeds && editor.caret <= |editor.text| {
        editor.text := Inserted(editor.text, editor.caret, currentSuggestion);
      }
      RemoveInlineSuggestion();
    }
  }

  /** What the Tab key did. */
  datatype TabOutcome = Accepted | Delegated | Ignored

  /** TabAcceptHandler, around the editor's own Tab handler (which may be absent). */
  class TabAcceptHandler {
    const hasOriginalHandler: bool

    constructor (hasOriginalHandler: bool)
      ensures this.hasOriginalHandler == hasOriginalHandler
    {
      this.hasOriginalHandler := hasOriginalHandler;
    }

    /** execute: accept the suggestion when there is one, else pass the key on. */
    method Execute(manager: InlineCompletionManager, editor: Editor, writeSucceeds: bool) returns (r: TabOutcome)
      modifies manager, editor
      ensures old(manager.HasSuggestion()) ==>
        r == Accepted && !manager.HasSuggestion() &&
        editor.text == (if writeSucceeds && old(editor.caret) <= |old(editor.text)|
                        then Inserted(old(editor.text), old(editor.caret), old(manager.currentSuggestion))
                        else old(editor.text))
      ensures !old(manager.HasSuggestion()) ==>
        r == (if hasOriginalHandler then Delegated else Ignored) &&
        unchanged(manager) && unchanged(editor)
    {
      if manager.HasSuggestion() {
        manager.Accept(editor, writeSucceeds);
        r := Accepted;
      } else if hasOriginalHandler {
        r := Delegated;
      } else {
        r := Ignored;
      }
    }
  }
}
