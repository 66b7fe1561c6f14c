/**
 * The import dialog's form: a title, a source text, an in-flight flag and an error message.
 * Submitting validates the two fields and starts the flashcard generator; the generator's
 * outcome arrives later and either hands the cards on or sets the error.
 */
module ImportModal {
  import opened Types

  const MissingInputError: string := "Please provide both a title and some text."
  const NothingExtractedError: string := "No flashcards could be extracted from this text."
  const FallbackError: string := "Failed to process text."

  // ---------------------------------------------------------------------------------------
  // String.prototype.trim.

  /** ECMAScript WhiteSpace and LineTerminator code points: what trim removes. */
  predicate IsSpace(c: char)
  {
    || c == '\t' || c == '\n' || c == '\U{000B}' || c == '\U{000C}' || c == '\r' || c == ' '
    || c == '\U{00A0}' || c == '\U{1680}' || ('\U{2000}' <= c <= '\U{200A}')
    || c == '\U{2028}' || c == '\U{2029}' || c == '\U{202F}' || c == '\U{205F}'
    || c == '\U{3000}' || c == '\U{FEFF}'
  }

  function TrimStart(s: string): (r: string)
    ensures |r| <= |s| && r == s[|s| - |r|..]
    ensures r == [] || !IsSpace(r[0])
    ensures forall i :: 0 <= i < |s| - |r| ==> IsSpace(s[i])
  {
    if s != [] && IsSpace(s[0]) then TrimStart(s[1..]) else s
  }

  function TrimEnd(s: string): (r: string)
    ensures |r| <= |s| && r == s[..|r|]
    ensures r == [] || !IsSpace(r[|r| - 1])
    ensures forall i :: |r| <= i < |s| ==> IsSpace(s[i])
  {
    if s != [] && IsSpace(s[|s| - 1]) then TrimEnd(s[..|s| - 1]) else s
  }

  function Trim(s: string): string
  {
    TrimEnd(TrimStart(s))
  }

  /** `!s.trim()`: the string is empty once trimmed. */
  predicate IsBlank(s: string)
  {
    Trim(s) == ""
  }

  /** A string is blank exactly when every character of it is white space. */
  lemma BlankIffAllSpace(s: string)
    ensures IsBlank(s) <==> forall i :: 0 <= i < |s| ==> IsSpace(s[i])
  {
    var u := TrimStart(s);
    TrimStartEmpty(s);
    if u != [] {
      assert TrimEnd(u) != [] by { TrimEndKeepsLast(u); }
    }
  }

  lemma TrimStartEmpty(s: string)
    ensures TrimStart(s) == [] <==> forall i :: 0 <= i < |s| ==> IsSpace(s[i])
  {
    var u := TrimStart(s);
    if u != [] {
      assert u[0] == s[|s| - |u|];
    }
  }

  lemma TrimEndKeepsLast(u: string)
    requires u != [] && !IsSpace(u[0])
    ensures TrimEnd(u) != []
  {
  }

  /** Trimming removes white space at both ends only and is idempotent. */
  lemma TrimSpec(s: string)
    ensures var t := Trim(s);
      && (t == [] || (!IsSpace(t[0]) && !IsSpace(t[|t| - 1])))
      && (exists a, b :: 0 <= a <= b <= |s| && t == s[a..b])
      && Trim(t) == t
  {
    var u := TrimStart(s);
    var t := TrimEnd(u);
    var a := |s| - |u|;
    assert u == s[a..];
    assert t == s[a..a + |t|];
  }

  // ---------------------------------------------------------------------------------------
  // Validation and the generator's outcome.

  /** What the generator call ends with: a list of pairs, or a thrown error with its message. */
  datatype Generation = Generated(cards: seq<CardInput>) | GenerationFailed(message: string)

  /** The error shown when the fields are not both filled in, if any. */
  function ValidationError(title: string, text: string): (e: Option<string>)
    ensures e.None? <==> (exists i :: 0 <= i < |title| && !IsSpace(title[i])) && (exists i :: 0 <= i < |text| && !IsSpace(text[i]))
    ensures e.Some? ==> e.value == MissingInputError
  {
    BlankIffAllSpace(title);
    BlankIffAllSpace(text);
    if IsBlank(title) || IsBlank(text) then Some(MissingInputError) else None
  }

  /**
   * What the generator's outcome means for the form: the cards to import, or the message to
   * show. An empty list is an error, and an error without a message gets the fallback text.
   */
  function Interpret(g: Generation): (r: Result)
    ensures r.Imported? <==> g.Generated? && |g.cards| > 0
    ensures r.Imported? ==> r.cards == g.cards
    ensures r.Rejected? ==> r.message != ""
    ensures g.GenerationFailed? && g.message != "" ==> r == Rejected(g.message)
    ensures g.GenerationFailed? && g.message == "" ==> r == Rejected(FallbackError)
    ensures g.Generated? && |g.cards| == 0 ==> r == Rejected(NothingExtractedError)
  {
    match g
    case Generated(cards) =>
      if |cards| == 0 then Rejected(NothingExtractedError) else Imported(cards)
    case GenerationFailed(message) =>
      Rejected(if message == "" then FallbackError else message)
  }

  datatype Result = Imported(cards: seq<CardInput>) | Rejected(message: string)

  /** What the dialog passes to the deck collection: a title and the generated pairs. */
  datatype ImportRequest = ImportRequest(title: string, cards: seq<CardInput>)

  // ---------------------------------------------------------------------------------------
  // The form.

  class ImportForm {
    var title: string
    var text: string
    var isProcessing: bool
    var error: Option<string>
    /** The title as it was when the pending generator call was started: the call's closure holds it. */
    var submittedTitle: string

    constructor ()
      ensures title == "" && text == "" && !isProcessing && error == None
    {
      title, text, isProcessing, error := "", "", false, None;
      submittedTitle := "";
    }

    /** Typing in the title field. */
    method SetTitle(value: string)
      modifies this
      ensures title == value
      ensures text == old(text) && isProcessing == old(isProcessing) && error == old(error)
      ensures submittedTitle == old(submittedTitle)
    {
      title := value;
    }

    /** Typing in the text area. */
    method SetText(value: string)
      modifies this
      ensures text == value
      ensures title == old(title) && isProcessing == old(isProcessing) && error == old(error)
      ensures submittedTitle == old(submittedTitle)
    {
      text := value;
    }

    /**
     * The Generate button. It is disabled while a call is pending, so a click then does
     * nothing. Otherwise blank fields set the error and stop; filled fields mark the form
     * busy, clear the error and return the text the generator is called with.
     */
    method Submit() returns (generatorInput: Option<string>)
      modifies this
      ensures title == old(title) && text == old(text)
      ensures old(isProcessing) ==> generatorInput == None && unchanged(this)
      ensures !old(isProcessing) && ValidationError(old(title), old(text)).Some? ==>
        && generatorInput == None && error == ValidationError(old(title), old(text))
        && isProcessing == old(isProcessing) && submittedTitle == old(submittedTitle)
      ensures !old(isProcessing) && ValidationError(old(title), old(text)).None? ==>
        && generatorInput == Some(old(text)) && isProcessing && error == None
        && submittedTitle == old(title)
    {
      if isProcessing {
        return None;
      }
      var invalid := ValidationError(title, text);
      if invalid.Some? {
        error := invalid;
        return None;
      }
      isProcessing := true;
      error := None;
      submittedTitle := title;
      generatorInput := Some(text);
    }

    /**
     * The generator's outcome arrives. Cards are handed on with the title captured at submit
     * time, untrimmed, and both fields are cleared; otherwise the error is set and the fields
     * are kept. The form is idle again either way.
     */
    method Complete(outcome: Generation) returns (imported: Option<ImportRequest>)
      requires isProcessing
      modifies this
      ensures !isProcessing && submittedTitle == old(submittedTitle)
      ensures Interpret(outcome).Imported? ==>
        && imported == Some(ImportRequest(old(submittedTitle), outcome.cards))
        && title == "" && text == "" && error == old(error)
      ensures Interpret(outcome).Rejected? ==>
        && imported == None && error == Some(Interpret(outcome).message)
        && title == old(title) && text == old(text)
    {
      match Interpret(outcome) {
        case Imported(cards) =>
          imported := Some(ImportRequest(submittedTitle, cards));
          title := "";
          text := "";
        case Rejected(message) =>
          imported := None;
          error := Some(message);
      }
      isProcessing := false;
    }
  }

  /** An empty generator result is reported and nothing is imported. */
  method EmptyResultIsAnError(title: string, text: string) returns (imported: Option<ImportRequest>, shown: Option<string>)
    requires ValidationError(title, text).None?
    ensures imported == None && shown == Some(NothingExtractedError)
  {
    var form := new ImportForm();
    form.SetTitle(title);
    form.SetText(text);
    var request := form.Submit();
    imported := form.Complete(Generated([]));
    shown := form.error;
  }
}
