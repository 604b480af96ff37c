/**
 * The checks `CreateFolderDialog` runs on submit, the state the submit
 * leaves behind, and when the submit button is enabled. Lengths are
 * JavaScript `length`s: UTF-16 code units.
 */
module CreateFolderDialog {
  import opened Wrappers
  import JsText
  import Schema

  /** The characters the dialog refuses in a name: `< > : " / \ | ? *`. */
  const InvalidChars: string := "<>:\"/\\|?*"

  /** The longest name the dialog lets through, in UTF-16 code units. */
  const MaxNameLength: nat := 255

  const RequiredMessage: string := "Folder name is required"
  const TooLongMessage: string := "Folder name must be less than 255 characters"
  const InvalidCharsMessage: string := "Folder name contains invalid characters"

  datatype Verdict = Accepted(name: string) | Rejected(message: string)

  predicate HasInvalidChar(s: string) {
    exists i :: 0 <= i < |s| && s[i] in InvalidChars
  }

  /**
   * `handleSubmit`'s checks, in order, on the trimmed input: empty, then
   * too long, then a forbidden character. The first that fails decides the
   * message; a name that passes all three is handed on trimmed.
   */
  function Validate(input: string): (v: Verdict)
    ensures v.Accepted? ==> v.name == JsText.Trim(input)
    ensures v == Rejected(RequiredMessage) <==> JsText.Trim(input) == ""
    ensures v == Rejected(TooLongMessage) <==>
      JsText.Trim(input) != "" && JsText.Utf16Length(JsText.Trim(input)) > MaxNameLength
    ensures v == Rejected(InvalidCharsMessage) <==>
      && JsText.Trim(input) != ""
      && JsText.Utf16Length(JsText.Trim(input)) <= MaxNameLength
      && HasInvalidChar(JsText.Trim(input))
  {
    var t := JsText.Trim(input);
    if t == "" then Rejected(RequiredMessage)
    else if JsText.Utf16Length(t) > MaxNameLength then Rejected(TooLongMessage)
    else if HasInvalidChar(t) then Rejected(InvalidCharsMessage)
    else Accepted(t)
  }

  /**
   * An accepted name is non-empty, has no surrounding whitespace and no
   * forbidden character, fits the `folders.name` column, and is accepted
   * again unchanged.
   */
  lemma AcceptedNameIsClean(input: string)
    requires Validate(input).Accepted?
    ensures var name := Validate(input).name;
      && name != ""
      && !JsText.IsWhitespace(name[0]) && !JsText.IsWhitespace(name[|name| - 1])
      && !HasInvalidChar(name)
      && |name| <= Schema.FolderNameMaxLength
      && Validate(name) == Accepted(name)
  {
    var t := JsText.Trim(input);
    assert t != "" && JsText.Utf16Length(t) <= MaxNameLength && !HasInvalidChar(t);
    JsText.TrimSplits(input);
    JsText.TrimIdempotent(input);
    assert JsText.Trim(t) == t;
  }

  /** A name made of whitespace only is refused as missing. */
  lemma WhitespaceOnlyIsRequired(input: string)
    requires forall k :: 0 <= k < |input| ==> JsText.IsWhitespace(input[k])
    ensures Validate(input) == Rejected(RequiredMessage)
  {
    JsText.AllWhitespaceTrimsAway(input);
  }

  /**
   * The length check is `> 255`: a clean name of exactly 255 code units is
   * accepted although the message speaks of "less than 255".
   */
  lemma NameOf255IsAccepted(input: string)
    requires JsText.Trim(input) != "" && !HasInvalidChar(JsText.Trim(input))
    ensures Validate(input).Accepted? <==> JsText.Utf16Length(JsText.Trim(input)) <= MaxNameLength
  {
  }

  /** What the dialog holds: the typed name, the error shown, and whether it has been closed. */
  datatype DialogState = DialogState(folderName: string, error: string, closed: bool)

  /** The result of a submit: the new state and the names handed to `onCreateFolder`. */
  datatype Submitted = Submitted(state: DialogState, created: seq<string>)

  /**
   * `handleSubmit`: on a refusal the error is shown and the name kept; on
   * acceptance `onCreateFolder` gets the trimmed name once and
   * `handleClose` clears the name and the error and closes the dialog.
   */
  function HandleSubmit(s: DialogState): (r: Submitted)
    ensures |r.created| <= 1
    ensures r.created != [] <==> Validate(s.folderName).Accepted?
    ensures r.created != [] ==> r.created[0] == JsText.Trim(s.folderName) && r.state == DialogState("", "", true)
    ensures r.created == [] ==>
      && Validate(s.folderName).Rejected? && r.state.error == Validate(s.folderName).message
      && r.state.folderName == s.folderName && r.state.closed == s.closed && r.state.error != ""
  {
    match Validate(s.folderName)
    case Rejected(message) => Submitted(s.(error := message), [])
    case Accepted(name) => Submitted(DialogState("", "", true), [name])
  }

  /** `disabled={isCreating || !folderName.trim()}`, negated. */
  predicate SubmitEnabled(folderName: string, isCreating: bool) {
    !isCreating && JsText.Trim(folderName) != ""
  }

  /** Whenever the button can be pressed, the "required" refusal cannot happen; and it is disabled while creating. */
  lemma EnabledSubmitIsNotEmpty(folderName: string, isCreating: bool)
    ensures SubmitEnabled(folderName, isCreating) ==> Validate(folderName) != Rejected(RequiredMessage)
    ensures isCreating ==> !SubmitEnabled(folderName, isCreating)
    ensures !isCreating && (forall k :: 0 <= k < |folderName| ==> JsText.IsWhitespace(folderName[k])) ==>
      !SubmitEnabled(folderName, isCreating)
  {
    if forall k :: 0 <= k < |folderName| ==> JsText.IsWhitespace(folderName[k]) {
      WhitespaceOnlyIsRequired(folderName);
    }
  }

  /** Every name the dialog hands on passes the `insertFolderSchema` check for the `name` column. */
  lemma CreatedNamesFitTheTable(s: DialogState, parentId: Option<int>, userId: Schema.UserId)
    requires Schema.IsInt4OrNull(parentId)
    ensures forall name :: name in HandleSubmit(s).created ==>
      Schema.InsertFolderAccepted(Schema.InsertFolder(name, parentId, userId))
  {
    if Validate(s.folderName).Accepted? {
      AcceptedNameIsClean(s.folderName);
    }
  }
}
