/**
 * The rename dialog (xlauncher/RenameWindow.xaml.cs): a text box prefilled with
 * the current name, a Save button that accepts only non-blank text and keeps
 * it trimmed, and a Cancel button.
 */
module Rename {
  import opened Optional
  import opened Text

  /** A name the dialog can hand back: non-empty, with no white space at either end. */
  predicate WellFormedName(s: string)
  {
    s != [] && !IsWhiteSpace(s[0]) && !IsWhiteSpace(s[|s| - 1])
  }

  /**
   * The acceptance rule of Save_Click: blank text (empty or only white space)
   * is refused; other text is accepted as its trimmed form, a well-formed name.
   */
  function Accepted(text: string): (r: Option<string>)
    ensures r.None? <==> IsBlank(text)
    ensures r.Some? ==> WellFormedName(r.value)
  {
    if IsBlank(text) then None
    else
      TrimNonBlank(text);
      TrimEnds(text);
      Some(Trim(text))
  }

  /** An accepted name is cut out of the text with only white space around it. */
  lemma AcceptedCutsBlank(text: string)
    requires Accepted(text).Some?
    ensures exists i, j :: CutOutOf(Accepted(text).value, text, i, j)
  {
    TrimCharacterization(text);
  }

  /** Accepting a name that is already well formed gives it back unchanged. */
  lemma AcceptedWellFormed(s: string)
    requires WellFormedName(s)
    ensures Accepted(s) == Some(s)
  {
    TrimTrimmed(s);
  }

  class RenameWindow {
    /** NameInput.Text */
    var nameInput: string
    /** NewName: unset (null) until Save accepts */
    var newName: Option<string>
    /** DialogResult: unset (null) while the dialog is open */
    var dialogResult: Option<bool>

    /** Once the dialog reports success it carries a well-formed name. */
    ghost predicate Valid()
      reads this
    {
      (newName.Some? ==> WellFormedName(newName.value))
      && (dialogResult == Some(true) ==> newName.Some?)
    }

    /** The text box starts with the current name; nothing is decided yet. */
    constructor (currentName: string)
      ensures Valid()
      ensures nameInput == currentName && newName == None && dialogResult == None
    {
      nameInput := currentName;
      newName := None;
      dialogResult := None;
    }

    /** The user edits the text box. */
    method Edit(text: string)
      requires Valid()
      modifies this`nameInput
      ensures Valid() && nameInput == text
    {
      nameInput := text;
    }

    /** Save: accepted text closes the dialog with success; blank text changes nothing. */
    method SaveClick()
      requires Valid()
      modifies this`newName, this`dialogResult
      ensures Valid()
      ensures Accepted(nameInput).Some? ==> newName == Accepted(nameInput) && dialogResult == Some(true)
      ensures Accepted(nameInput).None? ==> newName == old(newName) && dialogResult == old(dialogResult)
    {
      if !IsBlank(nameInput) {
        newName := Accepted(nameInput);
        dialogResult := Some(true);
      }
    }

    /** Cancel: closes the dialog with failure and leaves NewName as it was. */
    method CancelClick()
      requires Valid()
      modifies this`dialogResult
      ensures Valid()
      ensures dialogResult == Some(false)
    {
      dialogResult := Some(false);
    }
  }
}
