/** What the menus make of the lines a user types, and the one-shot status texts. */
module Prompts {
  import opened Tags

  /** Rust's `str::parse::<char>`: succeeds exactly on a one-character line. */
  function ParseChar(line: string): (r: Option<char>)
    ensures r.Some? <==> |line| == 1
    ensures r.Some? ==> r.value == line[0]
  {
    if |line| == 1 then Some(line[0]) else None
  }

  /** The character a top-level menu dispatches on: `_` for a line that is not one character. */
  function Selection(line: string): char {
    ParseChar(line).GetOr('_')
  }

  /** A `y/N` question: only a lone `y` or `Y` agrees; everything else reads as `n`. */
  predicate Confirmed(answer: string) {
    ParseChar(answer).GetOr('n') in {'y', 'Y'}
  }

  /** The `Continue editing? Y/n` question: only a lone `n` or `N` stops; everything else reads as `y`. */
  predicate Declined(answer: string) {
    ParseChar(answer).GetOr('y') in {'n', 'N'}
  }

  lemma ConfirmedExactly(answer: string)
    ensures Confirmed(answer) <==> answer == "y" || answer == "Y"
  {
    if Confirmed(answer) {
      assert |answer| == 1;
      assert answer == [answer[0]];
    }
  }

  lemma DeclinedExactly(answer: string)
    ensures Declined(answer) <==> answer == "n" || answer == "N"
  {
    if Declined(answer) {
      assert |answer| == 1;
      assert answer == [answer[0]];
    }
  }

  /** The one-shot status line: set by a command, shown once on the next menu render, then cleared. */
  datatype Status =
    | Clear
    | SaveSuccessful
    | NotANumber
    | FileWriteWarning
    | DirectoryWriteWarning
    | TooManyFiles
    | InvalidSelection
    | InvalidOption
  {
    /** The text shown; an empty text shows nothing. */
    function Text(): string {
      match this
      case Clear => ""
      case SaveSuccessful => "Save Successful!"
      case NotANumber => "Error: Not a number"
      case FileWriteWarning =>
        "WARNING!\n\n" + WarningIndent + "Failed to write tag data. Returning to selection\n\n"
        + WarningIndent + "Please verify the provided file still exists"
      case DirectoryWriteWarning =>
        "WARNING!\n\n" + WarningIndent + "Failed to write tag data. Returning to selection\n\n"
        + WarningIndent + "Please verify the provided directory is intact!"
      case TooManyFiles => "Error: Too many files???"
      case InvalidSelection => "Error: Invalid selection"
      case InvalidOption => "Error: Invalid option"
    }
  }

  /** The 28 spaces the write warnings carry at the start of their later lines. */
  const WarningIndent: string := "                            "
}
