/** The checks the add-program dialog (`AddProgramDialog`) makes before it accepts. */
module AddDialog {
  import PyText

  /** Whether the dialog closes, or which message it shows and stays open with. */
  datatype Verdict = Accepted | PathMissing | NameBlank

  /**
   * `validate_and_accept`: the path must be non-empty and exist, checked
   * first; then the name must not be blank.
   */
  function ValidateAndAccept(name: string, path: string, pathExists: string -> bool): Verdict {
    if path == "" || !pathExists(path) then PathMissing
    else if PyText.IsBlank(name) then NameBlank
    else Accepted
  }

  /**
   * The dialog accepts exactly a non-empty, existing path with a name that
   * has a character other than whitespace; a bad path is reported whatever
   * the name.
   */
  lemma AcceptedExactlyWhenValid(name: string, path: string, pathExists: string -> bool)
    ensures ValidateAndAccept(name, path, pathExists) == Accepted
        <==> path != "" && pathExists(path) && exists j :: 0 <= j < |name| && !PyText.IsSpace(name[j])
    ensures ValidateAndAccept(name, path, pathExists) == PathMissing <==> path == "" || !pathExists(path)
    ensures ValidateAndAccept(name, path, pathExists) == NameBlank
        <==> path != "" && pathExists(path) && forall j :: 0 <= j < |name| ==> PyText.IsSpace(name[j])
  {
    PyText.BlankIffAllSpace(name);
  }
}
