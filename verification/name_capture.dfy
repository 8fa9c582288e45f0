/** The name step: the typed name is stored as typed; submitting checks
    that it is not blank. */
module NameCapture {
  import opened Strings

  const EmptyNameError := "Please enter your name"

  /** The error `handleSubmit` shows, "" when the name is accepted. */
  function NameError(name: string): (error: string)
    ensures error == "" || error == EmptyNameError
  {
    if Trim(name) == "" then EmptyNameError else ""
  }

  /** A name is refused exactly when it consists of white space only. */
  lemma NameErrorIffBlank(name: string)
    ensures NameError(name) == EmptyNameError <==> AllSpace(name)
    ensures NameError(name) == "" <==> !AllSpace(name)
  {
    TrimEmptyIffBlank(name);
  }
}
