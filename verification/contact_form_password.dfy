/** The password form of the routed variant. */
module ContactFormPassword {
  import opened Common

  /** What one press of "Unlock Session" leaves behind: whether the parent was
      told the visitor is authenticated, and the text still in the input. */
  datatype Attempt = Attempt(granted: bool, entered: string)

  /** `handlePasswordSubmit`: the parent's callback runs exactly when the
      entered text equals the session password, with no trimming and no case
      folding; the typed text is kept either way. */
  function HandleSubmit(entered: string, sessionPassword: Option<string>): (a: Attempt)
    ensures a.granted <==> sessionPassword == Some(entered)
    ensures a.entered == entered
  {
    Attempt(sessionPassword.Some? && entered == sessionPassword.value, entered)
  }

  /** Case and surrounding spaces matter. */
  lemma ComparisonIsExact()
    ensures !HandleSubmit("ABC", Some("abc")).granted
    ensures !HandleSubmit(" abc", Some("abc")).granted
    ensures HandleSubmit("abc", Some("abc")).granted
  {
    assert "ABC" != "abc" by { assert "ABC"[0] != "abc"[0]; }
    assert " abc" != "abc" by { assert |" abc"| != |"abc"|; }
  }
}
