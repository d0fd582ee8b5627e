/**
 * The field rules the sign-up and sign-in forms share: the e-mail check and
 * the messages both pages show.
 */
module FormRules {
  import opened Wrappers
  import opened Text
  import opened EmailPattern

  const EmailRequired := "Email is required"
  const EmailInvalid := "Please enter a valid email"
  const PasswordRequired := "Password is required"
  const NetworkError := "Network error. Please try again."

  /**
   * The e-mail field's error, if any. Emptiness is judged on the trimmed text,
   * the pattern on the text as typed.
   */
  function EmailError(email: string): Option<string> {
    if Trim(email) == [] then Some(EmailRequired)
    else if !IsEmail(email) then Some(EmailInvalid)
    else None
  }

  /** No error exactly for a matching address; the required message exactly for a blank one; the invalid message otherwise. */
  lemma EmailRules(email: string)
    ensures EmailError(email).None? <==> Matches(email)
    ensures EmailError(email) == Some(EmailRequired) <==> Blank(email)
    ensures EmailError(email).Some? ==>
              EmailError(email).value == (if Blank(email) then EmailRequired else EmailInvalid)
  {
    TrimEmptyIffBlank(email);
    MatchIsNotBlank(email);
    RunToMatches(email);
  }

  lemma MatchIsNotBlank(s: string)
    ensures Matches(s) ==> !Blank(s)
  {
    if Matches(s) {
      var at :| SplitAt(s, at) && HasInnerDot(s[at + 1..]);
      assert Plain(s[0]);
    }
  }

  /** A form's error map as the page keeps it: `handleChange` overwrites an error with null rather than deleting it. */
  function Shown<K>(errs: map<K, string>): (r: map<K, Option<string>>)
    ensures r.Keys == errs.Keys
    ensures forall k :: k in errs ==> r[k] == Some(errs[k])
  {
    map k | k in errs :: Some(errs[k])
  }

  /** `if (errors[name])`: the field has an error that is a non-empty string. */
  predicate ErrorShown<K>(errors: map<K, Option<string>>, k: K) {
    k in errors && errors[k].Some? && errors[k].value != ""
  }
}
