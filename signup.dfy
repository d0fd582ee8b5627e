/**
 * The sign-up page: the form state, the field-by-field validation, the input
 * handler and the submit gate.
 */
module SignUp {
  import opened Wrappers
  import opened Text
  import opened EmailPattern
  import opened FormRules

  const SignupPath := "/api/auth/signup"
  const MinPasswordLength := 8

  const NameRequired := "Name is required"
  const PasswordShort := "Password must be at least 8 characters"
  const PasswordsDiffer := "Passwords do not match"

  /** The four inputs of the form. */
  datatype Field = Name | Email | Password | ConfirmPassword

  /** The keys of the error object: one per input, and `server` for a failed request. */
  datatype ErrorKey = On(field: Field) | Server

  datatype SignupForm = SignupForm(name: string, email: string, password: string, confirmPassword: string) {
    function Get(f: Field): string {
      match f
      case Name => name
      case Email => email
      case Password => password
      case ConfirmPassword => confirmPassword
    }

    /** `{...formData, [name]: value}`: the named field takes the value, the others keep theirs. */
    function With(f: Field, value: string): (r: SignupForm)
      ensures r.Get(f) == value
      ensures forall g :: g != f ==> r.Get(g) == Get(g)
    {
      match f
      case Name => this.(name := value)
      case Email => this.(email := value)
      case Password => this.(password := value)
      case ConfirmPassword => this.(confirmPassword := value)
    }
  }

  /** The password rule: required, then at least 8 UTF-16 code units. */
  function PasswordError(password: string): (r: Option<string>)
    ensures r.None? <==> Utf16Length(password) >= MinPasswordLength
    ensures r == Some(PasswordRequired) <==> password == []
    ensures r.Some? ==> r.value == PasswordRequired || r.value == PasswordShort
  {
    if password == [] then Some(PasswordRequired)
    else if Utf16Length(password) < MinPasswordLength then Some(PasswordShort)
    else None
  }

  /** The error one field gets; each field gets at most one. */
  function FieldError(form: SignupForm, f: Field): Option<string> {
    match f
    case Name => if Trim(form.name) == [] then Some(NameRequired) else None
    case Email => EmailError(form.email)
    case Password => PasswordError(form.password)
    case ConfirmPassword => if form.password != form.confirmPassword then Some(PasswordsDiffer) else None
  }

  /** What each field's check demands, in terms of the text of the form. */
  lemma FieldRules(form: SignupForm)
    ensures FieldError(form, Name).Some? <==> Blank(form.name)
    ensures FieldError(form, Name).Some? ==> FieldError(form, Name).value == NameRequired
    ensures FieldError(form, Email).None? <==> Matches(form.email)
    ensures FieldError(form, Password).None? <==> Utf16Length(form.password) >= MinPasswordLength
    ensures FieldError(form, ConfirmPassword).Some? <==> form.password != form.confirmPassword
    ensures FieldError(form, ConfirmPassword).Some? ==> FieldError(form, ConfirmPassword).value == PasswordsDiffer
  {
    TrimEmptyIffBlank(form.name);
    EmailRules(form.email);
  }

  /** An error object holding, under each input's key, that input's error if it has one. */
  function Collect(name: Option<string>, email: Option<string>, password: Option<string>, confirm: Option<string>)
    : (r: map<ErrorKey, string>)
    ensures On(Name) in r <==> name.Some?
    ensures On(Email) in r <==> email.Some?
    ensures On(Password) in r <==> password.Some?
    ensures On(ConfirmPassword) in r <==> confirm.Some?
    ensures Server !in r
    ensures name.Some? ==> r[On(Name)] == name.value
    ensures email.Some? ==> r[On(Email)] == email.value
    ensures password.Some? ==> r[On(Password)] == password.value
    ensures confirm.Some? ==> r[On(ConfirmPassword)] == confirm.value
  {
    var m0 := if name.Some? then map[On(Name) := name.value] else map[];
    var m1 := if email.Some? then m0[On(Email) := email.value] else m0;
    var m2 := if password.Some? then m1[On(Password) := password.value] else m1;
    if confirm.Some? then m2[On(ConfirmPassword) := confirm.value] else m2
  }

  /** The object `validateForm` returns. */
  function Errors(form: SignupForm): map<ErrorKey, string> {
    Collect(FieldError(form, Name), FieldError(form, Email), FieldError(form, Password), FieldError(form, ConfirmPassword))
  }

  /** The error object has an entry for exactly the fields that have an error, holding that error. */
  lemma ErrorsByField(form: SignupForm)
    ensures forall f :: On(f) in Errors(form) <==> FieldError(form, f).Some?
    ensures forall f :: On(f) in Errors(form) ==> Errors(form)[On(f)] == FieldError(form, f).value
    ensures Server !in Errors(form)
  {
    forall f
      ensures On(f) in Errors(form) <==> FieldError(form, f).Some?
      ensures On(f) in Errors(form) ==> Errors(form)[On(f)] == FieldError(form, f).value
    {
      match f
      case Name =>
      case Email =>
      case Password =>
      case ConfirmPassword =>
    }
  }

  /** Every check passes. */
  ghost predicate Acceptable(form: SignupForm) {
    !Blank(form.name) && Matches(form.email) && Utf16Length(form.password) >= MinPasswordLength &&
    form.password == form.confirmPassword
  }

  /** The error object is empty exactly when every check passes. */
  lemma ErrorsEmptyIffAcceptable(form: SignupForm)
    ensures Errors(form) == map[] <==> Acceptable(form)
  {
    var e := Errors(form);
    ErrorsByField(form);
    FieldRules(form);
    if !Acceptable(form) {
      if Blank(form.name) {
        assert On(Name) in e;
      } else if !Matches(form.email) {
        assert On(Email) in e;
      } else if Utf16Length(form.password) < MinPasswordLength {
        assert On(Password) in e;
      } else {
        assert On(ConfirmPassword) in e;
      }
    } else {
      assert forall k :: k !in e by {
        forall k ensures k !in e {
          if k.On? {
            assert FieldError(form, k.field).None?;
          }
        }
      }
    }
  }

  /** The mismatch error depends on the two password fields only, whatever the other checks say. */
  lemma MismatchIndependent(form: SignupForm, other: SignupForm)
    requires form.password == other.password && form.confirmPassword == other.confirmPassword
    ensures (On(ConfirmPassword) in Errors(form)) == (On(ConfirmPassword) in Errors(other))
  {
    ErrorsByField(form);
    ErrorsByField(other);
    assert FieldError(form, ConfirmPassword) == FieldError(other, ConfirmPassword);
  }

  /** `validateForm`: fills a fresh error object field by field. */
  method ValidateForm(form: SignupForm) returns (errors: map<ErrorKey, string>)
    ensures errors == Errors(form)
  {
    ghost var name, email, password, confirm :=
      FieldError(form, Name), FieldError(form, Email), FieldError(form, Password), FieldError(form, ConfirmPassword);
    errors := map[];
    if Trim(form.name) == [] {
      errors := errors[On(Name) := NameRequired];
    }
    assert errors == if name.Some? then map[On(Name) := name.value] else map[];
    ghost var m0 := errors;
    if Trim(form.email) == [] {
      errors := errors[On(Email) := EmailRequired];
    } else if !IsEmail(form.email) {
      errors := errors[On(Email) := EmailInvalid];
    }
    assert errors == if email.Some? then m0[On(Email) := email.value] else m0;
    ghost var m1 := errors;
    if form.password == [] {
      errors := errors[On(Password) := PasswordRequired];
    } else if Utf16Length(form.password) < MinPasswordLength {
      errors := errors[On(Password) := PasswordShort];
    }
    assert errors == if password.Some? then m1[On(Password) := password.value] else m1;
    ghost var m2 := errors;
    if form.password != form.confirmPassword {
      errors := errors[On(ConfirmPassword) := PasswordsDiffer];
    }
    assert errors == if confirm.Some? then m2[On(ConfirmPassword) := confirm.value] else m2;
  }

  /** The request `handleSubmit` posts. The page spells the option `authentictate`, so the interceptor sees no `authenticate` option. */
  datatype SignupRequest = SignupRequest(path: string, body: SignupForm, authenticate: Option<bool>)

  datatype PostOutcome = Succeeded | Failed

  class SignUpPage {
    var form: SignupForm
    var errors: map<ErrorKey, Option<string>>
    var isSubmitting: bool
    var submitSuccess: bool

    constructor ()
      ensures form == SignupForm("", "", "", "") && errors == map[]
      ensures !isSubmitting && !submitSuccess
    {
      form := SignupForm("", "", "", "");
      errors := map[];
      isSubmitting, submitSuccess := false, false;
    }

    /** `handleChange`: stores the value and clears that field's error, if one is shown. */
    method HandleChange(f: Field, value: string)
      modifies this
      ensures form == old(form).With(f, value)
      ensures errors == if ErrorShown(old(errors), On(f)) then old(errors)[On(f) := None] else old(errors)
      ensures isSubmitting == old(isSubmitting) && submitSuccess == old(submitSuccess)
    {
      form := form.With(f, value);
      if ErrorShown(errors, On(f)) {
        errors := errors[On(f) := None];
      }
    }

    /**
     * `handleSubmit`: a request is sent only when validation finds nothing;
     * otherwise the errors are stored. `outcome` is what the server answers.
     */
    method HandleSubmit(outcome: PostOutcome) returns (sent: Option<SignupRequest>)
      modifies this
      ensures form == old(form)
      ensures sent.Some? <==> Errors(old(form)) == map[]
      ensures sent.None? ==>
        errors == Shown(Errors(old(form))) &&
        isSubmitting == old(isSubmitting) && submitSuccess == old(submitSuccess)
      ensures sent.Some? ==> sent.value == SignupRequest(SignupPath, old(form), None) && !isSubmitting
      ensures sent.Some? && outcome == Succeeded ==> submitSuccess && errors == old(errors)
      ensures sent.Some? && outcome == Failed ==>
        errors == map[Server := Some(NetworkError)] && submitSuccess == old(submitSuccess)
    {
      var formErrors := ValidateForm(form);
      if |formErrors| > 0 {
        errors := Shown(formErrors);
        return None;
      }
      isSubmitting := true;
      sent := Some(SignupRequest(SignupPath, form, None));
      if outcome == Succeeded {
        submitSuccess := true;
      } else {
        errors := map[Server := Some(NetworkError)];
      }
      isSubmitting := false;
    }
  }
}
