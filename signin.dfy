/**
 * The sign-in page: the form state, its validation, the input handler, and
 * what a submission does with the server's answer.
 */
module SignIn {
  import opened Wrappers
  import opened Text
  import opened EmailPattern
  import opened FormRules
  import opened Browser
  import Http
  import SignUp

  const SigninPath := "/api/auth/login"

  const UserNotFound := "User not found. Please check your email."
  const WrongPassword := "Invalid password. Please try again."

  datatype Field = Email | Password

  /** The keys of the error object: one per input, and `server` for a failed request. */
  datatype ErrorKey = On(field: Field) | Server

  datatype SigninForm = SigninForm(email: string, password: string) {
    /** `{...formData, [name]: value}`. */
    function With(f: Field, value: string): (r: SigninForm)
      ensures f == Email ==> r.email == value && r.password == password
      ensures f == Password ==> r.password == value && r.email == email
    {
      match f
      case Email => this.(email := value)
      case Password => this.(password := value)
    }
  }

  /** The error one field gets. The password is only required to be non-empty. */
  function FieldError(form: SigninForm, f: Field): Option<string> {
    match f
    case Email => EmailError(form.email)
    case Password => if form.password == [] then Some(PasswordRequired) else None
  }

  /** What each field's check demands, in terms of the text of the form. */
  lemma FieldRules(form: SigninForm)
    ensures FieldError(form, Email).None? <==> Matches(form.email)
    ensures FieldError(form, Email).Some? ==>
              FieldError(form, Email).value == (if Blank(form.email) then EmailRequired else EmailInvalid)
    ensures FieldError(form, Password).None? <==> form.password != []
  {
    EmailRules(form.email);
  }

  /** An error object holding, under each input's key, that input's error if it has one. */
  function Collect(email: Option<string>, password: Option<string>): (r: map<ErrorKey, string>)
    ensures On(Email) in r <==> email.Some?
    ensures On(Password) in r <==> password.Some?
    ensures Server !in r
    ensures email.Some? ==> r[On(Email)] == email.value
    ensures password.Some? ==> r[On(Password)] == password.value
  {
    var m := if email.Some? then map[On(Email) := email.value] else map[];
    if password.Some? then m[On(Password) := password.value] else m
  }

  /** The object `validateForm` returns. */
  function Errors(form: SigninForm): map<ErrorKey, string> {
    Collect(FieldError(form, Email), FieldError(form, Password))
  }

  /** The error object is empty exactly when the e-mail matches and a password was typed. */
  lemma ErrorsEmptyIffAcceptable(form: SigninForm)
    ensures Errors(form) == map[] <==> Matches(form.email) && form.password != []
  {
    var e := Errors(form);
    FieldRules(form);
    if Matches(form.email) && form.password != [] {
      assert forall k :: k !in e by {
        forall k ensures k !in e {
          if k.On? {
            match k.field
            case Email =>
            case Password =>
          }
        }
      }
    } else if !Matches(form.email) {
      assert On(Email) in e;
    } else {
      assert On(Password) in e;
    }
  }

  /** `validateForm`: fills a fresh error object field by field. */
  method ValidateForm(form: SigninForm) returns (errors: map<ErrorKey, string>)
    ensures errors == Errors(form)
  {
    ghost var email := FieldError(form, Email);
    errors := map[];
    if Text.Trim(form.email) == [] {
      errors := errors[On(Email) := EmailRequired];
    } else if !IsEmail(form.email) {
      errors := errors[On(Email) := EmailInvalid];
    }
    assert errors == if email.Some? then map[On(Email) := email.value] else map[];
    ghost var m := errors;
    if form.password == [] {
      errors := errors[On(Password) := PasswordRequired];
    }
    assert errors == if form.password == [] then m[On(Password) := PasswordRequired] else m;
  }

  /** The request `handleSubmit` posts; the page spells the option `authentictate`, so `authenticate` is absent. */
  datatype SigninRequest = SigninRequest(path: string, body: SigninForm, authenticate: Option<bool>)

  /** What the request resolves or rejects with, after the response interceptor. */
  datatype SigninReply =
    | SignedIn(token: string, user: Http.PublicUser)   // a 2xx answer, unwrapped
    | HttpError(status: int)                          // `err.response` is present
    | NoResponse                                      // the request never got an answer

  /** The server message `handleSubmit` shows for a failed request. */
  function FailureMessage(reply: SigninReply): (m: string)
    requires !reply.SignedIn?
    ensures reply == HttpError(404) <==> m == UserNotFound
    ensures reply == HttpError(400) <==> m == WrongPassword
    ensures m == NetworkError <==> reply.NoResponse? || (reply.status != 404 && reply.status != 400)
  {
    if reply.HttpError? && reply.status == 404 then UserNotFound
    else if reply.HttpError? && reply.status == 400 then WrongPassword
    else NetworkError
  }

  class SignInPage {
    var form: SigninForm
    var errors: map<ErrorKey, Option<string>>
    var isSubmitting: bool

    constructor ()
      ensures form == SigninForm("", "") && errors == map[] && !isSubmitting
    {
      form := SigninForm("", "");
      errors := map[];
      isSubmitting := false;
    }

    /** `handleChange`: stores the value and clears that field's error, if one is shown. */
    method HandleChange(f: Field, value: string)
      modifies this
      ensures form == old(form).With(f, value)
      ensures errors == if ErrorShown(old(errors), On(f)) then old(errors)[On(f) := None] else old(errors)
      ensures isSubmitting == old(isSubmitting)
    {
      form := form.With(f, value);
      if ErrorShown(errors, On(f)) {
        errors := errors[On(f) := None];
      }
    }

    /**
     * `handleSubmit`. Nothing is sent while validation reports errors. On
     * success the token and the serialised user go to session storage; on
     * failure the status picks the message. `stringify` is `JSON.stringify`.
     */
    method HandleSubmit(reply: SigninReply, stringify: Http.PublicUser -> string, storage: SessionStorage)
      returns (sent: Option<SigninRequest>)
      modifies this, storage
      ensures form == old(form)
      ensures sent.Some? <==> Errors(old(form)) == map[]
      ensures sent.None? ==>
        errors == Shown(Errors(old(form))) && isSubmitting == old(isSubmitting) &&
        storage.items == old(storage.items)
      ensures sent.Some? ==> sent.value == SigninRequest(SigninPath, old(form), None) && !isSubmitting
      ensures sent.Some? && reply.SignedIn? ==>
        storage.items == old(storage.items)[TokenKey := reply.token][UserKey := stringify(reply.user)] &&
        errors == old(errors)
      ensures sent.Some? && !reply.SignedIn? ==>
        errors == map[Server := Some(FailureMessage(reply))] && storage.items == old(storage.items)
    {
      var formErrors := ValidateForm(form);
      if |formErrors| > 0 {
        errors := Shown(formErrors);
        return None;
      }
      assert formErrors == map[];
      isSubmitting := true;
      sent := Some(SigninRequest(SigninPath, form, None));
      if reply.SignedIn? {
        storage.SetItem(TokenKey, reply.token);
        storage.SetItem(UserKey, stringify(reply.user));
      } else {
        var errorMessage := NetworkError;
        if reply.HttpError? {
          if reply.status == 404 {
            errorMessage := UserNotFound;
          } else if reply.status == 400 {
            errorMessage := WrongPassword;
          }
        }
        assert errorMessage == FailureMessage(reply);
        errors := map[Server := Some(errorMessage)];
      }
      isSubmitting := false;
    }
  }

  /** Both pages apply the same e-mail rule: the sign-in error for an address is the sign-up error for it. */
  lemma SameEmailRuleAsSignUp(email: string, name: string, password: string, confirm: string)
    ensures FieldError(SigninForm(email, password), Email) ==
            SignUp.FieldError(SignUp.SignupForm(name, email, password, confirm), SignUp.Email)
  {
  }

  /** Sign-in has no length rule: a one-character password passes where sign-up would refuse it. */
  lemma NoLengthRule(c: char)
    ensures FieldError(SigninForm("", [c]), Password).None?
    ensures SignUp.FieldError(SignUp.SignupForm("", "", [c], [c]), SignUp.Password).Some?
  {
  }
}
