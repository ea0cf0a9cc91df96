/** The forgotten-password page (src/pages/auth/ForgotPasswordPage.tsx):
    `validateForm` checks the address, and `handleSubmit` asks for a reset
    mail only for a valid one, showing the confirmation once the request
    has gone through. Whether the request succeeds is a parameter. */
module ForgotPasswordPage {
  import opened Common
  import opened AuthForms

  /** The one check of `validateForm`. */
  function Checks(email: string): seq<(Field, Option<FieldError>)>
  {
    [(Email, EmailError(email))]
  }

  /** `validateForm`'s dictionary is empty, holds only 'required' (for an
      empty address) or holds only 'malformed' (for an address of the wrong
      shape): never both, and empty exactly for an address of the right
      shape. */
  lemma ErrorsMeaning(email: string)
    ensures var e := Collected(Checks(email));
      (e == map[] <==> LooksLikeEmail(email))
      && (e == map[Email := Required] <==> email == [])
      && (e == map[Email := Malformed] <==> email != [] && !LooksLikeEmail(email))
  {
    CollectedOne((Email, EmailError(email)));
    EmailErrorMeaning(email);
    var e := Collected(Checks(email));
    assert Email in map[Email := Required] && Email in map[Email := Malformed];
    assert map[Email := Required][Email] != map[Email := Malformed][Email];
  }

  /** `validateForm`'s dictionary. */
  method ForgotErrors(email: string) returns (newErrors: map<Field, FieldError>)
    ensures newErrors == Collected(Checks(email))
  {
    newErrors := map[];
    newErrors := CheckEmail(newErrors, email);
    CollectedOne((Email, EmailError(email)));
  }

  class Page {
    var email: string
    var isSubmitted: bool
    var errors: map<Field, FieldError>
    var resetRequests: seq<string>

    constructor ()
      ensures email == "" && !isSubmitted && errors == map[] && resetRequests == []
    {
      email := "";
      isSubmitted := false;
      errors := map[];
      resetRequests := [];
    }

    /** The address input's `onChange` handler. */
    method Edit(newEmail: string)
      modifies this
      ensures email == newEmail && isSubmitted == old(isSubmitted)
      ensures errors == old(errors) && resetRequests == old(resetRequests)
    {
      email := newEmail;
    }

    /** `validateForm`: the dictionary replaces the shown errors, and the
        address is valid exactly when it is empty. */
    method ValidateForm() returns (ok: bool)
      modifies this
      ensures email == old(email) && isSubmitted == old(isSubmitted) && resetRequests == old(resetRequests)
      ensures errors == Collected(Checks(email))
      ensures ok <==> errors == map[]
      ensures ok <==> LooksLikeEmail(email)
    {
      var newErrors := ForgotErrors(email);
      ErrorsMeaning(email);
      ok := newErrors == map[];
      errors := newErrors;
    }

    /** `handleSubmit`: `resetPassword` is called only for a valid address,
        and the confirmation is shown only when that call resolves
        (`resetOk`); a failed call leaves the flag as it was. */
    method HandleSubmit(resetOk: bool)
      modifies this
      ensures email == old(email)
      ensures errors == Collected(Checks(email))
      ensures errors == map[] <==> LooksLikeEmail(email)
      ensures resetRequests == if LooksLikeEmail(email) then old(resetRequests) + [email] else old(resetRequests)
      ensures isSubmitted == (old(isSubmitted) || (LooksLikeEmail(email) && resetOk))
    {
      var ok := ValidateForm();
      if !ok {
        return;
      }
      resetRequests := resetRequests + [email];
      if resetOk {
        isSubmitted := true;
      }
    }
  }
}
