/** The new-password page (src/pages/auth/ResetPasswordPage.tsx):
    `validateForm` checks the new password and its confirmation, and
    `handleSubmit` calls `updatePassword` only when both pass, raising the
    success flag once the call has gone through. Whether it succeeds is a
    parameter. */
module ResetPasswordPage {
  import opened Common
  import opened AuthForms

  datatype ResetForm = ResetForm(password: string, confirmPassword: string)

  /** The checks of `validateForm`, in order. */
  function Checks(form: ResetForm): seq<(Field, Option<FieldError>)>
  {
    [(Password, NewPasswordError(form.password)), (ConfirmPassword, ConfirmError(form.password, form.confirmPassword))]
  }

  /** A form `validateForm` lets through. */
  predicate Acceptable(form: ResetForm)
  {
    |form.password| >= 6 && form.confirmPassword == form.password
  }

  /** `validateForm`'s dictionary holds at most a password error and a
      confirmation error, 'required' taking precedence over the length and
      mismatch errors, and is empty exactly for an acceptable form. */
  lemma ErrorsMeaning(form: ResetForm)
    ensures var e := Collected(Checks(form));
      (forall f :: f in e ==> f == Password || f == ConfirmPassword)
      && (Password in e <==> |form.password| < 6)
      && (Password in e ==> e[Password] == if form.password == [] then Required else TooShort)
      && (ConfirmPassword in e <==> form.confirmPassword == [] || form.password != form.confirmPassword)
      && (ConfirmPassword in e ==> e[ConfirmPassword] == if form.confirmPassword == [] then Required else Mismatch)
    ensures Collected(Checks(form)) == map[] <==> Acceptable(form)
  {
    var checks := Checks(form);
    assert DistinctFields(checks);
    CollectedMeaning(checks);
    var e := Collected(checks);
    assert Lookup(e, Password) == NewPasswordError(form.password) by { assert checks[0].0 == Password; }
    assert Lookup(e, ConfirmPassword) == ConfirmError(form.password, form.confirmPassword) by {
      assert checks[1].0 == ConfirmPassword;
    }
    forall f | f in e
      ensures f == Password || f == ConfirmPassword
    {
      var i :| 0 <= i < |checks| && checks[i].0 == f;
    }
    PasswordRulesMeaning(form.password, form.confirmPassword);
  }

  /** `validateForm`'s dictionary, filled by the checks in order. */
  method ResetErrors(form: ResetForm) returns (newErrors: map<Field, FieldError>)
    ensures newErrors == Collected(Checks(form))
  {
    newErrors := map[];
    newErrors := CheckNewPassword(newErrors, form.password);
    newErrors := CheckConfirm(newErrors, form.password, form.confirmPassword);
    CollectedTwo(Checks(form));
  }

  class Page {
    var form: ResetForm
    var errors: map<Field, FieldError>
    var isSuccess: bool
    var updates: seq<string>

    constructor ()
      ensures form == ResetForm("", "") && errors == map[] && !isSuccess && updates == []
    {
      form := ResetForm("", "");
      errors := map[];
      isSuccess := false;
      updates := [];
    }

    /** The inputs' `onChange` handlers. */
    method Edit(newForm: ResetForm)
      modifies this
      ensures form == newForm && errors == old(errors) && isSuccess == old(isSuccess) && updates == old(updates)
    {
      form := newForm;
    }

    /** `validateForm`: the dictionary replaces the shown errors, and the
        form is valid exactly when it is empty. */
    method ValidateForm() returns (ok: bool)
      modifies this
      ensures form == old(form) && isSuccess == old(isSuccess) && updates == old(updates)
      ensures errors == Collected(Checks(form))
      ensures ok <==> errors == map[]
      ensures ok <==> Acceptable(form)
    {
      var newErrors := ResetErrors(form);
      ErrorsMeaning(form);
      ok := newErrors == map[];
      errors := newErrors;
    }

    /** `handleSubmit`: `updatePassword` is called with the new password
        only for a valid form, and the success flag is raised only when that
        call resolves (`updateOk`). */
    method HandleSubmit(updateOk: bool)
      modifies this
      ensures form == old(form)
      ensures errors == Collected(Checks(form))
      ensures errors == map[] <==> Acceptable(form)
      ensures updates == if Acceptable(form) then old(updates) + [form.password] else old(updates)
      ensures isSuccess == (old(isSuccess) || (Acceptable(form) && updateOk))
      ensures |updates| > |old(updates)| ==> |updates[|updates| - 1]| >= 6
    {
      var ok := ValidateForm();
      if !ok {
        return;
      }
      updates := updates + [form.password];
      if updateOk {
        isSuccess := true;
      }
    }
  }
}
