/** The sign-in page (src/pages/auth/LoginPage.tsx): `validateForm` checks
    the address and that a password was typed, `handleSubmit` calls
    `signIn` only when no error was found, and the demo buttons fill in
    fixed credentials. The sign-in call itself is recorded, not run. */
module LoginPage {
  import opened Common
  import opened AuthForms

  datatype LoginForm = LoginForm(email: string, password: string)

  /** The arguments of a `signIn` call. */
  datatype SignIn = SignIn(email: string, password: string)

  /** The two demo buttons. */
  datatype DemoRole = Uporabnik | Admin

  /** The checks of `validateForm`, in order. */
  function Checks(form: LoginForm): seq<(Field, Option<FieldError>)>
  {
    [(Email, EmailError(form.email)), (Password, RequiredError(form.password))]
  }

  /** A form `validateForm` lets through. */
  predicate Acceptable(form: LoginForm)
  {
    LooksLikeEmail(form.email) && form.password != []
  }

  /** `validateForm`'s dictionary holds at most an address error and a
      password error: 'required' for an empty field, 'malformed' for an
      address of the wrong shape, and no length rule on the password; it
      is empty exactly for an acceptable form. */
  lemma ErrorsMeaning(form: LoginForm)
    ensures var e := Collected(Checks(form));
      (forall f :: f in e ==> f == Email || f == Password)
      && (Email in e <==> !LooksLikeEmail(form.email))
      && (Email in e ==> e[Email] == if form.email == [] then Required else Malformed)
      && (Password in e <==> form.password == [])
      && (Password in e ==> e[Password] == Required)
    ensures Collected(Checks(form)) == map[] <==> Acceptable(form)
  {
    var checks := Checks(form);
    assert DistinctFields(checks);
    CollectedMeaning(checks);
    var e := Collected(checks);
    assert Lookup(e, Email) == EmailError(form.email) by { assert checks[0].0 == Email; }
    assert Lookup(e, Password) == RequiredError(form.password) by { assert checks[1].0 == Password; }
    forall f | f in e
      ensures f == Email || f == Password
    {
      var i :| 0 <= i < |checks| && checks[i].0 == f;
    }
  }

  /** `validateForm`'s dictionary, filled by the checks in order. */
  method LoginErrors(form: LoginForm) returns (newErrors: map<Field, FieldError>)
    ensures newErrors == Collected(Checks(form))
  {
    newErrors := map[];
    newErrors := CheckEmail(newErrors, form.email);
    newErrors := CheckRequired(newErrors, Password, form.password);
    CollectedTwo(Checks(form));
  }

  /** The credentials a demo button fills in. */
  function DemoForm(role: DemoRole): LoginForm
  {
    match role
    case Uporabnik => LoginForm("test@uporabnik.si", "123456")
    case Admin => LoginForm("admin@restavracija.si", "123456")
  }

  /** Both demo accounts pass the page's checks. */
  lemma DemoFormsAcceptable(role: DemoRole)
    ensures Acceptable(DemoForm(role))
  {
    match role
    case Uporabnik => UporabnikAddress();
    case Admin => AdminAddress();
  }

  lemma UporabnikAddress()
    ensures LooksLikeEmail("test@uporabnik.si")
  {
    assert AddressSplit("test@uporabnik.si", 4, 14);
  }

  lemma AdminAddress()
    ensures LooksLikeEmail("admin@restavracija.si")
  {
    assert AddressSplit("admin@restavracija.si", 5, 18);
  }

  /** Signing in has no length rule: a one-character password that the
      registration rules refuse is let through here. */
  lemma ShortPasswordSignsIn(email: string)
    requires LooksLikeEmail(email)
    ensures Acceptable(LoginForm(email, "x"))
    ensures NewPasswordError("x") == Some(TooShort)
  {
  }

  class Page {
    var form: LoginForm
    var errors: map<Field, FieldError>
    var signIns: seq<SignIn>

    constructor ()
      ensures form == LoginForm("", "") && errors == map[] && signIns == []
    {
      form := LoginForm("", "");
      errors := map[];
      signIns := [];
    }

    /** The inputs' `onChange` handlers. */
    method Edit(newForm: LoginForm)
      modifies this
      ensures form == newForm && errors == old(errors) && signIns == old(signIns)
    {
      form := newForm;
    }

    /** `handleDemoLogin`: the fixed credentials of the chosen account. */
    method HandleDemoLogin(role: DemoRole)
      modifies this
      ensures form == DemoForm(role) && errors == old(errors) && signIns == old(signIns)
    {
      if role == Uporabnik {
        form := LoginForm("test@uporabnik.si", "123456");
      } else {
        form := LoginForm("admin@restavracija.si", "123456");
      }
    }

    /** `validateForm`: the dictionary replaces the shown errors, and the
        form is valid exactly when it is empty. */
    method ValidateForm() returns (ok: bool)
      modifies this
      ensures form == old(form) && signIns == old(signIns)
      ensures errors == Collected(Checks(form))
      ensures ok <==> errors == map[]
      ensures ok <==> Acceptable(form)
    {
      var newErrors := LoginErrors(form);
      ErrorsMeaning(form);
      ok := newErrors == map[];
      errors := newErrors;
    }

    /** `handleSubmit`: `signIn` is called, with the typed credentials, only
        for a valid form. */
    method HandleSubmit()
      modifies this
      ensures form == old(form)
      ensures errors == Collected(Checks(form))
      ensures errors == map[] <==> Acceptable(form)
      ensures signIns == if Acceptable(form) then old(signIns) + [SignIn(form.email, form.password)] else old(signIns)
    {
      var ok := ValidateForm();
      if !ok {
        return;
      }
      signIns := signIns + [SignIn(form.email, form.password)];
    }
  }
}
