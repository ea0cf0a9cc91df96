/** The registration page (src/pages/auth/RegisterPage.tsx): `validateForm`
    fills a dictionary of field errors, and `handleSubmit` calls `signUp`
    only when it stays empty. The sign-up call itself is recorded, not run. */
module RegisterPage {
  import opened Common
  import opened AuthForms

  datatype RegisterForm = RegisterForm(
    ime: string,
    priimek: string,
    email: string,
    telefon: string,
    password: string,
    confirmPassword: string)

  /** The arguments of a `signUp` call; an empty telephone is passed as
      `undefined`. */
  datatype SignUp = SignUp(email: string, password: string, ime: string, priimek: string, telefon: Option<string>)

  /** The telephone is optional; when given it may hold only digits,
      whitespace and `+ - ( )`. */
  function TelefonError(telefon: string): Option<FieldError>
  {
    if telefon != [] && !LooksLikeTelefon(telefon) then Some(Malformed) else None
  }

  /** The checks of `validateForm`, in order. */
  function Checks(form: RegisterForm): seq<(Field, Option<FieldError>)>
  {
    [(Ime, NameError(form.ime)), (Priimek, NameError(form.priimek)), (Email, EmailError(form.email)),
     (Password, NewPasswordError(form.password)), (ConfirmPassword, ConfirmError(form.password, form.confirmPassword)),
     (Telefon, TelefonError(form.telefon))]
  }

  /** A form `validateForm` lets through. */
  predicate Acceptable(form: RegisterForm)
  {
    Trim(form.ime) != [] && Trim(form.priimek) != []
    && LooksLikeEmail(form.email)
    && |form.password| >= 6
    && form.confirmPassword != [] && form.password == form.confirmPassword
    && (form.telefon == [] || LooksLikeTelefon(form.telefon))
  }

  /** Each field's entry is that field's rule's verdict. */
  lemma ErrorsByField(form: RegisterForm)
    ensures Lookup(Collected(Checks(form)), Ime) == NameError(form.ime)
    ensures Lookup(Collected(Checks(form)), Priimek) == NameError(form.priimek)
    ensures Lookup(Collected(Checks(form)), Email) == EmailError(form.email)
    ensures Lookup(Collected(Checks(form)), Password) == NewPasswordError(form.password)
    ensures Lookup(Collected(Checks(form)), ConfirmPassword) == ConfirmError(form.password, form.confirmPassword)
    ensures Lookup(Collected(Checks(form)), Telefon) == TelefonError(form.telefon)
  {
    SixFields(NameError(form.ime), NameError(form.priimek), EmailError(form.email),
      NewPasswordError(form.password), ConfirmError(form.password, form.confirmPassword), TelefonError(form.telefon));
  }

  /** The dictionary the six checks of `validateForm` build holds, under each
      field, that field's verdict, whatever the verdicts are. */
  lemma SixFields(ime: Option<FieldError>, priimek: Option<FieldError>, email: Option<FieldError>,
                  password: Option<FieldError>, confirm: Option<FieldError>, telefon: Option<FieldError>)
    ensures var e := Collected([(Ime, ime), (Priimek, priimek), (Email, email),
                                (Password, password), (ConfirmPassword, confirm), (Telefon, telefon)]);
      Lookup(e, Ime) == ime && Lookup(e, Priimek) == priimek && Lookup(e, Email) == email
      && Lookup(e, Password) == password && Lookup(e, ConfirmPassword) == confirm && Lookup(e, Telefon) == telefon
  {
    var checks := [(Ime, ime), (Priimek, priimek), (Email, email),
                   (Password, password), (ConfirmPassword, confirm), (Telefon, telefon)];
    assert DistinctFields(checks);
    CollectedAt(checks, 0);
    CollectedAt(checks, 1);
    CollectedAt(checks, 2);
    CollectedAt(checks, 3);
    CollectedAt(checks, 4);
    CollectedAt(checks, 5);
  }

  /** The dictionary is empty exactly for a form every rule passes. */
  lemma NoErrorsIffAcceptable(form: RegisterForm)
    ensures Collected(Checks(form)) == map[] <==> Acceptable(form)
  {
    var e := Collected(Checks(form));
    ErrorsByField(form);
    if Acceptable(form) {
      forall f
        ensures f !in e
      {
        match f
        case Ime => assert Lookup(e, Ime) == None;
        case Priimek => assert Lookup(e, Priimek) == None;
        case Email => assert Lookup(e, Email) == None;
        case Password => assert Lookup(e, Password) == None;
        case ConfirmPassword => assert Lookup(e, ConfirmPassword) == None;
        case Telefon => assert Lookup(e, Telefon) == None;
      }
      assert e == map[];
    }
    if e == map[] {
      assert Lookup(e, Ime) == None && Lookup(e, Priimek) == None && Lookup(e, Email) == None;
      assert Lookup(e, Password) == None && Lookup(e, ConfirmPassword) == None && Lookup(e, Telefon) == None;
    }
  }

  /** `validateForm`'s dictionary: one entry per failing field, with the
      'required' error taking precedence, and empty exactly for an
      acceptable form. */
  lemma ErrorsMeaning(form: RegisterForm)
    ensures var e := Collected(Checks(form));
      (Ime in e <==> Trim(form.ime) == []) && (Priimek in e <==> Trim(form.priimek) == [])
      && (forall f :: f in e && f in {Ime, Priimek} ==> e[f] == Required)
      && (Email in e <==> !LooksLikeEmail(form.email))
      && (Email in e ==> e[Email] == if form.email == [] then Required else Malformed)
      && (Password in e <==> |form.password| < 6)
      && (Password in e ==> e[Password] == if form.password == [] then Required else TooShort)
      && (ConfirmPassword in e <==> form.confirmPassword == [] || form.password != form.confirmPassword)
      && (ConfirmPassword in e ==> e[ConfirmPassword] == if form.confirmPassword == [] then Required else Mismatch)
      && (Telefon in e <==> form.telefon != [] && !LooksLikeTelefon(form.telefon))
      && (Telefon in e ==> e[Telefon] == Malformed)
    ensures Collected(Checks(form)) == map[] <==> Acceptable(form)
  {
    ErrorsByField(form);
    NoErrorsIffAcceptable(form);
  }

  /** The telephone check of `validateForm`. */
  method CheckTelefon(errors: map<Field, FieldError>, telefon: string) returns (r: map<Field, FieldError>)
    ensures r == Put(errors, (Telefon, TelefonError(telefon)))
  {
    r := errors;
    if telefon != [] && !LooksLikeTelefon(telefon) {
      r := r[Telefon := Malformed];
    }
  }

  /** `validateForm`'s dictionary, filled by the checks in order. */
  method RegisterErrors(form: RegisterForm) returns (newErrors: map<Field, FieldError>)
    ensures newErrors == Collected(Checks(form))
  {
    newErrors := map[];
    newErrors := CheckName(newErrors, Ime, form.ime);
    newErrors := CheckName(newErrors, Priimek, form.priimek);
    newErrors := CheckEmail(newErrors, form.email);
    newErrors := CheckNewPassword(newErrors, form.password);
    newErrors := CheckConfirm(newErrors, form.password, form.confirmPassword);
    newErrors := CheckTelefon(newErrors, form.telefon);
    CollectedSix(Checks(form));
  }

  /** `validateForm` apart from showing the dictionary: the form is valid
      exactly when the dictionary is empty, that is, when it is acceptable. */
  method Validated(form: RegisterForm) returns (newErrors: map<Field, FieldError>, ok: bool)
    ensures newErrors == Collected(Checks(form))
    ensures ok <==> newErrors == map[]
    ensures ok <==> Acceptable(form)
  {
    newErrors := RegisterErrors(form);
    NoErrorsIffAcceptable(form);
    ok := newErrors == map[];
  }

  /** The `signUp` call of an accepted form. */
  function SignUpOf(form: RegisterForm): SignUp
  {
    SignUp(form.email, form.password, form.ime, form.priimek, if form.telefon == [] then None else Some(form.telefon))
  }

  /** A form that passes the page's checks also meets the password length
      and confirmation rules, and a telephone it passes on is well formed. */
  lemma AcceptedSignUp(form: RegisterForm)
    requires Acceptable(form)
    ensures var call := SignUpOf(form);
      LooksLikeEmail(call.email) && |call.password| >= 6 && call.password == form.confirmPassword
      && (call.telefon.Some? ==> LooksLikeTelefon(call.telefon.value))
      && (call.telefon.None? <==> form.telefon == [])
  {
  }

  class Page {
    var form: RegisterForm
    var errors: map<Field, FieldError>
    var signUps: seq<SignUp>

    constructor ()
      ensures form == RegisterForm("", "", "", "", "", "") && errors == map[] && signUps == []
    {
      form := RegisterForm("", "", "", "", "", "");
      errors := map[];
      signUps := [];
    }

    /** The inputs' `onChange` handlers: the typed text replaces the form's
        fields. */
    method Edit(newForm: RegisterForm)
      modifies this
      ensures form == newForm && errors == old(errors) && signUps == old(signUps)
    {
      form := newForm;
    }

    /** `validateForm`: the dictionary replaces the shown errors, and the
        form is valid exactly when it is empty. */
    method ValidateForm() returns (ok: bool)
      modifies this
      ensures form == old(form) && signUps == old(signUps)
      ensures ok <==> errors == map[]
      ensures errors == Collected(Checks(form))
      ensures ok <==> Acceptable(form)
    {
      var newErrors;
      newErrors, ok := Validated(form);
      errors := newErrors;
    }

    /** `handleSubmit`: `signUp` is called only for a valid form. */
    method HandleSubmit()
      modifies this
      ensures form == old(form)
      ensures errors == Collected(Checks(form))
      ensures errors == map[] <==> Acceptable(form)
      ensures signUps == if Acceptable(form) then old(signUps) + [SignUpOf(form)] else old(signUps)
    {
      var ok := ValidateForm();
      if !ok {
        return;
      }
      signUps := signUps + [SignUpOf(form)];
    }
  }
}
