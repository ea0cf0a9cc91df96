/** What the four sign-in pages (the pages under src/pages/auth) share: the loose
    address check their `validateForm` functions use, and the fields and
    kinds of error their `newErrors` dictionaries hold. Message texts are
    not modelled; an error is identified by its field and its kind. */
module AuthForms {
  import opened Common
  import Security

  datatype Field = Ime | Priimek | Email | Telefon | Password | ConfirmPassword

  datatype FieldError = Required | Malformed | TooShort | Mismatch

  /** `[^\s@]`. */
  predicate IsAddressChar(c: char)
  {
    !IsWhitespace(c) && c != '@'
  }

  /** `/^[^\s@]+@[^\s@]+\.[^\s@]+$/` with its `@` at `at` and a dot of the
      domain at `dot`: nothing but that `@` is an `@` or whitespace. */
  predicate AddressSplit(s: string, at: int, dot: int)
  {
    0 < at && at + 1 < dot && dot + 1 < |s|
    && s[at] == '@' && s[dot] == '.'
    && forall j :: 0 <= j < |s| && j != at ==> IsAddressChar(s[j])
  }

  predicate LooksLikeEmail(s: string)
  {
    exists at, dot | 0 <= at < dot < |s| :: AddressSplit(s, at, dot)
  }

  /** An address that passes the pages' check has no whitespace and
      exactly one `@`, with at least one character before it and three
      (a dot between two others) after it. */
  lemma LooksLikeEmailMeaning(s: string)
    requires LooksLikeEmail(s)
    ensures |s| >= 5 && !HasWhitespace(s)
    ensures exists at :: 0 < at < |s| - 3 && s[at] == '@' && forall j :: 0 <= j < |s| && s[j] == '@' ==> j == at
  {
    var at, dot :| 0 <= at < dot < |s| && AddressSplit(s, at, dot);
    forall j | 0 <= j < |s|
      ensures !IsWhitespace(s[j])
    {
      if j != at {
        assert IsAddressChar(s[j]);
      }
    }
  }

  /** Every address `validateInput.email` accepts also passes the pages'
      looser check. */
  lemma StrictImpliesLoose(s: string)
    requires Security.IsValidEmail(s)
    ensures LooksLikeEmail(s)
  {
    var at, dot :| 0 <= at < dot < |s| && Security.EmailSplit(s, at, dot);
    forall j | 0 <= j < |s| && j != at
      ensures IsAddressChar(s[j])
    {
      Security.SplitChars(s, at, dot, j);
    }
    assert AddressSplit(s, at, dot);
  }

  /** The converse fails: a one-letter top-level domain passes the pages'
      check and not `validateInput.email`. */
  lemma LooseAcceptsOneLetterDomain()
    ensures LooksLikeEmail("a@b.c")
    ensures !Security.IsValidEmail("a@b.c")
  {
    assert AddressSplit("a@b.c", 1, 3);
    assert !Security.MatchesEmailPattern("a@b.c");
  }

  // ---------------------------------------------------------------------
  // The field rules and the error dictionary
  // ---------------------------------------------------------------------

  /** A name field: required once trimmed. */
  function NameError(s: string): Option<FieldError>
  {
    if Trim(s) == [] then Some(Required) else None
  }

  /** The e-mail field: required, then the loose address check. */
  function EmailError(email: string): Option<FieldError>
  {
    if email == [] then Some(Required) else if !LooksLikeEmail(email) then Some(Malformed) else None
  }

  /** A new password: required, then at least six characters. */
  function NewPasswordError(password: string): Option<FieldError>
  {
    if password == [] then Some(Required) else if |password| < 6 then Some(TooShort) else None
  }

  /** The confirmation: required, then equal to the password. */
  function ConfirmError(password: string, confirmPassword: string): Option<FieldError>
  {
    if confirmPassword == [] then Some(Required)
    else if password != confirmPassword then Some(Mismatch)
    else None
  }

  /** The sign-in password: only required. */
  function RequiredError(s: string): Option<FieldError>
  {
    if s == [] then Some(Required) else None
  }

  /** The e-mail rule passes exactly the addresses of the loose shape, and
      reports 'required' exactly for the empty field. */
  lemma EmailErrorMeaning(email: string)
    ensures EmailError(email) == None <==> LooksLikeEmail(email)
    ensures EmailError(email) == Some(Required) <==> email == []
    ensures EmailError(email) == Some(Malformed) <==> email != [] && !LooksLikeEmail(email)
  {
  }

  /** The new-password rule passes exactly passwords of six characters or
      more, and the confirmation rule exactly a non-empty copy of it. */
  lemma PasswordRulesMeaning(password: string, confirmPassword: string)
    ensures NewPasswordError(password) == None <==> |password| >= 6
    ensures ConfirmError(password, confirmPassword) == None <==> confirmPassword != [] && confirmPassword == password
    ensures NewPasswordError(password) == None && ConfirmError(password, confirmPassword) == None ==>
      |confirmPassword| >= 6
  {
  }

  /** The steps of the pages' `validateForm` functions: each check sets
      its field's entry when it fails and leaves the dictionary alone
      otherwise. */
  method CheckName(errors: map<Field, FieldError>, field: Field, s: string) returns (r: map<Field, FieldError>)
    ensures r == Put(errors, (field, NameError(s)))
  {
    r := errors;
    if Trim(s) == [] {
      r := r[field := Required];
    }
  }

  method CheckEmail(errors: map<Field, FieldError>, email: string) returns (r: map<Field, FieldError>)
    ensures r == Put(errors, (Email, EmailError(email)))
  {
    r := errors;
    if email == [] {
      r := r[Email := Required];
    } else if !LooksLikeEmail(email) {
      r := r[Email := Malformed];
    }
  }

  method CheckNewPassword(errors: map<Field, FieldError>, password: string) returns (r: map<Field, FieldError>)
    ensures r == Put(errors, (Password, NewPasswordError(password)))
  {
    r := errors;
    if password == [] {
      r := r[Password := Required];
    } else if |password| < 6 {
      r := r[Password := TooShort];
    }
  }

  method CheckConfirm(errors: map<Field, FieldError>, password: string, confirmPassword: string)
    returns (r: map<Field, FieldError>)
    ensures r == Put(errors, (ConfirmPassword, ConfirmError(password, confirmPassword)))
  {
    r := errors;
    if confirmPassword == [] {
      r := r[ConfirmPassword := Required];
    } else if password != confirmPassword {
      r := r[ConfirmPassword := Mismatch];
    }
  }

  method CheckRequired(errors: map<Field, FieldError>, field: Field, s: string) returns (r: map<Field, FieldError>)
    ensures r == Put(errors, (field, RequiredError(s)))
  {
    r := errors;
    if s == [] {
      r := r[field := Required];
    }
  }

  /** A dictionary entry, absent or present. */
  function Lookup(m: map<Field, FieldError>, f: Field): Option<FieldError>
  {
    if f in m then Some(m[f]) else None
  }

  /** One check of `validateForm`: a failing check sets its field's entry,
      a passing one leaves the dictionary alone. */
  function Put(m: map<Field, FieldError>, check: (Field, Option<FieldError>)): map<Field, FieldError>
  {
    if check.1.Some? then m[check.0 := check.1.value] else m
  }

  /** The dictionary `validateForm` builds from its checks, made in order. */
  function Collected(checks: seq<(Field, Option<FieldError>)>): map<Field, FieldError>
  {
    if checks == [] then map[] else Put(Collected(checks[..|checks| - 1]), checks[|checks| - 1])
  }

  /** Making one more check. */
  lemma CollectedStep(checks: seq<(Field, Option<FieldError>)>, k: nat)
    requires k < |checks|
    ensures Collected(checks[..k + 1]) == Put(Collected(checks[..k]), checks[k])
  {
    assert checks[..k + 1][..k] == checks[..k];
  }

  /** One check alone. */
  lemma CollectedOne(check: (Field, Option<FieldError>))
    ensures Collected([check]) == Put(map[], check)
  {
    assert [check][..0] == [];
  }

  /** Two checks, made one after the other. */
  lemma CollectedTwo(checks: seq<(Field, Option<FieldError>)>)
    requires |checks| == 2
    ensures Collected(checks) == Put(Put(map[], checks[0]), checks[1])
  {
    CollectedStep(checks, 0);
    CollectedStep(checks, 1);
    assert checks[..0] == [] && checks[..2] == checks;
  }

  /** Six checks, made one after the other. */
  lemma CollectedSix(checks: seq<(Field, Option<FieldError>)>)
    requires |checks| == 6
    ensures Collected(checks)
      == Put(Put(Put(Put(Put(Put(map[], checks[0]), checks[1]), checks[2]), checks[3]), checks[4]), checks[5])
  {
    CollectedStep(checks, 0);
    CollectedStep(checks, 1);
    CollectedStep(checks, 2);
    CollectedStep(checks, 3);
    CollectedStep(checks, 4);
    CollectedStep(checks, 5);
    assert checks[..0] == [] && checks[..6] == checks;
  }

  predicate DistinctFields(checks: seq<(Field, Option<FieldError>)>)
  {
    forall i, j :: 0 <= i < j < |checks| ==> checks[i].0 != checks[j].0
  }

  /** One check's entry, read off the dictionary of distinct checks. */
  lemma CollectedAt(checks: seq<(Field, Option<FieldError>)>, i: nat)
    requires DistinctFields(checks) && i < |checks|
    ensures Lookup(Collected(checks), checks[i].0) == checks[i].1
  {
    CollectedMeaning(checks);
  }

  /** With one check per field, each checked field's entry is its check's
      error, if any; an unchecked field has none; and the dictionary is
      empty exactly when every check passed. */
  lemma {:induction false} CollectedMeaning(checks: seq<(Field, Option<FieldError>)>)
    requires DistinctFields(checks)
    ensures forall i :: 0 <= i < |checks| ==> Lookup(Collected(checks), checks[i].0) == checks[i].1
    ensures forall f :: f in Collected(checks) ==> exists i :: 0 <= i < |checks| && checks[i].0 == f
    ensures Collected(checks) == map[] <==> forall i :: 0 <= i < |checks| ==> checks[i].1.None?
  {
    if checks != [] {
      var prefix := checks[..|checks| - 1];
      var c := checks[|checks| - 1];
      assert DistinctFields(prefix);
      CollectedMeaning(prefix);
      var m := Collected(prefix);
      var r := Collected(checks);
      assert r == Put(m, c);
      forall i | 0 <= i < |prefix|
        ensures prefix[i] == checks[i] && prefix[i].0 != c.0
      {
      }
      assert c.0 !in m;
      forall i | 0 <= i < |checks|
        ensures Lookup(r, checks[i].0) == checks[i].1
      {
        if i < |prefix| {
          assert Lookup(m, prefix[i].0) == prefix[i].1;
        }
      }
      forall f | f in r
        ensures exists i :: 0 <= i < |checks| && checks[i].0 == f
      {
        if f == c.0 {
          assert checks[|checks| - 1].0 == f;
        } else {
          var i :| 0 <= i < |prefix| && prefix[i].0 == f;
          assert checks[i].0 == f;
        }
      }
      if r == map[] {
        assert c.1.None?;
        assert m == map[];
      }
    }
  }

  /** `/^[\d\s\+\-\(\)]+$/`, the registration form's telephone check. */
  predicate IsTelefonChar(c: char)
  {
    IsDigit(c) || IsWhitespace(c) || c == '+' || c == '-' || c == '(' || c == ')'
  }

  predicate LooksLikeTelefon(telefon: string)
  {
    telefon != [] && forall i :: 0 <= i < |telefon| ==> IsTelefonChar(telefon[i])
  }

  /** Whatever `validateInput.phone` accepts passes the form's check too. */
  lemma StrictPhoneIsTelefon(phone: string)
    requires Security.IsValidPhone(phone)
    ensures LooksLikeTelefon(phone)
  {
    Security.PhoneLength(phone);
    var body := if phone != [] && phone[0] == '+' then phone[1..] else phone;
    var shift := |phone| - |body|;
    forall i | 0 <= i < |phone|
      ensures IsTelefonChar(phone[i])
    {
      if i >= shift {
        assert phone[i] == body[i - shift] && Security.IsPhoneChar(body[i - shift]);
      }
    }
  }
}
