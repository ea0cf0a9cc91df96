/** The client-side security helpers (src/utils/security.ts): the input
    validators, the password checks and strength score, the login limiter
    over the browser's key-value store, and the capped security event log.
    The store is a map; the clock is a parameter in milliseconds. */
module Security {
  import opened Common

  // ---------------------------------------------------------------------
  // validateInput
  // ---------------------------------------------------------------------

  /** `[a-zA-Z0-9._%+-]`. */
  predicate IsLocalChar(c: char)
  {
    IsAsciiLetter(c) || IsDigit(c) || c == '.' || c == '_' || c == '%' || c == '+' || c == '-'
  }

  /** `[a-zA-Z0-9.-]`. */
  predicate IsDomainChar(c: char)
  {
    IsAsciiLetter(c) || IsDigit(c) || c == '.' || c == '-'
  }

  /** `/^[a-zA-Z0-9._%+-]+@[a-zA-Z0-9.-]+\.[a-zA-Z]{2,}$/`: the `@` at `at`,
      the final dot at `dot`. */
  predicate EmailSplit(email: string, at: int, dot: int)
  {
    0 < at && at + 1 < dot && dot + 2 < |email|
    && email[at] == '@' && email[dot] == '.'
    && (forall j :: 0 <= j < at ==> IsLocalChar(email[j]))
    && (forall j :: at < j < dot ==> IsDomainChar(email[j]))
    && (forall j :: dot < j < |email| ==> IsAsciiLetter(email[j]))
  }

  predicate MatchesEmailPattern(email: string)
  {
    exists at, dot | 0 <= at < dot < |email| :: EmailSplit(email, at, dot)
  }

  /** `validateInput.email`: the pattern, and at most 320 characters. */
  predicate IsValidEmail(email: string)
  {
    MatchesEmailPattern(email) && |email| <= 320
  }

  /** Apart from the `@` at which an address splits, it holds no `@` and
      no whitespace. */
  lemma SplitChars(email: string, at: int, dot: int, j: int)
    requires EmailSplit(email, at, dot)
    requires 0 <= j < |email|
    ensures j != at ==> email[j] != '@'
    ensures !IsWhitespace(email[j])
  {
    if j < at {
      assert IsLocalChar(email[j]);
    } else if at < j < dot {
      assert IsDomainChar(email[j]);
    } else if dot < j {
      assert IsAsciiLetter(email[j]);
    }
  }

  /** An accepted address has exactly one `@`, no whitespace, and ends in
      at least two letters after a dot. */
  lemma EmailShape(email: string)
    requires IsValidEmail(email)
    ensures forall a, b :: 0 <= a < b < |email| ==> !(email[a] == '@' && email[b] == '@')
    ensures !HasWhitespace(email)
    ensures |email| >= 6 && IsAsciiLetter(email[|email| - 1]) && IsAsciiLetter(email[|email| - 2])
  {
    var at, dot :| 0 <= at < dot < |email| && EmailSplit(email, at, dot);
    forall j | 0 <= j < |email|
      ensures j != at ==> email[j] != '@'
      ensures !IsWhitespace(email[j])
    {
      SplitChars(email, at, dot, j);
    }
  }

  lemma EmailExample()
    ensures IsValidEmail("ana@malca.si")
  {
    assert EmailSplit("ana@malca.si", 3, 9);
  }

  /** `[!@#$%^&*(),."':{}|<>?]`. */
  predicate IsSpecialChar(c: char)
  {
    c == '!' || c == '@' || c == '#' || c == '$' || c == '%' || c == '^' || c == '&' || c == '*'
    || c == '(' || c == ')' || c == ',' || c == '.' || c == '"' || c == '\'' || c == ':' || c == '{'
    || c == '}' || c == '|' || c == '<' || c == '>' || c == '?'
  }

  predicate HasLower(s: string) { exists i :: 0 <= i < |s| && IsAsciiLower(s[i]) }
  predicate HasUpper(s: string) { exists i :: 0 <= i < |s| && IsAsciiUpper(s[i]) }
  predicate HasDigit(s: string) { exists i :: 0 <= i < |s| && IsDigit(s[i]) }
  predicate HasSpecial(s: string) { exists i :: 0 <= i < |s| && IsSpecialChar(s[i]) }

  const CommonPasswords: seq<string> :=
    ["password", "123456", "password123", "admin", "qwerty", "letmein", "welcome", "monkey", "1234567890", "abc123"]

  datatype PasswordError = TooShort | TooLong | NoLowercase | NoUppercase | NoDigit | NoSpecial | TooCommon

  /** The password rules as one condition. */
  predicate PasswordAccepted(password: string)
  {
    8 <= |password| <= 128 && HasLower(password) && HasUpper(password) && HasDigit(password)
    && HasSpecial(password) && ToLower(password) !in CommonPasswords
  }

  /** Whether `password` breaks the rule that reports `e`. */
  predicate Broken(password: string, e: PasswordError)
  {
    match e
    case TooShort => |password| < 8
    case TooLong => |password| > 128
    case NoLowercase => !HasLower(password)
    case NoUppercase => !HasUpper(password)
    case NoDigit => !HasDigit(password)
    case NoSpecial => !HasSpecial(password)
    case TooCommon => ToLower(password) in CommonPasswords
  }

  /** The position of a rule among the checks. */
  function Rank(e: PasswordError): nat
  {
    match e
    case TooShort => 0
    case TooLong => 1
    case NoLowercase => 2
    case NoUppercase => 3
    case NoDigit => 4
    case NoSpecial => 5
    case TooCommon => 6
  }

  const Rules: seq<PasswordError> := [TooShort, TooLong, NoLowercase, NoUppercase, NoDigit, NoSpecial, TooCommon]

  /** The errors the first `k` checks report, in the order of the checks. */
  function ReportedUpTo(password: string, k: nat): seq<PasswordError>
    requires k <= |Rules|
  {
    if k == 0 then []
    else ReportedUpTo(password, k - 1) + (if Broken(password, Rules[k - 1]) then [Rules[k - 1]] else [])
  }

  /** Each rule sits at its rank in the list of checks. */
  lemma RulesRank()
    ensures forall e :: Rules[Rank(e)] == e
    ensures forall i :: 0 <= i < |Rules| ==> Rank(Rules[i]) == i
  {
  }

  /** The first `k` checks report exactly the broken rules among them. */
  lemma {:induction false} ReportedMembers(password: string, k: nat)
    requires k <= |Rules|
    ensures forall e :: e in ReportedUpTo(password, k) <==> Rank(e) < k && Broken(password, e)
  {
    if k > 0 {
      RulesRank();
      ReportedMembers(password, k - 1);
    }
  }

  /** The first `k` checks report their errors in the order of the checks. */
  lemma {:induction false} ReportedOrdered(password: string, k: nat)
    requires k <= |Rules|
    ensures forall i, j :: 0 <= i < j < |ReportedUpTo(password, k)| ==>
      Rank(ReportedUpTo(password, k)[i]) < Rank(ReportedUpTo(password, k)[j])
  {
    if k > 0 {
      ReportedOrdered(password, k - 1);
      ReportedMembers(password, k - 1);
      RulesRank();
      var prev := ReportedUpTo(password, k - 1);
      var r := ReportedUpTo(password, k);
      forall i, j | 0 <= i < j < |r|
        ensures Rank(r[i]) < Rank(r[j])
      {
        assert r[i] == prev[i] && prev[i] in prev;
        if j >= |prev| {
          assert r[j] == Rules[k - 1] && Rank(r[j]) == k - 1;
        } else {
          assert r[j] == prev[j];
        }
      }
    }
  }

  /** The first `k` checks report exactly the broken rules among them,
      each once and in the order of the checks. */
  lemma ReportedMeaning(password: string, k: nat)
    requires k <= |Rules|
    ensures forall e :: e in ReportedUpTo(password, k) <==> Rank(e) < k && Broken(password, e)
    ensures forall i, j :: 0 <= i < j < |ReportedUpTo(password, k)| ==>
      Rank(ReportedUpTo(password, k)[i]) < Rank(ReportedUpTo(password, k)[j])
  {
    ReportedMembers(password, k);
    ReportedOrdered(password, k);
  }

  /** The checks report nothing exactly when the password is accepted. */
  lemma NoErrorsIffAccepted(password: string)
    ensures ReportedUpTo(password, |Rules|) == [] <==> PasswordAccepted(password)
  {
    ReportedMeaning(password, |Rules|);
    AcceptedIffNothingBroken(password);
    var r := ReportedUpTo(password, |Rules|);
    assert forall e :: Rank(e) < |Rules|;
    if r != [] {
      assert r[0] in r;
    }
  }

  /** A password is accepted exactly when it breaks no rule. */
  lemma AcceptedIffNothingBroken(password: string)
    ensures PasswordAccepted(password) <==> forall e :: !Broken(password, e)
  {
    if !PasswordAccepted(password) {
      if |password| < 8 { assert Broken(password, TooShort); }
      else if |password| > 128 { assert Broken(password, TooLong); }
      else if !HasLower(password) { assert Broken(password, NoLowercase); }
      else if !HasUpper(password) { assert Broken(password, NoUppercase); }
      else if !HasDigit(password) { assert Broken(password, NoDigit); }
      else if !HasSpecial(password) { assert Broken(password, NoSpecial); }
      else { assert Broken(password, TooCommon); }
    }
  }

  /** `validateInput.password`: one error per broken rule, in the order of
      the checks; valid exactly when the password is accepted. */
  method ValidatePassword(password: string) returns (isValid: bool, errors: seq<PasswordError>)
    ensures errors == ReportedUpTo(password, |Rules|)
    ensures isValid <==> errors == []
    ensures isValid <==> PasswordAccepted(password)
  {
    errors := [];
    if |password| < 8 {
      errors := errors + [TooShort];
    }
    assert errors == ReportedUpTo(password, 1);
    if |password| > 128 {
      errors := errors + [TooLong];
    }
    assert errors == ReportedUpTo(password, 2);
    if !HasLower(password) {
      errors := errors + [NoLowercase];
    }
    assert errors == ReportedUpTo(password, 3);
    if !HasUpper(password) {
      errors := errors + [NoUppercase];
    }
    assert errors == ReportedUpTo(password, 4);
    if !HasDigit(password) {
      errors := errors + [NoDigit];
    }
    assert errors == ReportedUpTo(password, 5);
    if !HasSpecial(password) {
      errors := errors + [NoSpecial];
    }
    assert errors == ReportedUpTo(password, 6);
    if ToLower(password) in CommonPasswords {
      errors := errors + [TooCommon];
    }
    assert errors == ReportedUpTo(password, 7);
    isValid := |errors| == 0;
    NoErrorsIffAccepted(password);
  }

  /** `/^[+]?[0-9\s\-\(\)]{8,20}$/`. */
  predicate IsPhoneChar(c: char)
  {
    IsDigit(c) || IsWhitespace(c) || c == '-' || c == '(' || c == ')'
  }

  predicate IsValidPhone(phone: string)
  {
    var body := if phone != [] && phone[0] == '+' then phone[1..] else phone;
    8 <= |body| <= 20 && forall i :: 0 <= i < |body| ==> IsPhoneChar(body[i])
  }

  /** A leading plus is optional and not counted; the length bounds apply to the rest. */
  lemma PhoneLength(phone: string)
    requires IsValidPhone(phone)
    ensures 8 <= |phone| <= 21
    ensures forall i :: 1 <= i < |phone| ==> phone[i] != '+'
  {
    var body := if phone != [] && phone[0] == '+' then phone[1..] else phone;
    var shift := |phone| - |body|;
    forall i | 1 <= i < |phone| ensures phone[i] != '+' {
      assert phone[i] == body[i - shift] && IsPhoneChar(body[i - shift]);
    }
  }

  function TextLengthOk(text: string, maxLength: int): bool
  {
    |text| <= maxLength
  }

  /** `/^[a-zA-ZÀ-ÿ\s\-\']{1,100}$/`: the range À-ÿ is U+00C0 to U+00FF. */
  predicate IsNameChar(c: char)
  {
    IsAsciiLetter(c) || ('À' <= c <= 'ÿ') || IsWhitespace(c) || c == '-' || c == '\''
  }

  predicate IsValidName(name: string)
  {
    1 <= |name| <= 100 && forall i :: 0 <= i < |name| ==> IsNameChar(name[i])
  }

  /** `validateInput.price`: between 0.50 and 100.00, both included. */
  predicate IsValidPrice(price: real)
  {
    0.5 <= price <= 100.0
  }

  /** The length check only ever refuses a text for being too long: every
      prefix of an accepted text is accepted under the same limit, and a name
      the name validator accepts passes a limit of 100. */
  lemma TextLengthBound(text: string, maxLength: int, k: nat)
    requires k <= |text|
    ensures TextLengthOk(text, maxLength) ==> TextLengthOk(text[..k], maxLength)
    ensures IsValidName(text) ==> TextLengthOk(text, 100)
  {
  }

  /** A valid name holds no digit, no `@` and no markup bracket. */
  lemma NameShape(name: string)
    requires IsValidName(name)
    ensures 1 <= |name| <= 100
    ensures forall i :: 0 <= i < |name| ==> !IsDigit(name[i]) && name[i] != '@' && name[i] != '<' && name[i] != '>'
  {
  }

  /** Both bounds are included, and the cent just outside each is refused. */
  lemma PriceBounds()
    ensures IsValidPrice(0.5) && IsValidPrice(100.0)
    ensures !IsValidPrice(0.49) && !IsValidPrice(100.01)
  {
  }

  /** `validateInput.quantity`: a whole number from 1 to 50. */
  predicate IsValidQuantity(quantity: real)
  {
    quantity.Floor as real == quantity && 1.0 <= quantity <= 50.0
  }

  /** A whole number is a valid quantity exactly from 1 to 50, and nothing
      with a fractional part is. */
  lemma QuantityRange(quantity: real, n: int)
    ensures IsValidQuantity(n as real) <==> 1 <= n <= 50
    ensures IsValidQuantity(quantity) ==> 1 <= quantity.Floor <= 50 && quantity == quantity.Floor as real
  {
  }

  // ---------------------------------------------------------------------
  // getPasswordStrength
  // ---------------------------------------------------------------------

  datatype Strength = Strength(score: int, feedback: string, color: string)

  /** The `switch` on the score. */
  function FeedbackFor(score: int): (r: (string, string))
    ensures 0 <= score <= 1 ==> r == ("Zelo šibko", "destructive")
    ensures score == 6 ==> r == ("Zelo močno", "success")
  {
    if score == 2 || score == 3 then ("Šibko", "warning")
    else if score == 4 then ("Srednje", "secondary")
    else if score == 5 then ("Močno", "primary")
    else if score == 6 then ("Zelo močno", "success")
    else ("Zelo šibko", "destructive")
  }

  /** The six strength rules, in the order they are scored. */
  function StrengthRules(password: string): seq<bool>
  {
    [|password| >= 8, |password| >= 12, HasLower(password), HasUpper(password), HasDigit(password), HasSpecial(password)]
  }

  function CountTrue(bs: seq<bool>): (n: nat)
    ensures n <= |bs|
  {
    if bs == [] then 0 else (if bs[0] then 1 else 0) + CountTrue(bs[1..])
  }

  /** The count reaches the length exactly when every entry holds. */
  lemma {:induction false} CountTrueAll(bs: seq<bool>)
    ensures CountTrue(bs) == |bs| <==> forall i :: 0 <= i < |bs| ==> bs[i]
  {
    if bs != [] {
      CountTrueAll(bs[1..]);
      assert forall i :: 1 <= i < |bs| ==> bs[i] == bs[1..][i - 1];
    }
  }

  function Point(b: bool): nat { if b then 1 else 0 }

  /** The score adds one point per rule. */
  lemma StrengthPoints(password: string)
    ensures CountTrue(StrengthRules(password)) ==
      Point(|password| >= 8) + Point(|password| >= 12) + Point(HasLower(password))
      + Point(HasUpper(password)) + Point(HasDigit(password)) + Point(HasSpecial(password))
  {
    CountSix(|password| >= 8, |password| >= 12, HasLower(password), HasUpper(password),
      HasDigit(password), HasSpecial(password));
  }

  /** Six entries count one point each. */
  lemma CountSix(a: bool, b: bool, c: bool, d: bool, e: bool, f: bool)
    ensures CountTrue([a, b, c, d, e, f]) == Point(a) + Point(b) + Point(c) + Point(d) + Point(e) + Point(f)
  {
    var rules := [a, b, c, d, e, f];
    assert rules[5..][1..] == [];
    assert CountTrue(rules[5..]) == Point(f);
    assert rules[4..][1..] == rules[5..];
    assert CountTrue(rules[4..]) == Point(e) + CountTrue(rules[5..]);
    assert rules[3..][1..] == rules[4..];
    assert CountTrue(rules[3..]) == Point(d) + CountTrue(rules[4..]);
    assert rules[2..][1..] == rules[3..];
    assert CountTrue(rules[2..]) == Point(c) + CountTrue(rules[3..]);
    assert rules[1..][1..] == rules[2..];
    assert CountTrue(rules[1..]) == Point(b) + CountTrue(rules[2..]);
  }

  /** `getPasswordStrength`: one point per satisfied rule, and the label of
      the score. */
  method GetPasswordStrength(password: string) returns (s: Strength)
    ensures s.score == CountTrue(StrengthRules(password)) && 0 <= s.score <= 6
    ensures (s.feedback, s.color) == FeedbackFor(s.score)
  {
    var score := 0;
    if |password| >= 8 { score := score + 1; }
    if |password| >= 12 { score := score + 1; }
    if HasLower(password) { score := score + 1; }
    if HasUpper(password) { score := score + 1; }
    if HasDigit(password) { score := score + 1; }
    if HasSpecial(password) { score := score + 1; }
    StrengthPoints(password);
    var fc := FeedbackFor(score);
    s := Strength(score, fc.0, fc.1);
  }

  /** A password the validator accepts scores at least 5 ('Močno'), and 6
      from twelve characters on. */
  lemma AcceptedIsStrong(password: string)
    requires PasswordAccepted(password)
    ensures CountTrue(StrengthRules(password)) >= 5
    ensures |password| >= 12 ==> CountTrue(StrengthRules(password)) == 6
  {
    var rules := StrengthRules(password);
    CountTrueAll(rules[2..]);
    CountTrueAll(rules);
    assert rules[1..][1..] == rules[2..];
  }

  // ---------------------------------------------------------------------
  // rateLimiting
  // ---------------------------------------------------------------------

  const WindowMs := 15 * 60 * 1000
  const MaxAttempts := 5

  /** What is stored under a login key: a parsed attempt list, or text that
      does not parse as one. */
  datatype Record = Attempts(times: seq<int>) | Unparsable

  function LoginKey(email: string): string
  {
    "login_attempts_" + email
  }

  /** Different addresses never share a key. */
  lemma LoginKeyInjective(a: string, b: string)
    requires LoginKey(a) == LoginKey(b)
    ensures a == b
  {
    var p := "login_attempts_";
    assert a == LoginKey(a)[|p|..] && b == LoginKey(b)[|p|..];
  }

  /** The `filter` keeping the attempts younger than the window, in order. */
  function Recent(times: seq<int>, now: int): (r: seq<int>)
    ensures forall t :: t in r <==> t in times && now - t < WindowMs
    ensures |r| <= |times|
  {
    if times == [] then []
    else if now - times[0] < WindowMs then [times[0]] + Recent(times[1..], now)
    else Recent(times[1..], now)
  }

  /** Filtering twice at the same instant is filtering once. */
  lemma {:induction false} RecentIdempotent(times: seq<int>, now: int)
    ensures Recent(Recent(times, now), now) == Recent(times, now)
  {
    if times != [] {
      RecentIdempotent(times[1..], now);
    }
  }

  function MinOf(s: seq<int>): (m: int)
    requires s != []
    ensures m in s && forall t :: t in s ==> m <= t
  {
    if |s| == 1 then s[0]
    else
      var rest := MinOf(s[1..]);
      assert s == [s[0]] + s[1..];
      if s[0] <= rest then s[0] else rest
  }

  /** The record `recordFailedAttempt` leaves: the attempts so far plus
      `now`, pruned to the window; an unparsable record is replaced by
      `[now]`. */
  function Recorded(record: Option<Record>, now: int): Record
  {
    match record
    case None => Attempts(Recent([now], now))
    case Some(Unparsable) => Attempts([now])
    case Some(Attempts(times)) => Attempts(Recent(times + [now], now))
  }

  /** After a failed attempt the record holds `now` last, and only attempts
      younger than the window. */
  lemma RecordedKeepsRecent(record: Option<Record>, now: int)
    ensures Recorded(record, now).Attempts?
    ensures var ts := Recorded(record, now).times;
      ts != [] && ts[|ts| - 1] == now && forall t :: t in ts ==> now - t < WindowMs
  {
    match record
    case None =>
    case Some(Unparsable) =>
    case Some(Attempts(times)) => RecentKeepsLast(times, now);
  }

  lemma {:induction false} RecentKeepsLast(times: seq<int>, now: int)
    ensures var r := Recent(times + [now], now); r != [] && r[|r| - 1] == now
  {
    if times != [] {
      assert (times + [now])[1..] == times[1..] + [now];
      RecentKeepsLast(times[1..], now);
    }
  }

  /** `canAttemptLogin`'s answer. */
  predicate AllowsAttempt(record: Option<Record>, now: int)
  {
    record.None? || record.value.Unparsable? || |Recent(record.value.times, now)| < MaxAttempts
  }

  /** `getTimeUntilNextAttempt`'s answer: it reads the stored list as it is,
      without pruning. */
  function TimeUntilNext(record: Option<Record>, now: int): (r: int)
    ensures r >= 0
    ensures record.None? || record.value.Unparsable? || |record.value.times| < MaxAttempts ==> r == 0
  {
    if record.None? || record.value.Unparsable? || |record.value.times| < MaxAttempts then 0
    else
      var timeUntilExpiry := MinOf(record.value.times) + WindowMs - now;
      if timeUntilExpiry > 0 then timeUntilExpiry else 0
  }

  /** Once the fifth failure within the window is recorded, the limiter
      refuses at that instant, and the wait it reports is positive and at
      most the window. */
  lemma FifthFailureBlocks(record: Option<Record>, now: int)
    requires |Recorded(record, now).times| >= MaxAttempts
    ensures !AllowsAttempt(Some(Recorded(record, now)), now)
    ensures 0 < TimeUntilNext(Some(Recorded(record, now)), now) <= WindowMs
  {
    RecordedKeepsRecent(record, now);
    FullWindowBlocks(Recorded(record, now).times, now);
  }

  lemma FullWindowBlocks(ts: seq<int>, now: int)
    requires |ts| >= MaxAttempts && ts[|ts| - 1] == now
    requires forall t :: t in ts ==> now - t < WindowMs
    ensures !AllowsAttempt(Some(Attempts(ts)), now)
    ensures 0 < TimeUntilNext(Some(Attempts(ts)), now) <= WindowMs
  {
    assert forall i :: 0 <= i < |ts| ==> ts[i] in ts;
    RecentAll(ts, now);
    assert ts[|ts| - 1] in ts;
    var m := MinOf(ts);
    assert now - m < WindowMs && m <= now;
  }

  /** A list with nothing older than the window survives the filter whole. */
  lemma {:induction false} RecentAll(times: seq<int>, now: int)
    requires forall i :: 0 <= i < |times| ==> now - times[i] < WindowMs
    ensures Recent(times, now) == times
  {
    if times != [] {
      assert times == [times[0]] + times[1..];
      RecentAll(times[1..], now);
    }
  }

  /** A full window later every stored attempt has expired and logging in
      is allowed again. */
  lemma {:induction false} WindowExpires(times: seq<int>, last: int, now: int)
    requires forall i :: 0 <= i < |times| ==> times[i] <= last
    requires now >= last + WindowMs
    ensures Recent(times, now) == []
    ensures AllowsAttempt(Some(Attempts(times)), now)
  {
    if times != [] {
      assert times == [times[0]] + times[1..];
      WindowExpires(times[1..], last, now);
    }
  }

  class LoginLimiter {
    var store: map<string, Record>

    constructor ()
      ensures store == map[]
    {
      store := map[];
    }

    function RecordOf(email: string): Option<Record>
      reads this
    {
      if LoginKey(email) in store then Some(store[LoginKey(email)]) else None
    }

    /** `canAttemptLogin`: with a parsed record, the attempts older than the
        window are dropped, and written back only when the answer is yes. */
    method CanAttemptLogin(email: string, now: int) returns (ok: bool)
      modifies this
      ensures ok == AllowsAttempt(old(RecordOf(email)), now)
      ensures store == if old(RecordOf(email)).Some? && old(RecordOf(email)).value.Attempts? && ok
        then old(store)[LoginKey(email) := Attempts(Recent(old(RecordOf(email)).value.times, now))]
        else old(store)
    {
      var key := LoginKey(email);
      if key !in store {
        return true;
      }
      var attempts := store[key];
      if attempts.Unparsable? {
        return true;
      }
      var recent := Recent(attempts.times, now);
      if |recent| < MaxAttempts {
        store := store[key := Attempts(recent)];
        return true;
      }
      return false;
    }

    /** `recordFailedAttempt`: only this address's record changes. */
    method RecordFailedAttempt(email: string, now: int)
      modifies this
      ensures store == old(store)[LoginKey(email) := Recorded(old(RecordOf(email)), now)]
    {
      var key := LoginKey(email);
      if key in store && store[key].Unparsable? {
        store := store[key := Attempts([now])];
      } else {
        var times := if key in store then store[key].times else [];
        var data := times + [now];
        store := store[key := Attempts(Recent(data, now))];
      }
    }

    /** `clearFailedAttempts`. */
    method ClearFailedAttempts(email: string)
      modifies this
      ensures store == old(store) - {LoginKey(email)}
      ensures RecordOf(email).None?
    {
      store := store - {LoginKey(email)};
    }

    /** `getTimeUntilNextAttempt`. */
    method GetTimeUntilNextAttempt(email: string, now: int) returns (ms: int)
      ensures ms == TimeUntilNext(RecordOf(email), now)
      ensures ms >= 0
    {
      var key := LoginKey(email);
      if key !in store || store[key].Unparsable? || |store[key].times| < MaxAttempts {
        return 0;
      }
      var oldestAttempt := MinOf(store[key].times);
      var timeUntilExpiry := oldestAttempt + WindowMs - now;
      ms := if 0 > timeUntilExpiry then 0 else timeUntilExpiry;
    }
  }

  // ---------------------------------------------------------------------
  // securityLogging.logEvent
  // ---------------------------------------------------------------------

  /** A logged event; the clock, the user agent and the page address are
      supplied by the caller. */
  datatype Event = Event(eventType: string, data: string, timestamp: int, userAgent: string, url: string)

  const MaxEvents := 50

  datatype EventRecord = NoEvents | Events(events: seq<Event>) | UnparsableEvents

  /** The newest `MaxEvents` of a list, in order (the `splice` from the front). */
  function KeepNewest(events: seq<Event>): (r: seq<Event>)
    ensures |r| == if |events| > MaxEvents then MaxEvents else |events|
    ensures r == events[|events| - |r|..]
  {
    if |events| > MaxEvents then events[|events| - MaxEvents..] else events
  }

  class SecurityLog {
    var stored: EventRecord

    constructor ()
      ensures stored == NoEvents
    {
      stored := NoEvents;
    }

    /** `logEvent`: the event is appended and only the newest fifty are
        kept; an unparsable log is replaced by the event alone. */
    method LogEvent(event: Event)
      modifies this
      ensures stored.Events?
      ensures old(stored).UnparsableEvents? ==> stored.events == [event]
      ensures !old(stored).UnparsableEvents? ==>
        var before := if old(stored).Events? then old(stored).events else [];
        stored.events == KeepNewest(before + [event])
      ensures 1 <= |stored.events| <= MaxEvents && stored.events[|stored.events| - 1] == event
    {
      if stored.UnparsableEvents? {
        stored := Events([event]);
        return;
      }
      var events := if stored.Events? then stored.events else [];
      events := events + [event];
      if |events| > MaxEvents {
        events := events[|events| - MaxEvents..];
      }
      stored := Events(events);
    }
  }

  /** Logging keeps the log's order: the result is a suffix of the old log
      with the new event appended. */
  lemma LogIsSuffix(before: seq<Event>, event: Event)
    ensures var after := KeepNewest(before + [event]);
      exists k :: 0 <= k <= |before| && after == before[k..] + [event]
  {
    var all := before + [event];
    var after := KeepNewest(all);
    var k := |all| - |after|;
    assert all[k..] == before[k..] + [event];
  }
}
