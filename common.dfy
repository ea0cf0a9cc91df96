/** Helpers shared by the modules of the food-ordering model: an Option type,
    the dish record, the character classes that JavaScript's regular expressions and string
    methods use, and `parseFloat` restricted to plain decimal literals. */
module Common {

  datatype Option<+T> = None | Some(value: T)

  /** A dish (`Jed` in src/data/mockData.ts), as both the customer's menu
      and the admin's menu editor read it. */
  datatype Jed = Jed(
    id: string,
    naziv: string,
    opis: string,
    cena: real,
    kategorija: string,
    restavracijaId: string,
    naVoljo: bool)

  /** The characters matched by `\s` in a JavaScript regular expression;
      `String.prototype.trim` strips exactly the same set. */
  predicate IsWhitespace(c: char)
  {
    c == ' ' || c == '\t' || c == '\n' || c == '\U{B}' || c == '\U{C}' || c == '\r'
    || c == '\U{A0}' || c == '\U{1680}' || ('\U{2000}' <= c <= '\U{200A}')
    || c == '\U{2028}' || c == '\U{2029}' || c == '\U{202F}' || c == '\U{205F}'
    || c == '\U{3000}' || c == '\U{FEFF}'
  }

  predicate IsDigit(c: char) { '0' <= c <= '9' }
  predicate IsAsciiLower(c: char) { 'a' <= c <= 'z' }
  predicate IsAsciiUpper(c: char) { 'A' <= c <= 'Z' }
  predicate IsAsciiLetter(c: char) { IsAsciiLower(c) || IsAsciiUpper(c) }

  predicate AllWhitespace(s: string)
  {
    forall i :: 0 <= i < |s| ==> IsWhitespace(s[i])
  }

  predicate HasWhitespace(s: string)
  {
    exists i :: 0 <= i < |s| && IsWhitespace(s[i])
  }

  /** `String.prototype.trimStart`. */
  function TrimStart(s: string): (r: string)
    ensures |r| <= |s| && r == s[|s| - |r|..]
    ensures r == [] || !IsWhitespace(r[0])
    ensures AllWhitespace(s[..|s| - |r|])
  {
    if s != [] && IsWhitespace(s[0]) then
      var t := s[1..];
      var r := TrimStart(t);
      assert forall i :: 1 <= i < |s| - |r| ==> s[i] == t[..|t| - |r|][i - 1];
      r
    else s
  }

  /** `String.prototype.trimEnd`. */
  function TrimEnd(s: string): (r: string)
    ensures |r| <= |s| && r == s[..|r|]
    ensures r == [] || !IsWhitespace(r[|r| - 1])
    ensures AllWhitespace(s[|r|..])
  {
    if s != [] && IsWhitespace(s[|s| - 1]) then
      var t := s[..|s| - 1];
      var r := TrimEnd(t);
      assert forall i :: 0 <= i < |s| - |r| ==>
        s[|r|..][i] == if i < |t| - |r| then t[|r|..][i] else s[|s| - 1];
      r
    else s
  }

  /** `String.prototype.trim`: both ends stripped of whitespace. */
  function Trim(s: string): (r: string)
    ensures |r| <= |s|
    ensures r == [] || (!IsWhitespace(r[0]) && !IsWhitespace(r[|r| - 1]))
  {
    var t := TrimStart(s);
    var r := TrimEnd(t);
    assert r == [] || r[0] == t[0];
    r
  }

  /** Trimming strips both ends of whitespace, so trimming again changes nothing. */
  lemma TrimIdempotent(s: string)
    ensures Trim(Trim(s)) == Trim(s)
  {
    var r := Trim(s);
    assert TrimStart(r) == r;
    assert TrimEnd(r) == r;
  }

  /** A string is falsy after trimming exactly when it holds nothing but whitespace. */
  lemma TrimEmptyIffBlank(s: string)
    ensures Trim(s) == [] <==> AllWhitespace(s)
  {
    var t := TrimStart(s);
    if Trim(s) == [] {
      assert AllWhitespace(t[0..]);
      assert t == [];
      assert s[..|s|] == s;
    }
  }

  /** `String.prototype.toLowerCase`, restricted to the ASCII letters. */
  function ToLowerChar(c: char): (r: char)
    ensures IsAsciiUpper(c) ==> IsAsciiLower(r) && r as int - 'a' as int == c as int - 'A' as int
    ensures !IsAsciiUpper(c) ==> r == c
  {
    if IsAsciiUpper(c) then (c as int - 'A' as int + 'a' as int) as char else c
  }

  function ToLower(s: string): (r: string)
    ensures |r| == |s|
    ensures forall i :: 0 <= i < |s| ==> r[i] == ToLowerChar(s[i])
  {
    if s == [] then [] else [ToLowerChar(s[0])] + ToLower(s[1..])
  }

  function DigitValue(c: char): (d: nat)
    requires IsDigit(c)
    ensures d < 10
  {
    c as int - '0' as int
  }

  /** The number of leading decimal digits of `s`. */
  function LeadingDigits(s: string): (n: nat)
    ensures n <= |s|
    ensures forall i :: 0 <= i < n ==> IsDigit(s[i])
    ensures n == |s| || !IsDigit(s[n])
  {
    if s != [] && IsDigit(s[0]) then 1 + LeadingDigits(s[1..]) else 0
  }

  /** The value of a string of decimal digits, most significant first. */
  function DigitsValue(s: string): (v: nat)
    requires forall i :: 0 <= i < |s| ==> IsDigit(s[i])
  {
    if s == [] then 0 else DigitsValue(s[..|s| - 1]) * 10 + DigitValue(s[|s| - 1])
  }

  function Pow10(n: nat): (p: nat)
    ensures p >= 1
  {
    if n == 0 then 1 else 10 * Pow10(n - 1)
  }

  /** JavaScript `parseFloat` on decimal literals: leading whitespace is
      skipped, an optional sign is read, then the longest prefix of the form
      `digits [ "." digits ]` with at least one digit; the rest of the string
      is ignored. `None` stands for NaN (no digits). */
  function ParseFloat(s: string): Option<real>
  {
    var t := TrimStart(s);
    if t != [] && t[0] == '-' then
      match ParseUnsigned(t[1..])
      case None => None
      case Some(v) => Some(-v)
    else if t != [] && t[0] == '+' then ParseUnsigned(t[1..])
    else ParseUnsigned(t)
  }

  function ParseUnsigned(u: string): Option<real>
  {
    var i := LeadingDigits(u);
    if i == 0 && FractionDigits(u[i..]) == 0 then None
    else Some(DigitsValue(u[..i]) as real + FractionValue(u[i..]))
  }

  /** The number of digits after a leading decimal point, if there is one. */
  function FractionDigits(rest: string): nat
  {
    if rest != [] && rest[0] == '.' then LeadingDigits(rest[1..]) else 0
  }

  function FractionValue(rest: string): real
  {
    if rest != [] && rest[0] == '.' then
      var f := LeadingDigits(rest[1..]);
      DigitsValue(rest[1..][..f]) as real / Pow10(f) as real
    else 0.0
  }

  lemma {:induction false} LeadingDigitsAll(s: string)
    requires forall i :: 0 <= i < |s| ==> IsDigit(s[i])
    ensures LeadingDigits(s) == |s|
  {
    if s != [] {
      LeadingDigitsAll(s[1..]);
    }
  }

  /** A string of digits alone parses to its value. */
  lemma ParseDigits(s: string)
    requires s != [] && forall i :: 0 <= i < |s| ==> IsDigit(s[i])
    ensures ParseFloat(s) == Some(DigitsValue(s) as real)
  {
    TrimStartKeeps(s);
    UnsignedIgnoresTail(s, []);
    assert s + [] == s;
  }

  /** The digits at the front are counted up to the first character that
      is not one. */
  lemma {:induction false} LeadingDigitsStop(s: string, t: string)
    requires forall i :: 0 <= i < |s| ==> IsDigit(s[i])
    requires t == [] || !IsDigit(t[0])
    ensures LeadingDigits(s + t) == |s|
  {
    if s == [] {
      assert s + t == t;
    } else {
      assert (s + t)[1..] == s[1..] + t;
      LeadingDigitsStop(s[1..], t);
    }
  }

  /** Whatever follows the number is ignored: digits followed by text that
      starts with neither a digit nor a decimal point parse to the digits'
      value, as `parseFloat("12abc")` gives 12. */
  lemma ParseIgnoresTail(s: string, t: string)
    requires s != [] && forall i :: 0 <= i < |s| ==> IsDigit(s[i])
    requires t == [] || (!IsDigit(t[0]) && t[0] != '.')
    ensures ParseFloat(s + t) == Some(DigitsValue(s) as real)
  {
    var u := s + t;
    TrimStartKeeps(u);
    UnsignedIgnoresTail(s, t);
  }

  lemma TrimStartKeeps(u: string)
    requires u != [] && IsDigit(u[0])
    ensures TrimStart(u) == u && u[0] != '-' && u[0] != '+'
  {
    assert !IsWhitespace(u[0]);
  }

  lemma UnsignedIgnoresTail(s: string, t: string)
    requires s != [] && forall i :: 0 <= i < |s| ==> IsDigit(s[i])
    requires t == [] || (!IsDigit(t[0]) && t[0] != '.')
    ensures ParseUnsigned(s + t) == Some(DigitsValue(s) as real)
  {
    var u := s + t;
    LeadingDigitsStop(s, t);
    assert u[..|s|] == s && u[|s|..] == t;
  }

  function DigitChar(d: nat): (c: char)
    requires d < 10
    ensures IsDigit(c) && DigitValue(c) == d
  {
    ('0' as int + d) as char
  }

  /** The decimal text of a natural number, as `Number.prototype.toString`
      writes an integral value. */
  function NatText(n: nat): (s: string)
    ensures s != [] && forall i :: 0 <= i < |s| ==> IsDigit(s[i])
  {
    if n < 10 then [DigitChar(n)] else NatText(n / 10) + [DigitChar(n % 10)]
  }

  lemma {:induction false} NatTextValue(n: nat)
    ensures DigitsValue(NatText(n)) == n
  {
    var s := NatText(n);
    if n < 10 {
      assert s[..|s| - 1] == [];
    } else {
      NatTextValue(n / 10);
      assert s[..|s| - 1] == NatText(n / 10);
    }
  }

  /** The text of an integral number parses back to it. */
  lemma ParseNatText(n: nat)
    ensures ParseFloat(NatText(n)) == Some(n as real)
  {
    NatTextValue(n);
    ParseDigits(NatText(n));
  }
}
