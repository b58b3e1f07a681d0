/** The sign-up form's validation schema: one predicate per field, each a
    conjunction of length bounds and character-class tests, and the
    lower-casing applied to the email as it is typed. */
module SignUp {

  datatype SignUpForm = SignUpForm(
    firstName: string,
    lastName: string,
    email: string,
    phoneNumber: string,
    password: string)

  predicate IsAsciiLower(c: char) { 'a' <= c <= 'z' }
  predicate IsAsciiUpper(c: char) { 'A' <= c <= 'Z' }
  /** `\d` without the `u` flag, and `[0-9]`. */
  predicate IsAsciiDigit(c: char) { '0' <= c <= '9' }
  /** `[@$!%*?&#]`. */
  predicate IsPasswordSymbol(c: char) { c in "@$!%*?&#" }

  /** The character classes the password patterns test for. */
  datatype CharClass = Lowercase | Uppercase | Digit | Symbol

  predicate InClass(c: char, k: CharClass) {
    match k
    case Lowercase => IsAsciiLower(c)
    case Uppercase => IsAsciiUpper(c)
    case Digit => IsAsciiDigit(c)
    case Symbol => IsPasswordSymbol(c)
  }

  /** An unanchored one-class pattern such as `/[a-z]/`, tested
      left to right: it matches when some character is in the class. */
  function MatchesClass(s: string, k: CharClass): (found: bool)
    ensures found <==> exists i :: 0 <= i < |s| && InClass(s[i], k)
  {
    if s == [] then false
    else if InClass(s[0], k) then true
    else
      assert forall i :: 1 <= i < |s| ==> s[i] == s[1..][i - 1];
      MatchesClass(s[1..], k)
  }

  /** `\d*` anchored at both ends: every character is a digit. */
  function AllDigits(s: string): (ok: bool)
    ensures ok <==> forall i :: 0 <= i < |s| ==> IsAsciiDigit(s[i])
  {
    if s == [] then true
    else
      assert forall i :: 1 <= i < |s| ==> s[i] == s[1..][i - 1];
      IsAsciiDigit(s[0]) && AllDigits(s[1..])
  }

  /** Yup's `required()` on a string: the empty string counts as missing. */
  predicate Required(s: string) { s != "" }

  /** Yup's `min(n)`: at least `n` characters. */
  predicate MinLength(s: string, n: nat) { |s| >= n }

  /** `/^\d{10,15}$/`. */
  predicate PhonePattern(s: string) {
    10 <= |s| <= 15 && AllDigits(s)
  }

  /** `firstName` and `lastName`: `min(2)` and `required()`; any two
      characters will do, spaces included. */
  function NameAccepted(s: string): (ok: bool)
    ensures ok <==> |s| >= 2
    ensures ok ==> Required(s)
  {
    MinLength(s, 2) && Required(s)
  }

  /** `phoneNumber`: only ASCII digits, between 10 and 15 of them. */
  function PhoneNumberAccepted(s: string): (ok: bool)
    ensures ok <==> 10 <= |s| <= 15 && forall i :: 0 <= i < |s| ==> IsAsciiDigit(s[i])
  {
    PhonePattern(s) && Required(s)
  }

  /** `password`: at least eight characters with a lowercase letter, an
      uppercase letter, a digit and one of `@$!%*?&#`. */
  function PasswordAccepted(p: string): (ok: bool)
    ensures ok <==>
      && |p| >= 8
      && (exists i :: 0 <= i < |p| && IsAsciiLower(p[i]))
      && (exists i :: 0 <= i < |p| && IsAsciiUpper(p[i]))
      && (exists i :: 0 <= i < |p| && IsAsciiDigit(p[i]))
      && (exists i :: 0 <= i < |p| && IsPasswordSymbol(p[i]))
  {
    && MinLength(p, 8)
    && MatchesClass(p, Lowercase)
    && MatchesClass(p, Uppercase)
    && MatchesClass(p, Digit)
    && MatchesClass(p, Symbol)
    && Required(p)
  }

  /** The tests of the password chain, in the order they are declared. */
  datatype PasswordRule = AtLeastEight | HasLowercase | HasUppercase | HasDigit | HasSymbol | PasswordRequired

  predicate RuleHolds(p: string, rule: PasswordRule) {
    match rule
    case AtLeastEight => MinLength(p, 8)
    case HasLowercase => MatchesClass(p, Lowercase)
    case HasUppercase => MatchesClass(p, Uppercase)
    case HasDigit => MatchesClass(p, Digit)
    case HasSymbol => MatchesClass(p, Symbol)
    case PasswordRequired => Required(p)
  }

  const PasswordChain: seq<PasswordRule> :=
    [AtLeastEight, HasLowercase, HasUppercase, HasDigit, HasSymbol, PasswordRequired]

  /** The rules of `chain` that `p` breaks, in chain order: what a
      validation run that collects every failure reports. */
  function FailedRules(p: string, chain: seq<PasswordRule>): (failed: seq<PasswordRule>)
    ensures |failed| <= |chain|
    ensures forall r :: r in failed <==> r in chain && !RuleHolds(p, r)
    ensures |chain| == 1 ==> failed == if RuleHolds(p, chain[0]) then [] else chain
  {
    if chain == [] then []
    else if RuleHolds(p, chain[0]) then FailedRules(p, chain[1..])
    else [chain[0]] + FailedRules(p, chain[1..])
  }

  /** Running the chain in two parts reports the first part's failures
      before the second's: together with the one-rule case this fixes the
      order of the report to the order of the chain. */
  lemma {:induction false} FailedRulesAppend(p: string, a: seq<PasswordRule>, b: seq<PasswordRule>)
    ensures FailedRules(p, a + b) == FailedRules(p, a) + FailedRules(p, b)
  {
    if a == [] {
      assert a + b == b;
    } else {
      assert (a + b)[0] == a[0] && (a + b)[1..] == a[1..] + b;
      FailedRulesAppend(p, a[1..], b);
    }
  }

  /** A password is accepted exactly when no test of the chain fails, and
      every password shorter than eight characters is reported as such. */
  lemma PasswordAcceptedIffNoFailure(p: string)
    ensures PasswordAccepted(p) <==> FailedRules(p, PasswordChain) == []
    ensures |p| < 8 ==> AtLeastEight in FailedRules(p, PasswordChain)
  {
    var failed := FailedRules(p, PasswordChain);
    if failed != [] {
      assert failed[0] in failed;
    } else {
      assert PasswordChain[0] == AtLeastEight && PasswordChain[1] == HasLowercase;
      assert PasswordChain[2] == HasUppercase && PasswordChain[3] == HasDigit;
      assert PasswordChain[4] == HasSymbol && PasswordChain[5] == PasswordRequired;
      assert forall r :: r in PasswordChain ==> RuleHolds(p, r);
      assert RuleHolds(p, AtLeastEight) && RuleHolds(p, HasLowercase) && RuleHolds(p, HasUppercase);
      assert RuleHolds(p, HasDigit) && RuleHolds(p, HasSymbol) && RuleHolds(p, PasswordRequired);
    }
  }

  /** The whole schema. The `email()` format test is not modelled: its
      verdict comes in as `emailWellFormed`. */
  function FormAccepted(f: SignUpForm, emailWellFormed: bool): (ok: bool)
    ensures ok <==>
      && |f.firstName| >= 2 && |f.lastName| >= 2
      && emailWellFormed && f.email != ""
      && PhoneNumberAccepted(f.phoneNumber) && PasswordAccepted(f.password)
  {
    && NameAccepted(f.firstName)
    && NameAccepted(f.lastName)
    && emailWellFormed && Required(f.email)
    && PhoneNumberAccepted(f.phoneNumber)
    && PasswordAccepted(f.password)
  }

  /** `toLowerCase` on one character, for the ASCII letters. */
  function LowerChar(c: char): (d: char)
    ensures !IsAsciiUpper(d)
    ensures IsAsciiUpper(c) ==> d as int == c as int + 32
    ensures !IsAsciiUpper(c) ==> d == c
  {
    if IsAsciiUpper(c) then (c as int + 32) as char else c
  }

  function ToLower(s: string): (r: string)
    ensures |r| == |s|
    ensures forall i :: 0 <= i < |s| ==> r[i] == LowerChar(s[i])
  {
    if s == [] then [] else [LowerChar(s[0])] + ToLower(s[1..])
  }

  /** Lower-casing twice is lower-casing once. */
  lemma ToLowerIdempotent(s: string)
    ensures ToLower(ToLower(s)) == ToLower(s)
  {
  }

  /** The email input's `onChangeText`: the typed text is stored
      lower-cased and no other field changes. */
  function OnEmailChange(f: SignUpForm, typed: string): (g: SignUpForm)
    ensures |g.email| == |typed|
    ensures forall i :: 0 <= i < |g.email| ==> !IsAsciiUpper(g.email[i])
    ensures forall i :: 0 <= i < |typed| && !IsAsciiUpper(typed[i]) ==> g.email[i] == typed[i]
    ensures forall i :: 0 <= i < |typed| && IsAsciiUpper(typed[i]) ==>
      IsAsciiLower(g.email[i]) && g.email[i] as int == typed[i] as int + 32
    ensures g.email == ToLower(typed)
    ensures g.firstName == f.firstName && g.lastName == f.lastName
    ensures g.phoneNumber == f.phoneNumber && g.password == f.password
  {
    f.(email := ToLower(typed))
  }
}
