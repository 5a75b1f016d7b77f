/**
  The add-user wizard as values: the record being entered, the per-step
  validation rules with their exact messages, and the wizard session with the
  transition each user intent (edit a field, Next, Back, Submit) causes.
  The stateful component in module AddUserWizard is specified by these
  functions.
 */
module Form {
  import opened Optional
  import opened Text
  import opened Decimal

  /** The five inputs of the form, by their `name` attribute. */
  datatype Field = Name | Email | Street | City | Zip

  /** The record being built; every field is plain text, empty when untouched. */
  datatype Record = Record(name: string, email: string, street: string, city: string, zip: string)
  {
    function Get(f: Field): string {
      match f
      case Name => name
      case Email => email
      case Street => street
      case City => city
      case Zip => zip
    }

    /** The record with field `f` set to `v` (the spread `{...prev, [name]: value}`). */
    function With(f: Field, v: string): (r: Record)
      ensures r.Get(f) == v
      ensures forall g :: g != f ==> r.Get(g) == Get(g)
    {
      match f
      case Name => this.(name := v)
      case Email => this.(email := v)
      case Street => this.(street := v)
      case City => this.(city := v)
      case Zip => this.(zip := v)
    }
  }

  const EmptyRecord := Record("", "", "", "", "")

  /** Field errors; a field without a key has no error. */
  type ErrorMap = map<Field, string>

  const NameRequired := "Name is required"
  const EmailRequired := "Email is required"
  const EmailInvalid := "Please enter a valid email address"
  const StreetRequired := "Street address is required"
  const CityRequired := "City is required"
  const PinRequired := "PIN code is required"
  const PinInvalid := "Please enter a valid 6-digit Indian PIN code"

  /** The fields each step shows and validates: basic info, then address; the
      review step has none. */
  function StepFields(step: int): set<Field> {
    if step == 1 then {Name, Email}
    else if step == 2 then {Street, City, Zip}
    else {}
  }

  // ---------------------------------------------------------------------
  // Email: /^[^\s@]+@[^\s@]+\.[^\s@]+$/

  /** The character class `[^\s@]`. */
  predicate EmailChar(c: char) {
    !IsWhitespace(c) && c != '@'
  }

  /** `[^\s@]*`: every character is in the class. */
  predicate EmailRun(s: string) {
    forall i :: 0 <= i < |s| ==> EmailChar(s[i])
  }

  /** The match of the email pattern that puts the `@` at `i` and the literal
      `.` at `j`; each of the three runs around them is non-empty. */
  predicate EmailMatchAt(s: string, i: int, j: int) {
    && 0 < i && i + 1 < j < |s| - 1
    && s[i] == '@' && s[j] == '.'
    && EmailRun(s[..i]) && EmailRun(s[i + 1..j]) && EmailRun(s[j + 1..])
  }

  /** The email pattern matches the whole of `s`. */
  predicate MatchesEmailPattern(s: string) {
    exists i, j | 0 <= i < |s| && 0 <= j < |s| :: EmailMatchAt(s, i, j)
  }

  predicate NoWhitespace(s: string) {
    forall i :: 0 <= i < |s| ==> !IsWhitespace(s[i])
  }

  /** The shape of an address read structurally: no whitespace anywhere, one
      `@` with something before it, and after it a domain holding a `.` that
      is neither its first nor its last character. */
  predicate IsEmailShape(s: string) {
    var at := IndexOf(s, '@');
    var domain := if at < 0 then "" else s[at + 1..];
    && 0 < at && NoWhitespace(s) && '@' !in domain
    && |domain| >= 3 && '.' in domain[1..|domain| - 1]
  }

  lemma EmailRunConcat(a: string, b: string)
    ensures EmailRun(a + b) <==> EmailRun(a) && EmailRun(b)
  {
    if EmailRun(a + b) {
      forall k | 0 <= k < |a| ensures EmailChar(a[k]) {
        assert a[k] == (a + b)[k];
      }
      forall k | 0 <= k < |b| ensures EmailChar(b[k]) {
        assert b[k] == (a + b)[|a| + k];
      }
    }
  }

  lemma NoWhitespaceConcat(a: string, b: string)
    ensures NoWhitespace(a + b) <==> NoWhitespace(a) && NoWhitespace(b)
  {
    if NoWhitespace(a + b) {
      forall k | 0 <= k < |a| ensures !IsWhitespace(a[k]) {
        assert a[k] == (a + b)[k];
      }
      forall k | 0 <= k < |b| ensures !IsWhitespace(b[k]) {
        assert b[k] == (a + b)[|a| + k];
      }
    }
  }

  /** `[^\s@]*` holds exactly the strings with neither whitespace nor `@`. */
  lemma EmailRunIff(s: string)
    ensures EmailRun(s) <==> NoWhitespace(s) && '@' !in s
  {
  }

  lemma FirstAt(s: string, i: int)
    requires 0 <= i < |s| && s[i] == '@' && '@' !in s[..i]
    ensures IndexOf(s, '@') == i
  {
    assert s[..i + 1] == s[..i] + "@";
  }

  /** A match of the pattern is a well-shaped address. */
  lemma PatternGivesShape(s: string, i: int, j: int)
    requires EmailMatchAt(s, i, j)
    ensures IsEmailShape(s)
  {
    var local, host, tld := s[..i], s[i + 1..j], s[j + 1..];
    var domain := s[i + 1..];
    assert domain == host + "." + tld;
    assert s == local + "@" + domain;
    EmailRunIff(local);
    FirstAt(s, i);
    EmailRunConcat(host, ".");
    EmailRunConcat(host + ".", tld);
    EmailRunIff(domain);
    NoWhitespaceConcat(local, "@");
    NoWhitespaceConcat(local + "@", domain);
    assert domain[1..|domain| - 1][j - i - 2] == '.';
  }

  /** A well-shaped address matches the pattern. */
  lemma ShapeGivesPattern(s: string)
    requires IsEmailShape(s)
    ensures MatchesEmailPattern(s)
  {
    var at := IndexOf(s, '@');
    var local, domain := s[..at], s[at + 1..];
    assert s == local + "@" + domain;
    NoWhitespaceConcat(local, "@");
    NoWhitespaceConcat(local + "@", domain);
    EmailRunIff(local);
    EmailRunIff(domain);
    var m :| 0 <= m < |domain| - 2 && domain[1..|domain| - 1][m] == '.';
    var j := at + 2 + m;
    var host, tld := s[at + 1..j], s[j + 1..];
    assert domain == host + "." + tld;
    EmailRunConcat(host, ".");
    EmailRunConcat(host + ".", tld);
    assert EmailMatchAt(s, at, j);
  }

  /** The regular expression accepts exactly the structurally well-shaped addresses. */
  lemma EmailPatternIffShape(s: string)
    ensures MatchesEmailPattern(s) <==> IsEmailShape(s)
  {
    if MatchesEmailPattern(s) {
      var i, j :| 0 <= i < |s| && 0 <= j < |s| && EmailMatchAt(s, i, j);
      PatternGivesShape(s, i, j);
    }
    if IsEmailShape(s) {
      ShapeGivesPattern(s);
    }
  }

  // ---------------------------------------------------------------------
  // PIN code: /^[1-9][0-9]{5}$/

  /** The PIN pattern matches the whole of `s`. */
  predicate MatchesPinPattern(s: string) {
    |s| == 6 && '1' <= s[0] <= '9' && forall i :: 1 <= i < 6 ==> IsDigit(s[i])
  }

  /** `s` is the numeral of a six-digit number. */
  ghost predicate IsSixDigitNumeral(s: string) {
    exists n :: 100000 <= n <= 999999 && s == NatToString(n)
  }

  /** A PIN code is accepted exactly when it is the numeral of a number from
      100000 to 999999. */
  lemma PinPatternIffSixDigitNumeral(s: string)
    ensures MatchesPinPattern(s) <==> IsSixDigitNumeral(s)
  {
    assert Pow10(5) == 100000 && Pow10(6) == 1000000;
    if MatchesPinPattern(s) {
      assert AllDigits(s);
      DigitsValueBounds(s);
      NatToStringOfDigits(s);
      var n := DigitsValue(s);
      assert 100000 <= n <= 999999 && s == NatToString(n);
    }
    if IsSixDigitNumeral(s) {
      var n :| 100000 <= n <= 999999 && s == NatToString(n);
      NatToStringLength(n, 6);
    }
  }

  /** The PIN check on example inputs: a six-digit code passes; five digits,
      a leading zero and a leading space fail. */
  lemma PinExamples()
    ensures IsSixDigitNumeral("560001")
    ensures !IsSixDigitNumeral("12345") && !IsSixDigitNumeral("012345")
    ensures !IsSixDigitNumeral(" 560001")
  {
    PinPatternIffSixDigitNumeral("560001");
    PinPatternIffSixDigitNumeral("12345");
    PinPatternIffSixDigitNumeral("012345");
    PinPatternIffSixDigitNumeral(" 560001");
  }

  // ---------------------------------------------------------------------
  // Validation of one step

  /** The message a field gets when it fails its rule, or `None` when it
      passes. Every field must be non-blank after trimming; the email and the
      PIN code are then matched untrimmed against their patterns. */
  function FieldError(f: Field, r: Record): Option<string> {
    match f
    case Name => if Trim(r.name) == "" then Some(NameRequired) else None
    case Email =>
      if Trim(r.email) == "" then Some(EmailRequired)
      else if !MatchesEmailPattern(r.email) then Some(EmailInvalid)
      else None
    case Street => if Trim(r.street) == "" then Some(StreetRequired) else None
    case City => if Trim(r.city) == "" then Some(CityRequired) else None
    case Zip =>
      if Trim(r.zip) == "" then Some(PinRequired)
      else if !MatchesPinPattern(r.zip) then Some(PinInvalid)
      else None
  }

  /** Records the outcome of one field's check in an error map. */
  function Put(e: ErrorMap, f: Field, outcome: Option<string>): (e': ErrorMap)
    ensures f in e' <==> f in e || outcome.Some?
    ensures outcome.Some? ==> e'[f] == outcome.value
    ensures forall g :: g != f ==> (g in e' <==> g in e)
    ensures forall g :: g != f && g in e ==> e'[g] == e[g]
  {
    if outcome.Some? then e[f := outcome.value] else e
  }

  /** The error map a validation of `step` produces for `r`: the fields of
      that step are checked in order, each failing field gets its message, and
      no other field gets a key; steps other than 1 and 2 produce an empty
      map. */
  function StepErrors(step: int, r: Record): (e: ErrorMap)
    ensures e.Keys <= StepFields(step)
    ensures step != 1 && step != 2 ==> e == map[]
  {
    if step == 1 then
      Put(Put(map[], Name, FieldError(Name, r)), Email, FieldError(Email, r))
    else if step == 2 then
      Put(Put(Put(map[], Street, FieldError(Street, r)), City, FieldError(City, r)), Zip, FieldError(Zip, r))
    else
      map[]
  }

  /** Step 1 reports "Name is required" exactly when the name is blank. */
  lemma NameRequiredIffBlank(r: Record)
    ensures Name in StepErrors(1, r) <==> AllWhitespace(r.name)
    ensures Name in StepErrors(1, r) ==> StepErrors(1, r)[Name] == NameRequired
  {
    TrimEmptyIffAllWhitespace(r.name);
  }

  /** Step 1 reports "Email is required" for a blank email; otherwise it reports
      "Please enter a valid email address" exactly when the address is not
      well shaped. */
  lemma EmailErrorCases(r: Record)
    ensures AllWhitespace(r.email) ==> StepErrors(1, r)[Email] == EmailRequired
    ensures !AllWhitespace(r.email) ==>
      && (Email in StepErrors(1, r) <==> !IsEmailShape(r.email))
      && (Email in StepErrors(1, r) ==> StepErrors(1, r)[Email] == EmailInvalid)
  {
    TrimEmptyIffAllWhitespace(r.email);
    EmailPatternIffShape(r.email);
  }

  /** Step 2 reports "Street address is required" and "City is required"
      exactly for a blank street and a blank city. */
  lemma AddressRequiredIffBlank(r: Record)
    ensures Street in StepErrors(2, r) <==> AllWhitespace(r.street)
    ensures Street in StepErrors(2, r) ==> StepErrors(2, r)[Street] == StreetRequired
    ensures City in StepErrors(2, r) <==> AllWhitespace(r.city)
    ensures City in StepErrors(2, r) ==> StepErrors(2, r)[City] == CityRequired
  {
    TrimEmptyIffAllWhitespace(r.street);
    TrimEmptyIffAllWhitespace(r.city);
  }

  /** Step 2 reports "PIN code is required" for a blank PIN code; otherwise the
      PIN code is accepted exactly when it is a six-digit numeral without a
      leading zero. */
  lemma PinErrorCases(r: Record)
    ensures AllWhitespace(r.zip) ==> StepErrors(2, r)[Zip] == PinRequired
    ensures !AllWhitespace(r.zip) ==>
      && (Zip !in StepErrors(2, r) <==> IsSixDigitNumeral(r.zip))
      && (Zip in StepErrors(2, r) ==> StepErrors(2, r)[Zip] == PinInvalid)
  {
    TrimEmptyIffAllWhitespace(r.zip);
    PinPatternIffSixDigitNumeral(r.zip);
  }

  lemma ShapedEmailNotBlank(s: string)
    requires IsEmailShape(s)
    ensures !AllWhitespace(s)
  {
    assert !IsWhitespace(s[0]);
  }

  lemma PinNotBlank(s: string)
    requires MatchesPinPattern(s)
    ensures !AllWhitespace(s)
  {
    assert !IsWhitespace(s[0]);
  }

  /** The basic-info step passes exactly when the name is not blank and the
      email is well shaped. */
  lemma BasicInfoValidIff(r: Record)
    ensures StepErrors(1, r) == map[] <==> !AllWhitespace(r.name) && IsEmailShape(r.email)
  {
    NameRequiredIffBlank(r);
    EmailErrorCases(r);
    if IsEmailShape(r.email) {
      ShapedEmailNotBlank(r.email);
    }
  }

  /** The address step passes exactly when street and city are not blank and
      the PIN code is a six-digit numeral without a leading zero. */
  lemma AddressValidIff(r: Record)
    ensures StepErrors(2, r) == map[] <==>
      !AllWhitespace(r.street) && !AllWhitespace(r.city) && IsSixDigitNumeral(r.zip)
  {
    AddressRequiredIffBlank(r);
    PinErrorCases(r);
    if IsSixDigitNumeral(r.zip) {
      PinPatternIffSixDigitNumeral(r.zip);
      PinNotBlank(r.zip);
    }
  }

  // ---------------------------------------------------------------------
  // The wizard session and the user's intents

  /** What the page holds: the current step, the record and the error map. */
  datatype Session = Session(step: int, formData: Record, errors: ErrorMap)

  const InitialSession := Session(1, EmptyRecord, map[])

  /** What the user can do: type into an input, press Next, Back or Submit. */
  datatype Intent = Edit(field: Field, value: string) | Next | Back | Submit

  /** An edited field loses its error; the others keep theirs. */
  function ClearError(errors: ErrorMap, f: Field): (e: ErrorMap)
    ensures f !in e
    ensures forall g :: g != f ==> (g in e <==> g in errors)
    ensures forall g :: g in e ==> e[g] == errors[g]
  {
    if f in errors then errors - {f} else errors
  }

  /** The session after one intent: an edit sets one field and clears its
      error; Next validates the current step, publishes the new error map and
      moves on by one when it is empty; Back moves back by one; Submit leaves
      the session as it is. No step is clamped. */
  function Apply(s: Session, i: Intent): Session {
    match i
    case Edit(f, v) => Session(s.step, s.formData.With(f, v), ClearError(s.errors, f))
    case Next =>
      var e := StepErrors(s.step, s.formData);
      Session(if e == map[] then s.step + 1 else s.step, s.formData, e)
    case Back => s.(step := s.step - 1)
    case Submit => s
  }

  /** Whether the page offers the intent: inputs exist only for the current
      step's fields, Back only after the first step, Next only before the
      last, and Submit in place of Next. */
  predicate Offered(s: Session, i: Intent) {
    match i
    case Edit(f, _) => f in StepFields(s.step)
    case Next => s.step < 3
    case Back => s.step > 1
    case Submit => !(s.step < 3)
  }

  /** The session after a sequence of intents. */
  function Run(s: Session, intents: seq<Intent>): Session
    decreases |intents|
  {
    if intents == [] then s else Run(Apply(s, intents[0]), intents[1..])
  }

  /** Every intent of the sequence is offered by the page when it happens. */
  predicate AllOffered(s: Session, intents: seq<Intent>)
    decreases |intents|
  {
    intents == [] || (Offered(s, intents[0]) && AllOffered(Apply(s, intents[0]), intents[1..]))
  }

  /** What stays true on every session the page can reach: the step is 1, 2 or 3,
      and the error map holds only fields of the current step or of the next
      one (Back after a failed Next keeps the later step's errors). */
  ghost predicate Reachable(s: Session) {
    1 <= s.step <= 3 && s.errors.Keys <= StepFields(s.step) + StepFields(s.step + 1)
  }

  /** Each offered intent keeps a session reachable. */
  lemma ApplyKeepsReachable(s: Session, i: Intent)
    requires Reachable(s) && Offered(s, i)
    ensures Reachable(Apply(s, i))
  {
    if i.Back? {
      assert StepFields(s.step + 1) <= StepFields(s.step - 1) + StepFields(s.step);
    }
  }

  /** Starting from a reachable session, any sequence of intents the page
      offers keeps the step within 1..3 and the errors near the current step. */
  lemma {:induction false} RunKeepsReachable(s: Session, intents: seq<Intent>)
    requires Reachable(s) && AllOffered(s, intents)
    ensures Reachable(Run(s, intents))
    decreases |intents|
  {
    if intents != [] {
      ApplyKeepsReachable(s, intents[0]);
      RunKeepsReachable(Apply(s, intents[0]), intents[1..]);
    }
  }

  /** Stale errors: a failed Next on the address step followed by Back leaves
      the address errors in the map while the basic-info step is shown. */
  lemma StaleErrorsAfterBack(r: Record)
    requires r.street == ""
    ensures var s0 := Session(2, r, map[]);
      var s1 := Apply(s0, Next);
      var s2 := Apply(s1, Back);
      && Offered(s0, Next) && Offered(s1, Back)
      && s2.step == 1 && Street in s2.errors && s2.errors[Street] == StreetRequired
      && !(s2.errors.Keys <= StepFields(s2.step))
  {
    assert FieldError(Street, r) == Some(StreetRequired);
  }
}
