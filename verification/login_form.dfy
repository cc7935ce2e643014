/**
 * The login and sign-up forms of the first front end (frontend/js/auth.js):
 * the field validators, the e-mail pattern and the submit handlers, whose
 * effects on the page, the mock API and localStorage are returned as a trace.
 */
module LoginForm {
  import opened Wrappers
  import opened Text

  /** `Object.fromEntries(new FormData(form))`: input name to its value. */
  type FormData = map<string, string>

  /** The errors object: field name to message. */
  type Errors = map<string, string>

  const EmailMessage := "Please enter a valid email address"
  const LoginPasswordMessage := "Password must be at least 6 characters"
  const FirstNameMessage := "First name is required"
  const LastNameMessage := "Last name is required"
  const SignupPasswordMessage := "Password must be at least 8 characters"
  const ConfirmMessage := "Passwords do not match"

  /** `data.name`, which is `undefined` when the form has no such input. */
  function Field(data: FormData, name: string): Option<string> {
    if name in data then Some(data[name]) else None
  }

  /** `data.name` is truthy: present and not the empty string. */
  predicate Filled(data: FormData, name: string) {
    name in data && data[name] != ""
  }

  // ---------------------------------------------------------------------------
  // The e-mail pattern /^[^\s@]+@[^\s@]+\.[^\s@]+$/

  /** A character of the class `[^\s@]`. */
  predicate IsAtomChar(c: char) {
    !IsJsSpace(c) && c != '@'
  }

  /** A match of `[^\s@]+`. */
  predicate IsAtom(s: string) {
    s != [] && forall i :: 0 <= i < |s| ==> IsAtomChar(s[i])
  }

  /** The index of the first occurrence of `c` in `s`. */
  function IndexOf(s: string, c: char): (r: Option<nat>)
    ensures r.None? <==> c !in s
    ensures r.Some? ==> r.value < |s| && s[r.value] == c && c !in s[..r.value]
  {
    if s == [] then None
    else if s[0] == c then Some(0)
    else match IndexOf(s[1..], c)
      case None => None
      case Some(k) => assert s[..k + 1] == [s[0]] + s[1..][..k]; Some(k + 1)
  }

  /** `isValidEmail(email)`: cut at the first `@`; the part before it must be a
      non-empty run without whitespace, and the part after it must have no
      whitespace, no further `@` and a dot with a character on each side. */
  predicate IsValidEmail(email: string) {
    match IndexOf(email, '@')
    case None => false
    case Some(k) =>
      var domain := email[k + 1..];
      && IsAtom(email[..k])
      && (forall i :: 0 <= i < |domain| ==> IsAtomChar(domain[i]))
      && |domain| >= 3 && '.' in domain[1..|domain| - 1]
  }

  /** The reference reading of the regular expression: `email` is an atom, an
      `@` at `i`, an atom, a `.` at `j`, and an atom, with nothing else. */
  ghost predicate PatternSplit(email: string, i: int, j: int) {
    && 0 < i < j < |email| - 1
    && email[i] == '@' && email[j] == '.'
    && IsAtom(email[..i]) && IsAtom(email[i + 1..j]) && IsAtom(email[j + 1..])
  }

  /** `isValidEmail` accepts exactly the strings the regular expression matches. */
  lemma {:induction false} IsValidEmailMatchesPattern(email: string)
    ensures IsValidEmail(email) <==> exists i, j :: PatternSplit(email, i, j)
  {
    if IsValidEmail(email) {
      var k := IndexOf(email, '@').value;
      var j := ValidSplits(email, k);
      assert PatternSplit(email, k, j);
    }
    if exists i, j :: PatternSplit(email, i, j) {
      var i, j :| PatternSplit(email, i, j);
      SplitIsValid(email, i, j);
    }
  }

  /** A valid address cut at its first `@` has a dot that completes the split. */
  lemma {:induction false} ValidSplits(email: string, k: nat) returns (j: int)
    requires IsValidEmail(email) && IndexOf(email, '@') == Some(k)
    ensures PatternSplit(email, k, j)
  {
    var domain := email[k + 1..];
    var inner := domain[1..|domain| - 1];
    var d :| 0 <= d < |inner| && inner[d] == '.';
    j := k + 2 + d;
    assert email[j] == '.';
    var middle, last := email[k + 1..j], email[j + 1..];
    assert forall t :: 0 <= t < |middle| ==> middle[t] == domain[t];
    assert forall t :: 0 <= t < |last| ==> last[t] == domain[d + 2 + t];
    assert IsAtom(middle) && IsAtom(last);
  }

  /** A string the regular expression matches passes `isValidEmail`. */
  lemma {:induction false} SplitIsValid(email: string, i: int, j: int)
    requires PatternSplit(email, i, j)
    ensures IsValidEmail(email)
  {
    var first := email[..i];
    assert forall t :: 0 <= t < i ==> email[t] == first[t];
    assert '@' !in first;
    var k := IndexOf(email, '@').value;
    assert k == i;
    var domain, middle, last := email[i + 1..], email[i + 1..j], email[j + 1..];
    forall t | 0 <= t < |domain| ensures IsAtomChar(domain[t]) {
      if t < j - i - 1 {
        assert domain[t] == middle[t];
      } else if t > j - i - 1 {
        assert domain[t] == last[t - (j - i)];
      }
    }
    assert domain[1..|domain| - 1][j - i - 2] == '.';
  }

  /** `isValidEmail` in plain words: no whitespace, exactly one `@`, something
      before it, and after it a dot with at least one character on each side. */
  predicate PlainEmail(email: string) {
    && NoJsSpace(email)
    && CountChar(email, '@') == 1
    && match IndexOf(email, '@')
       case None => false
       case Some(k) => k > 0 && |email| - k >= 4 && '.' in email[k + 2..|email| - 1]
  }

  lemma {:induction false} IsValidEmailPlain(email: string)
    ensures IsValidEmail(email) <==> PlainEmail(email)
  {
    match IndexOf(email, '@')
    case None =>
      CountZeroIff(email, '@');
    case Some(k) =>
      var before, after := email[..k], email[k + 1..];
      CountAround(email, k);
      CountZeroIff(before, '@');
      CountZeroIff(after, '@');
      NoSpaceAround(email, k);
      if |after| >= 3 {
        assert after[1..|after| - 1] == email[k + 2..|email| - 1];
      }
  }

  lemma {:induction false} CountAround(s: string, k: nat)
    requires k < |s|
    ensures CountChar(s, s[k]) == CountChar(s[..k], s[k]) + 1 + CountChar(s[k + 1..], s[k])
  {
    var c, before, after := s[k], s[..k], s[k + 1..];
    assert s == before + [c] + after;
    CountCharAppend(before + [c], after, c);
    CountCharAppend(before, [c], c);
    assert CountChar([c], c) == 1;
  }

  lemma {:induction false} NoSpaceAround(s: string, k: nat)
    requires k < |s| && !IsJsSpace(s[k])
    ensures NoJsSpace(s) <==> NoJsSpace(s[..k]) && NoJsSpace(s[k + 1..])
  {
    if NoJsSpace(s[..k]) && NoJsSpace(s[k + 1..]) {
      forall t | 0 <= t < |s| ensures !IsJsSpace(s[t]) {
        if t < k { assert s[t] == s[..k][t]; }
        else if t > k { assert s[t] == s[k + 1..][t - k - 1]; }
      }
    }
  }

  // ---------------------------------------------------------------------------
  // Validators

  /** `validateLogin(data)`. */
  function ValidateLogin(data: FormData): (errors: Errors)
    ensures "email" in errors <==> !Filled(data, "email") || !IsValidEmail(data["email"])
    ensures "password" in errors <==> !Filled(data, "password") || JsLength(data["password"]) < 6
    ensures errors.Keys <= {"email", "password"}
    ensures "email" in errors ==> errors["email"] == EmailMessage
    ensures "password" in errors ==> errors["password"] == LoginPasswordMessage
  {
    var errors: Errors := map[];
    var errors := if !Filled(data, "email") || !IsValidEmail(data["email"])
                  then errors["email" := EmailMessage] else errors;
    var errors := if !Filled(data, "password") || JsLength(data["password"]) < 6
                  then errors["password" := LoginPasswordMessage] else errors;
    errors
  }

  /** `validateSignup(data)`. */
  function ValidateSignup(data: FormData): (errors: Errors)
    ensures "firstName" in errors <==> !Filled(data, "firstName") || JsLength(data["firstName"]) < 2
    ensures "lastName" in errors <==> !Filled(data, "lastName") || JsLength(data["lastName"]) < 2
    ensures "email" in errors <==> !Filled(data, "email") || !IsValidEmail(data["email"])
    ensures "password" in errors <==> !Filled(data, "password") || JsLength(data["password"]) < 8
    ensures "confirmPassword" in errors <==> Field(data, "password") != Field(data, "confirmPassword")
    ensures errors.Keys <= {"firstName", "lastName", "email", "password", "confirmPassword"}
    ensures "firstName" in errors ==> errors["firstName"] == FirstNameMessage
    ensures "lastName" in errors ==> errors["lastName"] == LastNameMessage
    ensures "email" in errors ==> errors["email"] == EmailMessage
    ensures "password" in errors ==> errors["password"] == SignupPasswordMessage
    ensures "confirmPassword" in errors ==> errors["confirmPassword"] == ConfirmMessage
  {
    var errors: Errors := map[];
    var errors := if !Filled(data, "firstName") || JsLength(data["firstName"]) < 2
                  then errors["firstName" := FirstNameMessage] else errors;
    var errors := if !Filled(data, "lastName") || JsLength(data["lastName"]) < 2
                  then errors["lastName" := LastNameMessage] else errors;
    var errors := if !Filled(data, "email") || !IsValidEmail(data["email"])
                  then errors["email" := EmailMessage] else errors;
    var errors := if !Filled(data, "password") || JsLength(data["password"]) < 8
                  then errors["password" := SignupPasswordMessage] else errors;
    var errors := if Field(data, "password") != Field(data, "confirmPassword")
                  then errors["confirmPassword" := ConfirmMessage] else errors;
    errors
  }

  /** Whatever sign-up accepts, login accepts: the sign-up password rule (8
      characters) is stricter than the login one (6), and the e-mail rule is
      the same. */
  lemma SignupAcceptedLoginAccepted(data: FormData)
    requires ValidateSignup(data) == map[]
    ensures ValidateLogin(data) == map[]
  {
    assert "email" !in ValidateSignup(data);
    assert "password" !in ValidateSignup(data);
  }

  // ---------------------------------------------------------------------------
  // Submit handlers

  /** What a handler does, in order. */
  datatype Effect =
    | SetLoading(on: bool)
    | ShowFieldErrors(errors: Errors)
    | ApiCall(endpoint: string, body: FormData)
    | SetItem(key: string, value: string)
    | Redirect(page: string)
    | ShowError(message: string)

  predicate WritesStorage(trace: seq<Effect>) {
    exists i :: 0 <= i < |trace| && trace[i].SetItem?
  }

  predicate CallsApi(trace: seq<Effect>) {
    exists i :: 0 <= i < |trace| && trace[i].ApiCall?
  }

  /** The body shared by `handleLogin` and `handleSignup`: validate, return
      early on errors, else call the API and, if it answers, store a mock token
      (`'mock-jwt-token-' + Date.now()`) and the role and go to the dashboard;
      the loading state is switched off in `finally` on every path. The mock
      API's random outcome and the clock are parameters. */
  function Submit(errors: Errors, endpoint: string, data: FormData, failure: string,
                  apiSucceeds: bool, now: nat): (trace: seq<Effect>)
    ensures |trace| >= 3 && trace[0] == SetLoading(true) && trace[|trace| - 1] == SetLoading(false)
    ensures errors != map[] ==> !CallsApi(trace) && !WritesStorage(trace)
    ensures errors != map[] ==> trace[1] == ShowFieldErrors(errors)
    ensures errors == map[] ==> trace[1] == ApiCall(endpoint, data)
    ensures WritesStorage(trace) <==> errors == map[] && apiSucceeds
    ensures WritesStorage(trace) ==>
      && SetItem("medicare_token", "mock-jwt-token-" + Decimal(now)) in trace
      && SetItem("medicare_role", "patient") in trace
      && Redirect("dashboard.html") in trace
    ensures Redirect("dashboard.html") in trace ==> WritesStorage(trace)
    ensures ShowError(failure) in trace <==> errors == map[] && !apiSucceeds
  {
    if errors != map[] then
      [SetLoading(true), ShowFieldErrors(errors), SetLoading(false)]
    else if !apiSucceeds then
      [SetLoading(true), ApiCall(endpoint, data), ShowError(failure), SetLoading(false)]
    else
      var trace := [ SetLoading(true), ApiCall(endpoint, data),
                     SetItem("medicare_token", "mock-jwt-token-" + Decimal(now)),
                     SetItem("medicare_role", "patient"),
                     Redirect("dashboard.html"), SetLoading(false) ];
      assert trace[2].SetItem?;
      trace
  }

  /** `handleLogin`: errors from `validateLogin` stop it before the API call and
      before any token is written. */
  function HandleLogin(data: FormData, apiSucceeds: bool, now: nat): (trace: seq<Effect>)
    ensures |trace| >= 3
    ensures ValidateLogin(data) != map[] ==> !CallsApi(trace) && !WritesStorage(trace)
    ensures ValidateLogin(data) == map[] ==> trace[1] == ApiCall("/api/auth/login", data)
    ensures WritesStorage(trace) <==> ValidateLogin(data) == map[] && apiSucceeds
    ensures !apiSucceeds && ValidateLogin(data) == map[] ==>
      ShowError("Invalid email or password. Please try again.") in trace
  {
    Submit(ValidateLogin(data), "/api/auth/login", data,
           "Invalid email or password. Please try again.", apiSucceeds, now)
  }

  /** `handleSignup`: errors from `validateSignup` stop it before the API call
      and before any token is written. */
  function HandleSignup(data: FormData, apiSucceeds: bool, now: nat): (trace: seq<Effect>)
    ensures |trace| >= 3
    ensures ValidateSignup(data) != map[] ==> !CallsApi(trace) && !WritesStorage(trace)
    ensures ValidateSignup(data) == map[] ==> trace[1] == ApiCall("/api/auth/signup", data)
    ensures WritesStorage(trace) <==> ValidateSignup(data) == map[] && apiSucceeds
    ensures !apiSucceeds && ValidateSignup(data) == map[] ==>
      ShowError("Account creation failed. Please try again.") in trace
  {
    Submit(ValidateSignup(data), "/api/auth/signup", data,
           "Account creation failed. Please try again.", apiSucceeds, now)
  }
}
