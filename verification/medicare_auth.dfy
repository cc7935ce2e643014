/**
 * The tabbed login/sign-up page of the second front end
 * (medicare/frontend/js/auth.js, and its copy frntend/js/auth.js): the ordered
 * checks of the two submit handlers and the user record `processLogin` saves.
 * Reading inputs, notifications, button states and localStorage writes are not
 * modelled; a handler's outcome is either the message it shows or the
 * arguments it passes to `processLogin`.
 */
module MedicareAuth {
  import opened Text

  const EmptyEmailMessage := "Please enter your email!"
  const FillAllMessage := "Please fill all fields!"
  const MismatchMessage := "Passwords do not match!"
  const ShortPasswordMessage := "Password must be at least 6 characters!"

  datatype Outcome =
    | Rejected(message: string)
    | Proceed(email: string, role: string, name: string)

  /** The `userData` object saved under `medicare_user`. */
  datatype UserData = UserData(name: string, email: string, role: string, timestamp: string)

  /** `handleLogin`, given the raw value of the e-mail input. */
  function HandleLogin(emailValue: string): (r: Outcome)
    ensures r.Rejected? <==> forall i :: 0 <= i < |emailValue| ==> IsJsSpace(emailValue[i])
    ensures r.Rejected? ==> r.message == EmptyEmailMessage
    ensures r.Proceed? ==> r.role == "patient" && r.name == "Patient User" && r.email == Trim(emailValue)
  {
    var email := Trim(emailValue);
    if email == "" then Rejected(EmptyEmailMessage)
    else Proceed(email, "patient", "Patient User")
  }

  /** All five sign-up fields are non-empty after name and e-mail are trimmed;
      the role and the passwords are taken as they are. */
  predicate AllFilled(nameValue: string, emailValue: string, role: string,
                      password1: string, password2: string) {
    Trim(nameValue) != "" && Trim(emailValue) != "" && role != "" && password1 != "" && password2 != ""
  }

  /** `handleSignup`, given the raw values of the name, e-mail, role and two
      password inputs. The checks run in order and the first failing one
      decides the single message shown. */
  function HandleSignup(nameValue: string, emailValue: string, role: string,
                        password1: string, password2: string): (r: Outcome)
    ensures !AllFilled(nameValue, emailValue, role, password1, password2) ==>
      r == Rejected(FillAllMessage)
    ensures AllFilled(nameValue, emailValue, role, password1, password2) && password1 != password2 ==>
      r == Rejected(MismatchMessage)
    ensures AllFilled(nameValue, emailValue, role, password1, password2) && password1 == password2
            && JsLength(password1) < 6 ==>
      r == Rejected(ShortPasswordMessage)
    ensures r.Proceed? <==>
      AllFilled(nameValue, emailValue, role, password1, password2) && password1 == password2
      && JsLength(password1) >= 6
    ensures r.Proceed? ==> r == Proceed(Trim(emailValue), role, Trim(nameValue))
  {
    var name := Trim(nameValue);
    var email := Trim(emailValue);
    if name == "" || email == "" || role == "" || password1 == "" || password2 == "" then
      Rejected(FillAllMessage)
    else if password1 != password2 then
      Rejected(MismatchMessage)
    else if JsLength(password1) < 6 then
      Rejected(ShortPasswordMessage)
    else
      Proceed(email, role, name)
  }

  /** Passwords are not trimmed: six matching spaces pass every check. */
  lemma BlankPasswordsAccepted(nameValue: string, emailValue: string, role: string)
    requires Trim(nameValue) != "" && Trim(emailValue) != "" && role != ""
    ensures HandleSignup(nameValue, emailValue, role, "      ", "      ").Proceed?
  {
    assert JsLength("      ") == 6;
  }

  /** The stored name: its first character upper-cased, the rest lower-cased. */
  function Capitalize(name: string): (r: string)
    ensures |r| == |name|
    ensures forall i :: 0 < i < |r| ==> !('A' <= r[i] <= 'Z')
    ensures r != [] ==> !('a' <= r[0] <= 'z')
    ensures r != [] ==> r[0] == UpperChar(name[0])
    ensures forall i :: 0 < i < |r| ==> r[i] == LowerChar(name[i])
  {
    if name == [] then [] else [UpperChar(name[0])] + Lower(name[1..])
  }

  /** Capitalizing a capitalized name changes nothing. */
  lemma CapitalizeIdempotent(name: string)
    ensures Capitalize(Capitalize(name)) == Capitalize(name)
  {
    if name != [] {
      var c := Capitalize(name);
      assert c[1..] == Lower(name[1..]);
      LowerIdempotent(name[1..]);
    }
  }

  /** `processLogin(email, role, name)`: the record it saves, with the clock
      reading `timestamp`. */
  function ProcessLogin(email: string, role: string, name: string, timestamp: string): (u: UserData)
    ensures u.role == role && u.timestamp == timestamp
    ensures |u.email| == |email| && forall i :: 0 <= i < |email| ==> u.email[i] == LowerChar(email[i])
    ensures u.name == Capitalize(name)
  {
    UserData(Capitalize(name), Lower(email), role, timestamp)
  }

  /** Saving a saved record again gives the same record: the e-mail and name
      normalisations are idempotent. */
  lemma ProcessLoginIdempotent(email: string, role: string, name: string, timestamp: string)
    ensures var u := ProcessLogin(email, role, name, timestamp);
            ProcessLogin(u.email, u.role, u.name, timestamp) == u
  {
    LowerIdempotent(email);
    CapitalizeIdempotent(name);
  }

  /** The fixed login name is saved as "Patient user". */
  lemma CapitalizePatientUser(name: string)
    requires name == "Patient User"
    ensures Capitalize(name) == "Patient user"
  {
    var rest := name[1..];
    assert rest == "atient User";
    var low := LowerAtientUser(rest);
    var c := Capitalize(name);
    assert c[0] == UpperChar('P') == 'P';
    assert c[1..] == low;
    assert c == [c[0]] + c[1..];
  }

  lemma LowerAtientUser(rest: string) returns (low: string)
    requires rest == "atient User"
    ensures low == Lower(rest) && low == "atient user"
  {
    low := Lower(rest);
    assert low[0] == LowerChar(rest[0]) == 'a';
    assert low[1] == LowerChar(rest[1]) == 't';
    assert low[2] == LowerChar(rest[2]) == 'i';
    assert low[3] == LowerChar(rest[3]) == 'e';
    assert low[4] == LowerChar(rest[4]) == 'n';
    assert low[5] == LowerChar(rest[5]) == 't';
    assert low[6] == LowerChar(rest[6]) == ' ';
    assert low[7] == LowerChar(rest[7]) == 'u';
    assert low[8] == LowerChar(rest[8]) == 's';
    assert low[9] == LowerChar(rest[9]) == 'e';
    assert low[10] == LowerChar(rest[10]) == 'r';
  }

  /** The login path saves the name "Patient user" and the role "patient". */
  lemma LoginSavesPatientUser(emailValue: string, timestamp: string)
    requires HandleLogin(emailValue).Proceed?
    ensures var o := HandleLogin(emailValue);
            ProcessLogin(o.email, o.role, o.name, timestamp)
              == UserData("Patient user", Lower(Trim(emailValue)), "patient", timestamp)
  {
    CapitalizePatientUser("Patient User");
  }
}
