/**
 * The onboarding step that creates the administrator account: seven checks in a fixed order,
 * the first failure being reported, and the user record built when every check passes.
 */
module UserCreation {
  import opened Common
  import opened Text
  import opened Records

  /** The step's inputs as typed. */
  datatype AccountForm = AccountForm(
    firstname: string,
    lastname: string,
    email: string,
    password: string,
    confirmPassword: string,
    gender: bool,
    phone: string)

  /** The checks' findings, one per check. */
  datatype Problem =
    | FirstNameRequired | LastNameRequired | EmailRequired | EmailInvalid
    | PasswordRequired | PasswordTooShort | PasswordsDiffer

  /** The text shown for each finding. */
  function Message(p: Problem): string {
    match p
    case FirstNameRequired => "First name is required"
    case LastNameRequired => "Last name is required"
    case EmailRequired => "Email is required"
    case EmailInvalid => "Please enter a valid email address"
    case PasswordRequired => "Password is required"
    case PasswordTooShort => "Password must be at least 6 characters"
    case PasswordsDiffer => "Passwords do not match"
  }

  /** No two findings share a text, so the message shown names the check that failed. */
  lemma MessagesDistinct(p: Problem, q: Problem)
    requires p != q
    ensures Message(p) != Message(q)
  {
    if |Message(p)| == |Message(q)| {
      assert {p, q} == {FirstNameRequired, PasswordsDiffer};
      assert Message(p)[0] != Message(q)[0];
    }
  }

  /** Minimum password length, in UTF-8 bytes (`String::len`). */
  const MIN_PASSWORD_BYTES: nat := 6

  /** One check: whether it fails, and what it then reports. */
  datatype Check = Check(fails: bool, problem: Problem)

  /** The checks, in the order they run. The email '@' test and the length and match tests look
      at the text as typed; only the emptiness tests trim. */
  function Checks(f: AccountForm): (cs: seq<Check>)
    ensures |cs| == 7
    ensures forall n :: 0 <= n < 7 ==> cs[n].problem == CHECK_ORDER[n]
  {
    [ Check(IsBlank(f.firstname), FirstNameRequired),
      Check(IsBlank(f.lastname), LastNameRequired),
      Check(IsBlank(f.email), EmailRequired),
      Check('@' !in f.email, EmailInvalid),
      Check(IsBlank(f.password), PasswordRequired),
      Check(Utf8Len(f.password) < MIN_PASSWORD_BYTES, PasswordTooShort),
      Check(f.password != f.confirmPassword, PasswordsDiffer) ]
  }

  /** The findings in the order the checks run. */
  const CHECK_ORDER := [FirstNameRequired, LastNameRequired, EmailRequired, EmailInvalid,
    PasswordRequired, PasswordTooShort, PasswordsDiffer]

  /** Check `i` is the first that fails. */
  predicate FirstFailure(cs: seq<Check>, i: int) {
    0 <= i < |cs| && cs[i].fails && forall j :: 0 <= j < i ==> !cs[j].fails
  }

  /** Every condition for creating the account, stated directly. */
  predicate Acceptable(f: AccountForm) {
    !IsBlank(f.firstname) && !IsBlank(f.lastname) && !IsBlank(f.email) && '@' in f.email
    && !IsBlank(f.password) && Utf8Len(f.password) >= MIN_PASSWORD_BYTES && f.password == f.confirmPassword
  }

  datatype Outcome = Invalid(problem: Problem) | Created(user: User)

  /** The administrator: trimmed names and email, the record id `user:<trimmed email>`, the
      password as typed, head of family, the phone trimmed or none when blank, nothing else. */
  function AdminUser(f: AccountForm): (u: User)
    ensures u.id == Some(Ref("user", Trim(f.email)))
    ensures u.firstname == Trim(f.firstname) && u.lastname == Trim(f.lastname)
    ensures u.email == Some(Trim(f.email)) && u.password == Some(f.password)
    ensures u.familyHead && u.publisherType.None? && u.appointment.None? && u.emergencyContacts == []
    ensures u.phone.None? <==> IsBlank(f.phone)
    ensures u.phone.Some? ==> u.phone.value == Trim(f.phone)
  {
    User(Some(Ref("user", Trim(f.email))), Trim(f.firstname), Trim(f.lastname), f.gender, true,
      Some(Trim(f.email)), Some(f.password), None,
      TrimmedOrNone(f.phone),
      None, None, None, None, None, None, None, None, None, [])
  }

  /** `handle_submit`: the finding of the first failing check (whose `Message` is shown), or the
      administrator. */
  function Submit(f: AccountForm): (r: Outcome)
    ensures r.Created? <==> Acceptable(f)
    ensures r.Created? ==> r.user == AdminUser(f)
  {
    if IsBlank(f.firstname) then Invalid(FirstNameRequired)
    else if IsBlank(f.lastname) then Invalid(LastNameRequired)
    else if IsBlank(f.email) then Invalid(EmailRequired)
    else if '@' !in f.email then Invalid(EmailInvalid)
    else if IsBlank(f.password) then Invalid(PasswordRequired)
    else if Utf8Len(f.password) < MIN_PASSWORD_BYTES then Invalid(PasswordTooShort)
    else if f.password != f.confirmPassword then Invalid(PasswordsDiffer)
    else Created(AdminUser(f))
  }

  /** The decision of `handle_submit` read off the list of checks: the first failing one's
      finding, or the user when none fails. */
  function Decide(cs: seq<Check>, u: User): Outcome
    requires |cs| == 7
  {
    if cs[0].fails then Invalid(cs[0].problem)
    else if cs[1].fails then Invalid(cs[1].problem)
    else if cs[2].fails then Invalid(cs[2].problem)
    else if cs[3].fails then Invalid(cs[3].problem)
    else if cs[4].fails then Invalid(cs[4].problem)
    else if cs[5].fails then Invalid(cs[5].problem)
    else if cs[6].fails then Invalid(cs[6].problem)
    else Created(u)
  }

  /** `handle_submit` decides exactly as its list of checks says. */
  lemma SubmitDecides(f: AccountForm)
    ensures Submit(f) == Decide(Checks(f), AdminUser(f))
  {
    var cs := Checks(f);
    assert cs[0].fails == IsBlank(f.firstname) && cs[1].fails == IsBlank(f.lastname);
    assert cs[2].fails == IsBlank(f.email) && cs[3].fails == ('@' !in f.email);
    assert cs[4].fails == IsBlank(f.password) && cs[5].fails == (Utf8Len(f.password) < MIN_PASSWORD_BYTES);
    assert cs[6].fails == (f.password != f.confirmPassword);
  }

  lemma DecideReportsFirstFailure(cs: seq<Check>, u: User)
    requires |cs| == 7
    ensures Decide(cs, u).Invalid? ==> exists i :: FirstFailure(cs, i) && Decide(cs, u).problem == cs[i].problem
  {
    if cs[0].fails {
      assert FirstFailure(cs, 0);
    } else if cs[1].fails {
      assert FirstFailure(cs, 1);
    } else if cs[2].fails {
      assert FirstFailure(cs, 2);
    } else if cs[3].fails {
      assert FirstFailure(cs, 3);
    } else if cs[4].fails {
      assert FirstFailure(cs, 4);
    } else if cs[5].fails {
      assert FirstFailure(cs, 5);
    } else if cs[6].fails {
      assert FirstFailure(cs, 6);
    }
  }

  /** A refusal reports the first failing check of the list, in its order. */
  lemma SubmitReportsFirstFailure(f: AccountForm)
    ensures Submit(f).Invalid? ==> exists i :: FirstFailure(Checks(f), i) && Submit(f).problem == Checks(f)[i].problem
  {
    SubmitDecides(f);
    DecideReportsFirstFailure(Checks(f), AdminUser(f));
  }

  /** Exactly one check is reported: the first failing one, so fixing a later field does not
      change the message while an earlier one is wrong. */
  lemma EarlierCheckWins(f: AccountForm, i: int, j: int)
    requires 0 <= i < j < 7 && Checks(f)[i].fails && Checks(f)[j].fails
    ensures Submit(f).Invalid? && Message(Submit(f).problem) != Message(Checks(f)[j].problem)
  {
    var cs := Checks(f);
    SubmitDecides(f);
    var k := EarlierFailureWins(cs, AdminUser(f), i, j);
    CheckProblemsDistinct(f, k, j);
    MessagesDistinct(cs[k].problem, cs[j].problem);
  }

  /** Each check reports its own finding. */
  lemma CheckProblemsDistinct(f: AccountForm, a: int, b: int)
    requires 0 <= a < b < 7
    ensures Checks(f)[a].problem != Checks(f)[b].problem
  {
    assert Checks(f)[a].problem == CHECK_ORDER[a] && Checks(f)[b].problem == CHECK_ORDER[b];
  }

  /** With checks `i` and `j` failing, the decision reports a check `k` no later than `i`. */
  lemma EarlierFailureWins(cs: seq<Check>, u: User, i: int, j: int) returns (k: int)
    requires |cs| == 7 && 0 <= i < j < 7 && cs[i].fails && cs[j].fails
    ensures 0 <= k <= i && Decide(cs, u) == Invalid(cs[k].problem)
  {
    DecideReportsFirstFailure(cs, u);
    k :| FirstFailure(cs, k) && Decide(cs, u).problem == cs[k].problem;
    assert k <= i;
  }

  /** The length test counts the password as typed, spaces included: a one-letter password
      followed by six spaces is accepted, although trimmed it is far too short. */
  lemma PaddedPasswordPasses(f: AccountForm, c: char)
    requires !IsBlank(f.firstname) && !IsBlank(f.lastname) && !IsBlank(f.email) && '@' in f.email
    requires !IsWhitespace(c) && f.password == [c] + "      " && f.confirmPassword == f.password
    ensures Submit(f).Created?
  {
    BlankIffAllWhitespace(f.password);
    assert f.password[0] == c;
  }
}
