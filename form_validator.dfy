/**
 * The `FormValidator` of js/form-handler.js: the email and password patterns
 * read character by character, the trimmed-name length rule, the ordered
 * list of error messages for a login or signup form, and the 0..5 password
 * strength score.
 */
module FormValidator {
  import opened Js

  // ---------------------------------------------------------------------------
  // validateEmail: /^[^\s@]+@[^\s@]+\.[^\s@]+$/
  // ---------------------------------------------------------------------------

  /** The class `[^\s@]`. */
  predicate EmailChar(c: char)
  {
    !IsWhitespace(c) && c != '@'
  }

  /** Every character is in `[^\s@]`. */
  predicate AllEmailChars(s: string)
  {
    forall k :: 0 <= k < |s| ==> EmailChar(s[k])
  }

  /** `[^\s@]+\.[^\s@]+` on a string of `[^\s@]` characters: a `.` with a character on each side. */
  predicate HasInnerDot(s: string)
  {
    exists j :: 0 < j < |s| - 1 && s[j] == '.'
  }

  /** The index of the first `c` in `s`, or the length when there is none. */
  function FirstIndex(s: string, c: char): (i: nat)
    ensures i <= |s|
    ensures forall k :: 0 <= k < i ==> s[k] != c
    ensures i < |s| ==> s[i] == c
  {
    if s == [] || s[0] == c then 0 else 1 + FirstIndex(s[1..], c)
  }

  /**
   * The email pattern matches the whole string. Its first run excludes `@`,
   * so the `@` it matches is the first one: there is a run of `[^\s@]`
   * before it, and after it a run of `[^\s@]` holding a `.` that is neither
   * its first nor its last character.
   */
  predicate ValidateEmail(email: string)
    ensures ValidateEmail(email) ==> |email| >= 5
  {
    var at := FirstIndex(email, '@');
    0 < at < |email| && AllEmailChars(email[..at]) &&
    AllEmailChars(email[at + 1..]) && HasInnerDot(email[at + 1..])
  }

  /** A character that occurs only at index `i` occurs exactly once. */
  lemma {:induction false} CountOnlyAt(s: string, c: char, i: nat)
    requires i < |s| && s[i] == c
    requires forall k :: 0 <= k < |s| && k != i ==> s[k] != c
    ensures multiset(s)[c] == 1
  {
    assert s == s[..i] + [s[i]] + s[i + 1..];
    assert c !in s[..i];
    assert c !in s[i + 1..];
  }

  /** A character that occurs exactly once sits at one index only. */
  lemma {:induction false} CountOneUnique(s: string, c: char, i: nat, j: nat)
    requires i < j < |s| && s[i] == c && s[j] == c
    ensures multiset(s)[c] >= 2
  {
    assert s == s[..j] + s[j..];
    assert s[..j][i] == c;
    assert s[j..][0] == c;
  }

  /**
   * The email rule in plain words: no whitespace, exactly one `@`, something
   * before it, and after it a `.` with at least one character on each side.
   */
  lemma {:induction false} EmailPattern(email: string)
    ensures ValidateEmail(email) <==>
      (forall k :: 0 <= k < |email| ==> !IsWhitespace(email[k])) &&
      multiset(email)['@'] == 1 &&
      exists at, dot :: 1 <= at && at + 1 < dot < |email| - 1 && email[at] == '@' && email[dot] == '.'
  {
    var at := FirstIndex(email, '@');
    if ValidateEmail(email) {
      var rest := email[at + 1..];
      var j :| 0 < j < |rest| - 1 && rest[j] == '.';
      assert email[at + 1 + j] == '.';
      forall k | 0 <= k < |email| && k != at ensures EmailChar(email[k]) {
        if k < at { assert email[k] == email[..at][k]; } else { assert email[k] == rest[k - at - 1]; }
      }
      CountOnlyAt(email, '@', at);
    }
    if (forall k :: 0 <= k < |email| ==> !IsWhitespace(email[k])) && multiset(email)['@'] == 1 &&
       exists i, dot :: 1 <= i && i + 1 < dot < |email| - 1 && email[i] == '@' && email[dot] == '.'
    {
      var i, dot :| 1 <= i && i + 1 < dot < |email| - 1 && email[i] == '@' && email[dot] == '.';
      forall k | 0 <= k < |email| && k != i
        ensures email[k] != '@'
      {
        if email[k] == '@' {
          if k < i { CountOneUnique(email, '@', k, i); } else { CountOneUnique(email, '@', i, k); }
        }
      }
      assert at == i;
      var rest := email[at + 1..];
      assert rest[dot - at - 1] == '.';
    }
  }

  // ---------------------------------------------------------------------------
  // validatePassword:
  //   /^(?=.*[a-z])(?=.*[A-Z])(?=.*\d)(?=.*[@$!%*?&])[A-Za-z\d@$!%*?&]{8,}$/
  // ---------------------------------------------------------------------------

  /** The four character classes the password rules name. */
  datatype CharClass = Lower | Upper | Digit | Special

  /** `[a-z]`, `[A-Z]`, `\d` (the same as `[0-9]`) and `[@$!%*?&]`. */
  predicate InClass(c: char, cls: CharClass)
  {
    match cls
    case Lower => 'a' <= c <= 'z'
    case Upper => 'A' <= c <= 'Z'
    case Digit => '0' <= c <= '9'
    case Special => c == '@' || c == '$' || c == '!' || c == '%' || c == '*' || c == '?' || c == '&'
  }

  /** The class `[A-Za-z\d@$!%*?&]`. */
  predicate PasswordChar(c: char)
  {
    InClass(c, Lower) || InClass(c, Upper) || InClass(c, Digit) || InClass(c, Special)
  }

  /** `/[...]/.test(s)`: some character of `s` is in the class. */
  predicate HasClass(s: string, cls: CharClass)
  {
    exists k :: 0 <= k < |s| && InClass(s[k], cls)
  }

  /** The index of the first line terminator, or the length when there is none. */
  function LineEnd(s: string): (n: nat)
    ensures n <= |s|
    ensures forall m :: 0 <= m < n ==> !IsLineTerminator(s[m])
    ensures n < |s| ==> IsLineTerminator(s[n])
  {
    if s == [] || IsLineTerminator(s[0]) then 0 else 1 + LineEnd(s[1..])
  }

  /** `(?=.*[...])` at the start: `.` stops at a line terminator, so a character of the class must come before the first one. */
  predicate LookaheadFinds(s: string, cls: CharClass)
  {
    HasClass(s[..LineEnd(s)], cls)
  }

  /**
   * The password pattern: the four lookaheads, then eight or more characters
   * of the class up to the end. Outside the class every code point, and both
   * halves of a surrogate pair, fail, so counting characters or code units
   * here is the same.
   */
  predicate ValidatePassword(password: string)
    ensures ValidatePassword(password) ==> Utf16Length(password) >= 8
  {
    LookaheadFinds(password, Lower) && LookaheadFinds(password, Upper) &&
    LookaheadFinds(password, Digit) && LookaheadFinds(password, Special) &&
    |password| >= 8 && forall k :: 0 <= k < |password| ==> PasswordChar(password[k])
  }

  /**
   * The password rule in plain words: at least 8 characters, all from
   * `[A-Za-z0-9@$!%*?&]`, with a lower-case letter, an upper-case letter, a
   * digit and one of `@$!%*?&`.
   */
  lemma PasswordPattern(password: string)
    ensures ValidatePassword(password) <==>
      |password| >= 8 && (forall k :: 0 <= k < |password| ==> PasswordChar(password[k])) &&
      HasClass(password, Lower) && HasClass(password, Upper) &&
      HasClass(password, Digit) && HasClass(password, Special)
  {
    var line := password[..LineEnd(password)];
    forall cls | LookaheadFinds(password, cls) ensures HasClass(password, cls) {
      var k :| 0 <= k < |line| && InClass(line[k], cls);
      assert password[k] == line[k];
    }
    if |password| >= 8 && forall k :: 0 <= k < |password| ==> PasswordChar(password[k]) {
      assert LineEnd(password) == |password|;
      assert line == password;
    }
  }

  // ---------------------------------------------------------------------------
  // validateName: name.trim().length >= 2
  // ---------------------------------------------------------------------------

  /** `name.trim().length >= 2`: two characters left after trimming, or one astral one. */
  predicate ValidateName(name: string)
    ensures ValidateName(name) <==>
      |Trim(name)| >= 2 || (|Trim(name)| == 1 && IsAstral(Trim(name)[0]))
  {
    Utf16AtLeastTwo(Trim(name));
    Utf16Length(Trim(name)) >= 2
  }

  /**
   * The name rule without `trim`: the name holds two non-whitespace characters,
   * or one that takes two UTF-16 code units.
   */
  lemma {:induction false} NameLength(name: string)
    ensures ValidateName(name) <==>
      (exists i, j :: 0 <= i < j < |name| && !IsWhitespace(name[i]) && !IsWhitespace(name[j])) ||
      (exists i :: 0 <= i < |name| && !IsWhitespace(name[i]) && IsAstral(name[i]))
  {
    var r := Trim(name);
    var d := TrimSlice(name);
    Utf16AtLeastTwo(r);
    SolidSlice(name, r, d);
  }

  /**
   * A slice with only whitespace around it and a non-whitespace character at
   * each end has two characters, or one astral one, exactly when the whole
   * string has two non-whitespace characters, or one astral one.
   */
  lemma SolidSlice(s: string, r: string, d: nat)
    requires d + |r| <= |s| && r == s[d..d + |r|]
    requires forall k :: 0 <= k < |s| && !(d <= k < d + |r|) ==> IsWhitespace(s[k])
    requires r == [] || (!IsWhitespace(r[0]) && !IsWhitespace(r[|r| - 1]))
    ensures (|r| >= 2 || (|r| == 1 && IsAstral(r[0]))) <==>
      (exists i, j :: 0 <= i < j < |s| && !IsWhitespace(s[i]) && !IsWhitespace(s[j])) ||
      (exists i :: 0 <= i < |s| && !IsWhitespace(s[i]) && IsAstral(s[i]))
  {
    assert forall k :: 0 <= k < |r| ==> r[k] == s[d + k];
    if |r| >= 2 {
      assert !IsWhitespace(s[d]) && !IsWhitespace(s[d + |r| - 1]);
    } else if |r| == 1 && IsAstral(r[0]) {
      assert !IsWhitespace(s[d]) && IsAstral(s[d]);
    }
    if exists i, j :: 0 <= i < j < |s| && !IsWhitespace(s[i]) && !IsWhitespace(s[j]) {
      var i, j :| 0 <= i < j < |s| && !IsWhitespace(s[i]) && !IsWhitespace(s[j]);
      assert r[i - d] == s[i] && r[j - d] == s[j];
    }
    if exists i :: 0 <= i < |s| && !IsWhitespace(s[i]) && IsAstral(s[i]) {
      var i :| 0 <= i < |s| && !IsWhitespace(s[i]) && IsAstral(s[i]);
      assert r[i - d] == s[i];
    }
  }

  // ---------------------------------------------------------------------------
  // validateForm
  // ---------------------------------------------------------------------------

  const NameMessage := "Name must be at least 2 characters long"
  const EmailMessage := "Please enter a valid email address"
  const PasswordMessage := "Password must contain at least 8 characters, one uppercase, one lowercase, one number and one special character"
  const MismatchMessage := "Passwords do not match"

  /** The four checks of `validateForm`, in the order it makes them. */
  datatype Check = NameCheck | EmailCheck | PasswordCheck | MatchCheck

  function Rank(c: Check): (r: nat)
    ensures r <= 3
  {
    match c
    case NameCheck => 0
    case EmailCheck => 1
    case PasswordCheck => 2
    case MatchCheck => 3
  }

  const CheckOrder: seq<Check> := [NameCheck, EmailCheck, PasswordCheck, MatchCheck]

  function Message(c: Check): string
  {
    match c
    case NameCheck => NameMessage
    case EmailCheck => EmailMessage
    case PasswordCheck => PasswordMessage
    case MatchCheck => MismatchMessage
  }

  /** The position of a message in the order of the checks, or -1 for any other string. */
  function MessageRank(m: string): int
  {
    if m == NameMessage then 0
    else if m == EmailMessage then 1
    else if m == PasswordMessage then 2
    else if m == MismatchMessage then 3
    else -1
  }

  /** Each check has its own message, so a message names its check. */
  lemma MessageNamesCheck(c: Check)
    ensures MessageRank(Message(c)) == Rank(c)
  {
  }

  /** `formData[key]`: the value, or `undefined` when the form has no such field. */
  function Field(formData: map<string, string>, key: string): Option<string>
  {
    if key in formData then Some(formData[key]) else None
  }

  /**
   * `validateForm` reads `formData.name.trim()` on a signup form: with no
   * `name` field that is `undefined.trim()`, which throws a TypeError.
   */
  predicate ThrowsOnName(formData: map<string, string>, formType: string)
  {
    formType == "signup" && "name" !in formData
  }

  /**
   * Whether a check fails. A pattern's `test` turns `undefined` into the
   * string "undefined"; `!==` compares a string with `undefined` as unequal,
   * and `undefined` with itself as equal.
   */
  predicate Fails(formData: map<string, string>, formType: string, c: Check)
    ensures Fails(formData, formType, c) && (c == NameCheck || c == MatchCheck) ==> formType == "signup"
  {
    match c
    case NameCheck => formType == "signup" && "name" in formData && !ValidateName(formData["name"])
    case EmailCheck => !ValidateEmail(ToString(Field(formData, "email")))
    case PasswordCheck => !ValidatePassword(ToString(Field(formData, "password")))
    case MatchCheck => formType == "signup" && Field(formData, "password") != Field(formData, "confirmPassword")
  }

  /**
   * A missing field reads as the string "undefined", which neither pattern
   * accepts: a missing email or password always fails its check.
   */
  lemma UndefinedFails(v: Option<string>)
    requires v.None?
    ensures !ValidateEmail(ToString(v)) && !ValidatePassword(ToString(v))
  {
    var s := ToString(v);
    assert forall k :: 0 <= k < |s| ==> 'a' <= s[k] <= 'z';
    PasswordPattern(s);
  }

  const AllChecks: set<Check> := {NameCheck, EmailCheck, PasswordCheck, MatchCheck}

  lemma EveryCheck()
    ensures forall c :: c in AllChecks
  {
    forall c ensures c in AllChecks {
      match c
      case NameCheck =>
      case EmailCheck =>
      case PasswordCheck =>
      case MatchCheck =>
    }
  }

  /** The checks that fail on the form data. */
  function FailedChecks(formData: map<string, string>, formType: string): (failed: set<Check>)
    ensures forall c :: c in failed <==> Fails(formData, formType, c)
  {
    EveryCheck();
    set c | c in AllChecks && Fails(formData, formType, c)
  }

  /** The checks of `checks` that are in `failed`, in the order of `checks`. */
  function Failing(checks: seq<Check>, failed: set<Check>): (r: seq<Check>)
    ensures |r| <= |checks|
    ensures forall k :: 0 <= k < |r| ==> r[k] in failed
  {
    if checks == [] then []
    else (if checks[0] in failed then [checks[0]] else []) + Failing(checks[1..], failed)
  }

  /** The message of each check, in order. */
  function Messages(checks: seq<Check>): (ms: seq<string>)
    ensures |ms| == |checks|
  {
    if checks == [] then [] else [Message(checks[0])] + Messages(checks[1..])
  }

  /** What `validateForm(formData, formType)` returns, or that it throws. */
  function FormErrors(formData: map<string, string>, formType: string): Completion<seq<string>>
  {
    if ThrowsOnName(formData, formType) then Throw("TypeError")
    else Normal(Messages(Failing(CheckOrder, FailedChecks(formData, formType))))
  }

  /**
   * `validateForm` throws a TypeError exactly on a signup form with no name;
   * otherwise it returns at most one message per check.
   */
  lemma FormErrorsOutcome(formData: map<string, string>, formType: string)
    ensures FormErrors(formData, formType).Throw? <==> formType == "signup" && "name" !in formData
    ensures FormErrors(formData, formType).Throw? ==> FormErrors(formData, formType).error == "TypeError"
    ensures FormErrors(formData, formType).Normal? ==> |FormErrors(formData, formType).value| <= |CheckOrder|
  {
  }

  /** `errors.push(m)` when `b` holds, as a list of what is pushed. */
  function Push(b: bool, m: string): seq<string>
  {
    if b then [m] else []
  }

  /** `validateForm`: pushes the message of each failing check onto `errors`. */
  method ValidateForm(formData: map<string, string>, formType: string) returns (result: Completion<seq<string>>)
    ensures result == FormErrors(formData, formType)
  {
    var errors: seq<string> := [];
    if formType == "signup" {
      if "name" !in formData {
        return Throw("TypeError");
      }
      if !ValidateName(formData["name"]) {
        errors := errors + [NameMessage];
      }
    }
    ghost var name := errors;
    assert name == Push(Fails(formData, formType, NameCheck), NameMessage);
    if !ValidateEmail(ToString(Field(formData, "email"))) {
      errors := errors + [EmailMessage];
    }
    ghost var email := errors[|name|..];
    assert errors == name + email && email == Push(Fails(formData, formType, EmailCheck), EmailMessage);
    if !ValidatePassword(ToString(Field(formData, "password"))) {
      errors := errors + [PasswordMessage];
    }
    ghost var password := errors[|name + email|..];
    assert errors == name + email + password && password == Push(Fails(formData, formType, PasswordCheck), PasswordMessage);
    if formType == "signup" && Field(formData, "password") != Field(formData, "confirmPassword") {
      errors := errors + [MismatchMessage];
    }
    ghost var mismatch := errors[|name + email + password|..];
    assert errors == name + email + password + mismatch && mismatch == Push(Fails(formData, formType, MatchCheck), MismatchMessage);
    FormErrorsStepwise(formData, formType);
    return Normal(errors);
  }

  /** The message list as `validateForm` builds it: one optional push per check. */
  lemma FormErrorsStepwise(formData: map<string, string>, formType: string)
    requires !ThrowsOnName(formData, formType)
    ensures FormErrors(formData, formType) == Normal(
      Push(Fails(formData, formType, NameCheck), NameMessage) +
      Push(Fails(formData, formType, EmailCheck), EmailMessage) +
      Push(Fails(formData, formType, PasswordCheck), PasswordMessage) +
      Push(Fails(formData, formType, MatchCheck), MismatchMessage))
  {
    MessagesInOrder(FailedChecks(formData, formType));
  }

  /** The messages of the failed checks in the fixed order, written out check by check. */
  lemma MessagesInOrder(failed: set<Check>)
    ensures Messages(Failing(CheckOrder, failed)) ==
      (if NameCheck in failed then [NameMessage] else []) +
      (if EmailCheck in failed then [EmailMessage] else []) +
      (if PasswordCheck in failed then [PasswordMessage] else []) +
      (if MatchCheck in failed then [MismatchMessage] else [])
  {
    FailingInOrder(failed);
    var keep := (c: Check) => if c in failed then [c] else [];
    var say := (c: Check) => if c in failed then [Message(c)] else [];
    MessagesAppend(keep(NameCheck), keep(EmailCheck));
    MessagesAppend(keep(NameCheck) + keep(EmailCheck), keep(PasswordCheck));
    MessagesAppend(keep(NameCheck) + keep(EmailCheck) + keep(PasswordCheck), keep(MatchCheck));
    forall c ensures Messages(keep(c)) == say(c) {
      if c in failed {
        assert Messages([c]) == [Message(c)] + Messages([]);
      }
    }
  }

  lemma {:induction false} MessagesAppend(a: seq<Check>, b: seq<Check>)
    ensures Messages(a + b) == Messages(a) + Messages(b)
  {
    if a == [] {
      assert a + b == b;
    } else {
      assert (a + b)[0] == a[0];
      assert (a + b)[1..] == a[1..] + b;
      MessagesAppend(a[1..], b);
    }
  }

  lemma {:induction false} MessagesAt(checks: seq<Check>, i: nat)
    requires i < |checks|
    ensures Messages(checks)[i] == Message(checks[i])
  {
    if i > 0 {
      MessagesAt(checks[1..], i - 1);
    }
  }

  /** `Failing` over the fixed order, written out check by check. */
  lemma FailingInOrder(failed: set<Check>)
    ensures Failing(CheckOrder, failed) ==
      (if NameCheck in failed then [NameCheck] else []) +
      (if EmailCheck in failed then [EmailCheck] else []) +
      (if PasswordCheck in failed then [PasswordCheck] else []) +
      (if MatchCheck in failed then [MatchCheck] else [])
  {
    var keep := (c: Check) => if c in failed then [c] else [];
    assert Failing([MatchCheck], failed) == keep(MatchCheck) by {
      assert [MatchCheck][1..] == [];
    }
    assert Failing([PasswordCheck, MatchCheck], failed) == keep(PasswordCheck) + keep(MatchCheck) by {
      assert [PasswordCheck, MatchCheck][1..] == [MatchCheck];
    }
    assert Failing([EmailCheck, PasswordCheck, MatchCheck], failed) ==
      keep(EmailCheck) + keep(PasswordCheck) + keep(MatchCheck) by {
      assert [EmailCheck, PasswordCheck, MatchCheck][1..] == [PasswordCheck, MatchCheck];
    }
    assert CheckOrder[1..] == [EmailCheck, PasswordCheck, MatchCheck];
  }

  /** Filtering checks listed in increasing rank keeps exactly the failed ones, in increasing rank. */
  lemma {:induction false} FailingSorted(checks: seq<Check>, failed: set<Check>)
    requires forall i, j :: 0 <= i < j < |checks| ==> Rank(checks[i]) < Rank(checks[j])
    ensures var f := Failing(checks, failed);
      (forall c :: c in f <==> c in checks && c in failed) &&
      (forall i, j :: 0 <= i < j < |f| ==> Rank(f[i]) < Rank(f[j]))
  {
    if checks != [] {
      var rest := checks[1..];
      FailingSorted(rest, failed);
      assert forall c :: c in rest ==> Rank(checks[0]) < Rank(c);
      assert forall c :: c in checks <==> c == checks[0] || c in rest;
    }
  }

  /** The checks that fail on the form data, in the order `validateForm` makes them. */
  function FailingChecks(formData: map<string, string>, formType: string): seq<Check>
  {
    Failing(CheckOrder, FailedChecks(formData, formType))
  }

  /**
   * `validateForm` reports, for every failing check and no other, that
   * check's message, each check at most once, in the order name, email,
   * password, mismatch.
   */
  lemma FormErrorsOrdered(formData: map<string, string>, formType: string)
    requires !ThrowsOnName(formData, formType)
    ensures FormErrors(formData, formType) == Normal(Messages(FailingChecks(formData, formType)))
    ensures var f := FailingChecks(formData, formType);
      (forall c :: c in f <==> Fails(formData, formType, c)) &&
      (forall i, j :: 0 <= i < j < |f| ==> Rank(f[i]) < Rank(f[j]))
  {
    var failed := FailedChecks(formData, formType);
    FailingSorted(CheckOrder, failed);
    forall c ensures c in CheckOrder {
      assert CheckOrder[Rank(c)] == c;
    }
  }

  /** Different checks have different messages, so no message stands for two checks. */
  lemma MessagesDistinct(c: Check, d: Check)
    requires c != d
    ensures Message(c) != Message(d)
  {
    MessageNamesCheck(c);
    MessageNamesCheck(d);
  }

  /**
   * On a signup form with a name, a password that differs from its
   * confirmation yields the mismatch message exactly once, and last.
   */
  lemma MismatchReportedOnce(formData: map<string, string>, formType: string)
    requires formType == "signup" && "name" in formData
    requires Field(formData, "password") != Field(formData, "confirmPassword")
    ensures FormErrors(formData, formType).Normal?
    ensures var e := FormErrors(formData, formType).value;
      |e| > 0 && e[|e| - 1] == MismatchMessage &&
      forall i :: 0 <= i < |e| - 1 ==> e[i] != MismatchMessage
  {
    FormErrorsOrdered(formData, formType);
    MismatchMessageLast(FailingChecks(formData, formType));
  }

  /** The messages of checks listed in increasing rank, the mismatch check among them, end with its message alone. */
  lemma MismatchMessageLast(f: seq<Check>)
    requires forall i, j :: 0 <= i < j < |f| ==> Rank(f[i]) < Rank(f[j])
    requires MatchCheck in f
    ensures var e := Messages(f);
      |e| > 0 && e[|e| - 1] == MismatchMessage &&
      forall i :: 0 <= i < |e| - 1 ==> e[i] != MismatchMessage
  {
    var e := Messages(f);
    var k :| 0 <= k < |f| && f[k] == MatchCheck;
    MatchCheckLast(f, k);
    MessagesAt(f, k);
    forall i | 0 <= i < |e| - 1 ensures e[i] != MismatchMessage {
      MessagesAt(f, i);
      MessagesDistinct(f[i], MatchCheck);
    }
  }

  /** In checks listed in increasing rank, the mismatch check can only come last. */
  lemma MatchCheckLast(f: seq<Check>, k: nat)
    requires forall i, j :: 0 <= i < j < |f| ==> Rank(f[i]) < Rank(f[j])
    requires k < |f| && f[k] == MatchCheck
    ensures k == |f| - 1
  {
    if k < |f| - 1 {
      RankBelow(f, k, k + 1);
      assert false;
    }
  }

  lemma RankBelow(f: seq<Check>, i: nat, j: nat)
    requires forall i, j :: 0 <= i < j < |f| ==> Rank(f[i]) < Rank(f[j])
    requires i < j < |f|
    ensures Rank(f[i]) < Rank(f[j])
  {
  }

  /**
   * On any form kind but signup the validator never throws, never reports the
   * name or mismatch message, and so reports at most two messages.
   */
  lemma FormErrorsOtherKinds(formData: map<string, string>, formType: string)
    requires formType != "signup"
    ensures FormErrors(formData, formType).Normal?
    ensures var e := FormErrors(formData, formType).value;
      NameMessage !in e && MismatchMessage !in e && |e| <= 2
  {
    var failed := FailedChecks(formData, formType);
    MessagesInOrder(failed);
    assert NameCheck !in failed && MatchCheck !in failed;
  }

  /**
   * The validator returns an empty list exactly when the email and password
   * are valid and, on a signup form, there is a valid name and the password
   * equals its confirmation.
   */
  lemma FormErrorsEmpty(formData: map<string, string>, formType: string)
    ensures FormErrors(formData, formType) == Normal([]) <==>
      ValidateEmail(ToString(Field(formData, "email"))) &&
      ValidatePassword(ToString(Field(formData, "password"))) &&
      (formType == "signup" ==>
        "name" in formData && ValidateName(formData["name"]) &&
        Field(formData, "password") == Field(formData, "confirmPassword"))
  {
    var failed := FailedChecks(formData, formType);
    FailingInOrder(failed);
    assert NameCheck in failed <==> Fails(formData, formType, NameCheck);
    assert EmailCheck in failed <==> Fails(formData, formType, EmailCheck);
    assert PasswordCheck in failed <==> Fails(formData, formType, PasswordCheck);
    assert MatchCheck in failed <==> Fails(formData, formType, MatchCheck);
  }

  /** An address with one character before the `@` and a dot inside the domain passes. */
  lemma EmailExampleValid()
    ensures ValidateEmail("a@b.co")
  {
    var email := "a@b.co";
    assert email[0] != '@' && email[1] == '@';
    assert email[3] == '.';
    assert forall k :: 0 <= k < |email| && k != 1 ==> EmailChar(email[k]);
  }

  /** Eight characters with all four classes pass. */
  lemma PasswordExampleValid()
    ensures ValidatePassword("Abcdef1!")
  {
    var password := "Abcdef1!";
    assert InClass(password[1], Lower) && InClass(password[0], Upper);
    assert InClass(password[6], Digit) && InClass(password[7], Special);
    assert forall k :: 0 <= k < |password| ==> PasswordChar(password[k]);
    PasswordPattern(password);
  }

  /** A name of two letters is long enough. */
  lemma NameExampleValid()
    ensures ValidateName("Al")
  {
    var name := "Al";
    assert !IsWhitespace(name[0]) && !IsWhitespace(name[1]);
    NameLength(name);
  }

  /** A signup form that passes every check: the result is the empty list. */
  lemma SignupExampleValid()
    ensures FormErrors(map["email" := "a@b.co", "password" := "Abcdef1!", "name" := "Al",
                           "confirmPassword" := "Abcdef1!"], "signup") == Normal([])
  {
    var fd := map["email" := "a@b.co", "password" := "Abcdef1!", "name" := "Al", "confirmPassword" := "Abcdef1!"];
    EmailExampleValid();
    PasswordExampleValid();
    assert Field(fd, "email") == Some("a@b.co");
    assert Field(fd, "password") == Some("Abcdef1!") == Field(fd, "confirmPassword");
    assert fd["name"] == "Al";
    NameExampleValid();
    FormErrorsEmpty(fd, "signup");
  }

  /** A login form with a bad email and a bad password gets both messages, email first. */
  lemma LoginExampleInvalid()
    ensures FormErrors(map["email" := "bad", "password" := "x"], "login") == Normal([EmailMessage, PasswordMessage])
  {
    var fd := map["email" := "bad", "password" := "x"];
    assert Field(fd, "email") == Some("bad") && Field(fd, "password") == Some("x");
    assert forall k :: 0 <= k < 3 ==> "bad"[k] != '@';
    assert !ValidateEmail("bad");
    assert !ValidatePassword("x");
    var failed := FailedChecks(fd, "login");
    assert EmailCheck in failed && PasswordCheck in failed;
    assert NameCheck !in failed && MatchCheck !in failed;
    MessagesInOrder(failed);
    assert Messages(Failing(CheckOrder, failed)) == [EmailMessage] + [PasswordMessage];
    assert !ThrowsOnName(fd, "login");
    assert FormErrors(fd, "login") == Normal(Messages(Failing(CheckOrder, failed)));
    assert [EmailMessage] + [PasswordMessage] == [EmailMessage, PasswordMessage];
  }

  // ---------------------------------------------------------------------------
  // getPasswordStrength
  // ---------------------------------------------------------------------------

  /** The five things the strength score counts. */
  datatype Criterion = MinLength | Contains(cls: CharClass)

  const AllCriteria: set<Criterion> :=
    {MinLength, Contains(Lower), Contains(Upper), Contains(Digit), Contains(Special)}

  lemma AllCriteriaCount()
    ensures |AllCriteria| == 5
  {
    var s1 := {MinLength};
    var s2 := s1 + {Contains(Lower)};
    var s3 := s2 + {Contains(Upper)};
    var s4 := s3 + {Contains(Digit)};
    assert AllCriteria == s4 + {Contains(Special)};
  }

  /** `password.length >= 8` counts UTF-16 code units; each class is a `test` for one character. */
  predicate Meets(password: string, c: Criterion)
  {
    match c
    case MinLength => Utf16Length(password) >= 8
    case Contains(cls) => HasClass(password, cls)
  }

  /** The criteria the password meets. */
  function MetCriteria(password: string): (met: set<Criterion>)
    ensures met <= AllCriteria
    ensures MinLength in met <==> Utf16Length(password) >= 8
    ensures forall cls :: Contains(cls) in met <==> HasClass(password, cls)
  {
    set c | c in AllCriteria && Meets(password, c)
  }

  /** `getPasswordStrength`: adds one for each criterion the password meets. */
  method GetPasswordStrength(password: string) returns (strength: nat)
    ensures strength == |MetCriteria(password)|
  {
    strength := 0;
    if Utf16Length(password) >= 8 {
      strength := strength + 1;
    }
    if HasClass(password, Lower) {
      strength := strength + 1;
    }
    if HasClass(password, Upper) {
      strength := strength + 1;
    }
    if HasClass(password, Digit) {
      strength := strength + 1;
    }
    if HasClass(password, Special) {
      strength := strength + 1;
    }
    MetCriteriaCount(password);
  }

  /** One for each criterion met: the size of the set of met criteria, criterion by criterion. */
  lemma MetCriteriaCount(password: string)
    ensures |MetCriteria(password)| ==
      (if Utf16Length(password) >= 8 then 1 else 0) +
      (if HasClass(password, Lower) then 1 else 0) +
      (if HasClass(password, Upper) then 1 else 0) +
      (if HasClass(password, Digit) then 1 else 0) +
      (if HasClass(password, Special) then 1 else 0)
  {
    MetCriteriaParts(password);
    PickedCount(Utf16Length(password) >= 8, HasClass(password, Lower), HasClass(password, Upper),
                HasClass(password, Digit), HasClass(password, Special));
  }

  /** `s`, with `c` added when `pick` holds. */
  function Pick(s: set<Criterion>, c: Criterion, pick: bool): set<Criterion>
  {
    if pick then s + {c} else s
  }

  /** The criteria picked by five flags, one flag per criterion. */
  function Picked(length: bool, lower: bool, upper: bool, digit: bool, special: bool): set<Criterion>
  {
    Pick(Pick(Pick(Pick(Pick({}, MinLength, length), Contains(Lower), lower), Contains(Upper), upper),
      Contains(Digit), digit), Contains(Special), special)
  }

  /** The criteria are distinct, so the flags set count the criteria picked. */
  lemma PickedCount(length: bool, lower: bool, upper: bool, digit: bool, special: bool)
    ensures |Picked(length, lower, upper, digit, special)| ==
      (if length then 1 else 0) + (if lower then 1 else 0) + (if upper then 1 else 0) +
      (if digit then 1 else 0) + (if special then 1 else 0)
  {
    var s0: set<Criterion> := {};
    PickOne(s0, {}, MinLength, length);
    var s1 := Pick(s0, MinLength, length);
    PickOne(s1, {MinLength}, Contains(Lower), lower);
    var s2 := Pick(s1, Contains(Lower), lower);
    PickOne(s2, {MinLength, Contains(Lower)}, Contains(Upper), upper);
    var s3 := Pick(s2, Contains(Upper), upper);
    PickOne(s3, {MinLength, Contains(Lower), Contains(Upper)}, Contains(Digit), digit);
    var s4 := Pick(s3, Contains(Digit), digit);
    PickOne(s4, {MinLength, Contains(Lower), Contains(Upper), Contains(Digit)}, Contains(Special), special);
  }

  /** Picking a criterion outside the ones picked so far adds one to the count. */
  lemma PickOne(s: set<Criterion>, bound: set<Criterion>, c: Criterion, pick: bool)
    requires s <= bound && c !in bound
    ensures |Pick(s, c, pick)| == |s| + (if pick then 1 else 0)
    ensures Pick(s, c, pick) <= bound + {c}
  {
  }

  /** The criteria met, written out criterion by criterion. */
  lemma MetCriteriaParts(password: string)
    ensures MetCriteria(password) == Picked(Utf16Length(password) >= 8, HasClass(password, Lower),
      HasClass(password, Upper), HasClass(password, Digit), HasClass(password, Special))
  {
    var picked := Picked(Utf16Length(password) >= 8, HasClass(password, Lower),
      HasClass(password, Upper), HasClass(password, Digit), HasClass(password, Special));
    forall c ensures (c in MetCriteria(password) <==> Meets(password, c)) && (c in picked <==> Meets(password, c)) {
      match c
      case MinLength =>
      case Contains(cls) =>
        match cls
        case Lower =>
        case Upper =>
        case Digit =>
        case Special =>
    }
  }

  /** The score lies in 0..5 and is 0 for the empty password. */
  lemma StrengthRange(password: string)
    ensures |MetCriteria(password)| <= 5
    ensures password == "" ==> |MetCriteria(password)| == 0
  {
    var met := MetCriteria(password);
    AllCriteriaCount();
    assert AllCriteria == met + (AllCriteria - met);
    if password == "" {
      assert met == {};
    }
  }

  /** A password the pattern accepts scores 5. */
  lemma ValidPasswordIsStrongest(password: string)
    requires ValidatePassword(password)
    ensures |MetCriteria(password)| == 5
  {
    PasswordPattern(password);
    MetCriteriaCount(password);
  }

  /** The converse fails: eight characters of all four classes and a space score 5 and are rejected. */
  lemma StrongestNotAlwaysValid(password: string)
    requires password == "Abcdef1! "
    ensures |MetCriteria(password)| == 5
    ensures !ValidatePassword(password)
  {
    assert !ValidatePassword(password) by {
      assert !PasswordChar(password[8]);
    }
    SpacedExampleClasses(password);
    MetCriteriaCount(password);
  }

  lemma SpacedExampleClasses(password: string)
    requires password == "Abcdef1! "
    ensures Utf16Length(password) >= 8
    ensures HasClass(password, Lower) && HasClass(password, Upper)
    ensures HasClass(password, Digit) && HasClass(password, Special)
  {
    assert InClass(password[1], Lower) && InClass(password[0], Upper);
    assert InClass(password[6], Digit) && InClass(password[7], Special);
  }
}
