/**
  The sign-up page's form check (`src/pages/RegisterPage.tsx`): `validateForm`
  builds one message per field and a validity flag, and `isFormValid` enables
  the submit button once every field holds something.
*/
module RegisterForm {

  /** The six inputs of the form. */
  datatype Form = Form(username: string, email: string, password: string, confirmPassword: string,
                       name: string, birthdate: string)

  /** One message per field; `""` means no error. */
  datatype FormErrors = FormErrors(username: string, email: string, password: string, confirmPassword: string,
                                   name: string, birthdate: string)

  const NoErrors := FormErrors("", "", "", "", "", "")

  /** The messages `validateForm` can set. */
  const UsernameRequired := "Username is required"
  const UsernameTooShort := "Username must be at least 3 characters"
  const EmailRequired := "Email is required"
  const EmailInvalid := "Invalid email format"
  const PasswordRequired := "Password is required"
  const PasswordTooShort := "Password must be at least 8 characters"
  const PasswordsDiffer := "Passwords do not match"
  const NameRequired := "Name is required"
  const BirthdateRequired := "Birthdate is required"

  // ======================================================== the email pattern

  /** JavaScript's `\s`: the ASCII and Unicode white space and line terminators. */
  predicate IsJsSpace(c: char)
  {
    c == ' ' || c == '\t' || c == '\n' || c == '\r' || c == '\U{000B}' || c == '\U{000C}' ||
    c == '\U{00A0}' || c == '\U{1680}' || ('\U{2000}' <= c <= '\U{200A}') || c == '\U{2028}' ||
    c == '\U{2029}' || c == '\U{202F}' || c == '\U{205F}' || c == '\U{3000}' || c == '\U{FEFF}'
  }

  /** Every character matches `[^\s@]`. */
  predicate Plain(s: string)
  {
    forall i :: 0 <= i < |s| ==> !IsJsSpace(s[i]) && s[i] != '@'
  }

  /**
    What `^[^\s@]+@[^\s@]+\.[^\s@]+$` accepts, read off the pattern: an `@` at
    `i` and a `.` at `j`, with non-empty plain text before the `@`, between the
    two and after the `.`.
  */
  ghost predicate EmailShaped(s: string)
  {
    exists i, j :: 0 < i && i + 1 < j && j + 1 < |s| && s[i] == '@' && s[j] == '.' &&
      Plain(s[..i]) && Plain(s[i + 1..j]) && Plain(s[j + 1..])
  }

  function IndexOf(s: string, c: char): (k: int)
    ensures -1 <= k < |s|
    ensures k >= 0 ==> s[k] == c && forall n :: 0 <= n < k ==> s[n] != c
    ensures k == -1 ==> c !in s
  {
    if s == [] then -1
    else if s[0] == c then 0
    else var k := IndexOf(s[1..], c); if k == -1 then -1 else k + 1
  }

  /** No character of `s` is white space. */
  predicate NoSpace(s: string)
  {
    s == [] || (!IsJsSpace(s[0]) && NoSpace(s[1..]))
  }

  lemma {:induction false} NoSpaceEverywhere(s: string)
    ensures NoSpace(s) <==> forall n :: 0 <= n < |s| ==> !IsJsSpace(s[n])
  {
    if s != [] {
      NoSpaceEverywhere(s[1..]);
      assert forall n :: 1 <= n < |s| ==> s[n] == s[1..][n - 1];
    }
  }

  /**
    The pattern's test as a decision: no white space, the first `@` is not at
    the start, no `@` follows it, and a `.` stands after at least one
    character of the domain and before its last character.
  */
  predicate EmailPattern(s: string)
  {
    var at := IndexOf(s, '@');
    NoSpace(s) && 0 < at && at + 3 < |s| && '@' !in s[at + 1..] && '.' in s[at + 2..|s| - 1]
  }

  lemma PlainSlice(s: string, lo: int, hi: int)
    requires 0 <= lo <= hi <= |s|
    requires forall k :: lo <= k < hi ==> !IsJsSpace(s[k]) && s[k] != '@'
    ensures Plain(s[lo..hi])
    ensures lo == 0 ==> Plain(s[..hi])
    ensures hi == |s| ==> Plain(s[lo..])
  {
    forall n | 0 <= n < hi - lo ensures !IsJsSpace(s[lo..hi][n]) && s[lo..hi][n] != '@' {
      assert s[lo..hi][n] == s[lo + n];
    }
    if lo == 0 { assert s[..hi] == s[lo..hi]; }
    if hi == |s| { assert s[lo..] == s[lo..hi]; }
  }

  lemma PatternShaped(s: string)
    requires EmailPattern(s)
    ensures EmailShaped(s)
  {
    var at := IndexOf(s, '@');
    NoSpaceEverywhere(s);
    forall k | at < k < |s| ensures s[k] != '@' {
      assert s[at + 1..][k - at - 1] == s[k];
    }
    var mid := s[at + 2..|s| - 1];
    var d := IndexOf(mid, '.');
    var j := at + 2 + d;
    assert s[j] == mid[d];
    PlainSlice(s, 0, at);
    PlainSlice(s, at + 1, j);
    PlainSlice(s, j + 1, |s|);
  }

  lemma ShapedPattern(s: string)
    requires EmailShaped(s)
    ensures EmailPattern(s)
  {
    var i, j :| 0 < i && i + 1 < j && j + 1 < |s| && s[i] == '@' && s[j] == '.' &&
      Plain(s[..i]) && Plain(s[i + 1..j]) && Plain(s[j + 1..]);
    forall n | 0 <= n < |s| && n != i ensures !IsJsSpace(s[n]) && s[n] != '@' {
      if n < i { assert s[n] == s[..i][n]; }
      else if n < j { assert s[n] == s[i + 1..j][n - i - 1]; }
      else if n == j { }
      else { assert s[n] == s[j + 1..][n - j - 1]; }
    }
    NoSpaceEverywhere(s);
    var at := IndexOf(s, '@');
    assert at == i;
    assert !IsJsSpace(s[i]);
    assert s[at + 2..|s| - 1][j - at - 2] == '.';
  }

  /** The decision agrees with the pattern, in both directions. */
  lemma EmailPatternIff(s: string)
    ensures EmailPattern(s) <==> EmailShaped(s)
  {
    if EmailPattern(s) { PatternShaped(s); }
    if EmailShaped(s) { ShapedPattern(s); }
  }

  // ======================================================== validateForm

  /** `regex.test(email)` for the email pattern. */
  method EmailTest(email: string) returns (matches: bool)
    ensures matches <==> EmailShaped(email)
  {
    EmailPatternIff(email);
    matches := EmailPattern(email);
  }

  /** Every message empty. */
  predicate Clean(e: FormErrors)
  {
    e.username == "" && e.email == "" && e.password == "" && e.confirmPassword == "" &&
    e.name == "" && e.birthdate == ""
  }

  /** The username's message: required first, then at least 3 characters. */
  function UsernameError(username: string): (m: string)
    ensures m == "" <==> |username| >= 3
  {
    if username == "" then UsernameRequired
    else if |username| < 3 then UsernameTooShort
    else ""
  }

  /** The email's message: required first, then the pattern. */
  function EmailError(email: string): (m: string)
    ensures m == "" <==> EmailShaped(email)
    ensures email != "" && !EmailShaped(email) ==> m == EmailInvalid
  {
    EmailPatternIff(email);
    if email == "" then EmailRequired
    else if !EmailPattern(email) then EmailInvalid
    else ""
  }

  /** The password's message: required first, then at least 8 characters. */
  function PasswordError(password: string): (m: string)
    ensures m == "" <==> |password| >= 8
  {
    if password == "" then PasswordRequired
    else if |password| < 8 then PasswordTooShort
    else ""
  }

  /** The confirmation's message, set exactly when the two passwords differ. */
  function ConfirmError(password: string, confirmPassword: string): (m: string)
    ensures m == "" <==> password == confirmPassword
  {
    if password != confirmPassword then PasswordsDiffer else ""
  }

  /** The message of a field that is only required. */
  function RequiredError(value: string, message: string): (m: string)
    requires message != ""
    ensures m == "" <==> value != ""
  {
    if value == "" then message else ""
  }

  /** The messages `validateForm` stores for a form. */
  function ErrorsOf(form: Form): FormErrors
  {
    FormErrors(UsernameError(form.username), EmailError(form.email), PasswordError(form.password),
               ConfirmError(form.password, form.confirmPassword),
               RequiredError(form.name, NameRequired), RequiredError(form.birthdate, BirthdateRequired))
  }

  /** What a form must satisfy to be sent. */
  ghost predicate Acceptable(form: Form)
  {
    |form.username| >= 3 && EmailShaped(form.email) && |form.password| >= 8 &&
    form.password == form.confirmPassword && form.name != "" && form.birthdate != ""
  }

  /** No message at all exactly for an acceptable form. */
  lemma CleanIffAcceptable(form: Form)
    ensures Clean(ErrorsOf(form)) <==> Acceptable(form)
  {
  }

  /** The required check takes precedence: an empty field gets its "required" message. */
  lemma RequiredFirst(form: Form)
    ensures form.username == "" ==> ErrorsOf(form).username == UsernameRequired
    ensures form.email == "" ==> ErrorsOf(form).email == EmailRequired
    ensures form.password == "" ==> ErrorsOf(form).password == PasswordRequired
    ensures form.name == "" ==> ErrorsOf(form).name == NameRequired
    ensures form.birthdate == "" ==> ErrorsOf(form).birthdate == BirthdateRequired
  {
  }

  /**
    `validateForm`: one message per field, set in order, and a flag that is
    false exactly when some message is set, that is, when the form is not
    acceptable. The messages are what `setErrors` stores.
  */
  method ValidateForm(form: Form) returns (errors: FormErrors, isValid: bool)
    ensures errors == ErrorsOf(form)
    ensures isValid <==> Clean(errors)
    ensures isValid <==> Acceptable(form)
  {
    var newErrors := NoErrors;
    isValid := true;

    if form.username == "" {
      newErrors := newErrors.(username := UsernameRequired);
      isValid := false;
    } else if |form.username| < 3 {
      newErrors := newErrors.(username := UsernameTooShort);
      isValid := false;
    }
    assert newErrors == NoErrors.(username := UsernameError(form.username));
    assert isValid <==> newErrors.username == "";

    var emailMatches := EmailTest(form.email);
    if form.email == "" {
      newErrors := newErrors.(email := EmailRequired);
      isValid := false;
    } else if !emailMatches {
      newErrors := newErrors.(email := EmailInvalid);
      isValid := false;
    }
    assert newErrors == NoErrors.(username := UsernameError(form.username), email := EmailError(form.email));
    assert isValid <==> newErrors.username == "" && newErrors.email == "";

    if form.password == "" {
      newErrors := newErrors.(password := PasswordRequired);
      isValid := false;
    } else if |form.password| < 8 {
      newErrors := newErrors.(password := PasswordTooShort);
      isValid := false;
    }
    assert newErrors.password == PasswordError(form.password);
    assert isValid <==> newErrors.username == "" && newErrors.email == "" && newErrors.password == "";

    if form.password != form.confirmPassword {
      newErrors := newErrors.(confirmPassword := PasswordsDiffer);
      isValid := false;
    }

    if form.name == "" {
      newErrors := newErrors.(name := NameRequired);
      isValid := false;
    }

    if form.birthdate == "" {
      newErrors := newErrors.(birthdate := BirthdateRequired);
      isValid := false;
    }

    errors := newErrors;
    CleanIffAcceptable(form);
  }

  /** `isFormValid`: every input holds something. */
  predicate IsFormValid(form: Form)
  {
    form.username != "" && form.email != "" && form.password != "" && form.confirmPassword != "" &&
    form.name != "" && form.birthdate != ""
  }

  /** A form the check accepts also has the submit button enabled. */
  lemma AcceptableEnablesSubmit(form: Form)
    requires Acceptable(form)
    ensures IsFormValid(form)
  {
  }

  /** The converse fails: a two-letter username leaves the button enabled, but the check refuses it. */
  lemma EnabledNotAcceptable()
    ensures var form := Form("ab", "a@b.c", "password", "password", "A", "2010-01-01");
            IsFormValid(form) && !Acceptable(form)
  {
  }

  /** The pattern accepts `a@b.c`. */
  lemma EmailAccepted()
    ensures EmailShaped("a@b.c")
  {
    var s := "a@b.c";
    var i, j := 1, 3;
    assert s[i] == '@' && s[j] == '.';
    assert s[..i] == "a" && s[i + 1..j] == "b" && s[j + 1..] == "c";
    assert Plain(s[..i]) && Plain(s[i + 1..j]) && Plain(s[j + 1..]);
  }

  /** Without a dot after the `@`, or with nothing before the `@`, the pattern fails. */
  lemma EmailNeedsParts()
    ensures !EmailShaped("a@b") && !EmailShaped("@b.c")
  {
    EmailPatternIff("a@b");
    EmailPatternIff("@b.c");
  }

  /** A dot right after the `@` or at the very end does not count. */
  lemma EmailDotPlacement()
    ensures !EmailShaped("a@.c") && !EmailShaped("a@b.")
  {
    EmailPatternIff("a@.c");
    EmailPatternIff("a@b.");
    assert IndexOf("a@.c", '@') == 1 && "a@.c"[3..3] == "";
    assert IndexOf("a@b.", '@') == 1 && "a@b."[3..3] == "";
  }

  /** White space anywhere, or a second `@`, makes the pattern fail. */
  lemma EmailNoSpaceOneAt()
    ensures !EmailShaped("a b@c.d") && !EmailShaped("a@b@c.d")
  {
    EmailPatternIff("a b@c.d");
    EmailPatternIff("a@b@c.d");
    NoSpaceEverywhere("a b@c.d");
    assert "a b@c.d"[1] == ' ';
    assert IndexOf("a@b@c.d", '@') == 1;
    assert "a@b@c.d"[2..][1] == '@';
  }
}
