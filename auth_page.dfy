/**
 * The sign-in / sign-up form of star-note-frontend/src/pages/Auth/AuthPage.jsx: its state
 * (mode, field values, per-field errors, the server's error), the validator that fills the
 * error dictionary, and the handlers that clear errors.
 */
module AuthPage {
  import opened Wrappers
  import opened JsStrings

  /** The three inputs, by their `name` attribute. */
  datatype Field = Name | Email | Password

  datatype FormData = FormData(name: string, email: string, password: string) {
    function Get(f: Field): string {
      match f
      case Name => name
      case Email => email
      case Password => password
    }

    function With(f: Field, v: string): FormData {
      match f
      case Name => this.(name := v)
      case Email => this.(email := v)
      case Password => this.(password := v)
    }
  }

  /**
   * The texts an error entry can hold: the validator's five messages, and the empty string
   * that `handleChange` leaves behind.
   */
  datatype Message = NameRequired | EmailRequired | EmailInvalid | PasswordRequired | PasswordTooShort | Cleared {
    function Text(): (t: string)
      ensures t == "" <==> this == Cleared
    {
      match this
      case NameRequired => "Name is required"
      case EmailRequired => "Email is required"
      case EmailInvalid => "Email is invalid"
      case PasswordRequired => "Password is required"
      case PasswordTooShort => "Password must be at least 6 characters"
      case Cleared => ""
    }
  }

  // ================================================================ /\S+@\S+\.\S+/

  /**
   * What the pattern `\S+@\S+\.\S+` finds somewhere in `s`: an `@` with a non-space before it,
   * then a run of non-spaces, a `.` and a non-space.
   */
  ghost predicate EmailLike(s: string) {
    exists at, dot :: 0 < at && at + 1 < dot && dot + 1 < |s| && EmailShape(s, at, dot)
  }

  ghost predicate EmailShape(s: string, at: int, dot: int)
    requires 0 < at && at + 1 < dot && dot + 1 < |s|
  {
    s[at] == '@' && s[dot] == '.' && !IsSpace(s[at - 1]) && !IsSpace(s[dot + 1])
    && forall k :: at < k < dot ==> !IsSpace(s[k])
  }

  /** The first index at or after `i` holding a space, or the length. */
  function SpaceFrom(s: string, i: nat): (e: nat)
    requires i <= |s|
    ensures i <= e <= |s|
    decreases |s| - i
  {
    if i == |s| || IsSpace(s[i]) then i else SpaceFrom(s, i + 1)
  }

  lemma {:induction false} SpaceFromStops(s: string, i: nat)
    requires i <= |s|
    ensures var e := SpaceFrom(s, i);
            (e < |s| ==> IsSpace(s[e])) && forall k :: i <= k < e ==> !IsSpace(s[k])
    decreases |s| - i
  {
    if i < |s| && !IsSpace(s[i]) {
      SpaceFromStops(s, i + 1);
    }
  }

  /** Whether a `.` occurs in `s[a..b]`. */
  function DotIn(s: string, a: nat, b: nat): bool
    requires b <= |s|
    decreases b - a
  {
    if a >= b then false else s[a] == '.' || DotIn(s, a + 1, b)
  }

  lemma {:induction false} DotInMeaning(s: string, a: nat, b: nat)
    requires b <= |s|
    ensures DotIn(s, a, b) <==> exists d :: a <= d < b && s[d] == '.'
    decreases b - a
  {
    if a < b {
      DotInMeaning(s, a + 1, b);
    }
  }

  /**
   * The pattern's test as a left-to-right scan from `i`: an `@` after a non-space whose
   * following run of non-spaces holds a `.` with at least one character on each side.
   */
  function EmailFrom(s: string, i: nat): bool
    requires i <= |s|
    decreases |s| - i
  {
    if i == |s| then false
    else
      (0 < i && s[i] == '@' && !IsSpace(s[i - 1]) && DotIn(s, i + 2, SpaceFrom(s, i + 1) - 1))
      || EmailFrom(s, i + 1)
  }

  function IsEmail(s: string): bool {
    EmailFrom(s, 0)
  }

  /** The scan accepts exactly the texts in which the pattern occurs. */
  lemma IsEmailMeaning(s: string)
    ensures IsEmail(s) <==> EmailLike(s)
  {
    if IsEmail(s) {
      EmailFromSound(s, 0);
    }
    if EmailLike(s) {
      var at, dot :| 0 < at && at + 1 < dot && dot + 1 < |s| && EmailShape(s, at, dot);
      EmailFromComplete(s, 0, at, dot);
    }
  }

  lemma {:induction false} EmailFromSound(s: string, i: nat)
    requires i <= |s| && EmailFrom(s, i)
    ensures EmailLike(s)
    decreases |s| - i
  {
    if 0 < i && s[i] == '@' && !IsSpace(s[i - 1]) && DotIn(s, i + 2, SpaceFrom(s, i + 1) - 1) {
      var e := SpaceFrom(s, i + 1);
      SpaceFromStops(s, i + 1);
      DotInMeaning(s, i + 2, e - 1);
      var dot :| i + 2 <= dot < e - 1 && s[dot] == '.';
      assert EmailShape(s, i, dot);
    } else {
      EmailFromSound(s, i + 1);
    }
  }

  lemma {:induction false} EmailFromComplete(s: string, i: nat, at: int, dot: int)
    requires i <= at && 0 < at && at + 1 < dot && dot + 1 < |s| && EmailShape(s, at, dot)
    ensures EmailFrom(s, i)
    decreases at - i
  {
    if i < at {
      EmailFromComplete(s, i + 1, at, dot);
    } else {
      var e := SpaceFrom(s, at + 1);
      SpaceFromStops(s, at + 1);
      DotInMeaning(s, at + 2, e - 1);
      assert !IsSpace(s[dot]) && !IsSpace(s[dot + 1]);
      assert DotIn(s, at + 2, e - 1);
    }
  }

  // ================================================================ the validator's result

  /** The name check, made only when signing up. */
  function NameCheck(isSignUp: bool, name: string): Option<Message> {
    if isSignUp && Trim(name) == "" then Some(NameRequired) else None
  }

  function EmailCheck(email: string): Option<Message> {
    if Trim(email) == "" then Some(EmailRequired)
    else if !IsEmail(email) then Some(EmailInvalid)
    else None
  }

  function PasswordCheck(password: string): Option<Message> {
    if password == "" then Some(PasswordRequired)
    else if |password| < 6 then Some(PasswordTooShort)
    else None
  }

  /** `newErrors.field = message` when the check failed. */
  function Record(errors: map<Field, Message>, f: Field, check: Option<Message>): map<Field, Message> {
    if check.Some? then errors[f := check.value] else errors
  }

  /** The errors `validateForm` records, as a function of the mode and the field values. */
  function FormErrors(isSignUp: bool, f: FormData): map<Field, Message> {
    var n := Record(map[], Name, NameCheck(isSignUp, f.name));
    var e := Record(n, Email, EmailCheck(f.email));
    Record(e, Password, PasswordCheck(f.password))
  }

  /** Each field has an entry exactly when its check fails, holding that check's message. */
  lemma FormErrorsByField(isSignUp: bool, f: FormData)
    ensures var m := FormErrors(isSignUp, f);
            (Name in m <==> NameCheck(isSignUp, f.name).Some?)
            && (Name in m ==> m[Name] == NameCheck(isSignUp, f.name).value)
            && (Email in m <==> EmailCheck(f.email).Some?)
            && (Email in m ==> m[Email] == EmailCheck(f.email).value)
            && (Password in m <==> PasswordCheck(f.password).Some?)
            && (Password in m ==> m[Password] == PasswordCheck(f.password).value)
  {
  }

  /** The name is checked only when signing up, and then only for being blank. */
  lemma NameErrorOnlyOnSignUp(isSignUp: bool, name: string)
    ensures NameCheck(isSignUp, name).Some? <==> isSignUp && IsBlank(name)
    ensures NameCheck(isSignUp, name) != Some(NameRequired) ==> NameCheck(isSignUp, name) == None
  {
  }

  /** A blank email is "required"; any other email without the pattern is "invalid". */
  lemma EmailErrors(email: string)
    ensures EmailCheck(email).Some? <==> IsBlank(email) || !EmailLike(email)
    ensures EmailCheck(email).Some? ==>
              EmailCheck(email).value == (if IsBlank(email) then EmailRequired else EmailInvalid)
  {
    IsEmailMeaning(email);
  }

  /** A password under six characters is an error: "required" when empty, else "too short". */
  lemma PasswordErrors(password: string)
    ensures PasswordCheck(password).Some? <==> |password| < 6
    ensures PasswordCheck(password).Some? ==>
              PasswordCheck(password).value == (if password == "" then PasswordRequired else PasswordTooShort)
  {
  }

  /** Every recorded error has a non-empty message. */
  lemma ErrorsAreMessages(isSignUp: bool, f: FormData)
    ensures forall k :: k in FormErrors(isSignUp, f) ==> FormErrors(isSignUp, f)[k].Text() != ""
  {
    var m := FormErrors(isSignUp, f);
    FormErrorsByField(isSignUp, f);
    forall k | k in m
      ensures m[k].Text() != ""
    {
      assert m[k] != Cleared;
    }
  }

  // ================================================================ the page state

  class AuthForm {
    var isSignUp: bool
    var showPassword: bool
    var formData: FormData
    var errors: map<Field, Message>
    var apiError: string

    constructor()
      ensures !isSignUp && !showPassword && formData == FormData("", "", "")
      ensures errors == map[] && apiError == ""
    {
      isSignUp := false;
      showPassword := false;
      formData := FormData("", "", "");
      errors := map[];
      apiError := "";
    }

    /** `toggleAuthMode`: switch between sign-in and sign-up and drop every error. */
    method ToggleAuthMode()
      modifies this
      ensures isSignUp == !old(isSignUp) && errors == map[] && apiError == ""
      ensures formData == old(formData) && showPassword == old(showPassword)
    {
      isSignUp := !isSignUp;
      errors := map[];
      apiError := "";
    }

    /** `togglePasswordVisibility` */
    method TogglePasswordVisibility()
      modifies this
      ensures showPassword == !old(showPassword)
      ensures isSignUp == old(isSignUp) && formData == old(formData) && errors == old(errors) && apiError == old(apiError)
    {
      showPassword := !showPassword;
    }

    /**
     * `handleChange`: store the typed value; blank out the edited field's error if it has
     * one; drop the server's error. The other fields' values and errors stay as they were.
     */
    method HandleChange(name: Field, value: string)
      modifies this
      ensures formData == old(formData).With(name, value)
      ensures formData.Get(name) == value
      ensures forall f :: f != name ==> formData.Get(f) == old(formData).Get(f)
      ensures errors.Keys == old(errors).Keys
      ensures name in errors ==> errors[name].Text() == ""
      ensures forall f :: f in errors && f != name ==> errors[f] == old(errors)[f]
      ensures apiError == ""
      ensures isSignUp == old(isSignUp) && showPassword == old(showPassword)
    {
      formData := formData.With(name, value);
      if name in errors && errors[name].Text() != "" {
        errors := errors[name := Cleared];
      }
      if apiError != "" {
        apiError := "";
      }
    }

    /**
     * `validateForm`: record an error per failing field, replace the error dictionary with
     * them, and report whether there are none.
     */
    method ValidateForm() returns (valid: bool)
      modifies this
      ensures errors == FormErrors(isSignUp, formData)
      ensures valid <==> errors == map[]
      ensures valid <==> (!(isSignUp && IsBlank(formData.name)) && !IsBlank(formData.email)
                          && EmailLike(formData.email) && |formData.password| >= 6)
      ensures isSignUp == old(isSignUp) && formData == old(formData)
      ensures showPassword == old(showPassword) && apiError == old(apiError)
    {
      var newErrors: map<Field, Message> := map[];
      if isSignUp && Trim(formData.name) == "" {
        newErrors := newErrors[Name := NameRequired];
      }
      assert newErrors == Record(map[], Name, NameCheck(isSignUp, formData.name));
      ghost var afterName := newErrors;
      var email := formData.email;
      if Trim(email) == "" {
        newErrors := newErrors[Email := EmailRequired];
        assert EmailCheck(email) == Some(EmailRequired);
      } else if !IsEmail(email) {
        newErrors := newErrors[Email := EmailInvalid];
        assert EmailCheck(email) == Some(EmailInvalid);
      } else {
        assert EmailCheck(email) == None;
      }
      assert newErrors == Record(afterName, Email, EmailCheck(email));
      ghost var afterEmail := newErrors;
      if formData.password == "" {
        newErrors := newErrors[Password := PasswordRequired];
      } else if |formData.password| < 6 {
        newErrors := newErrors[Password := PasswordTooShort];
      }
      assert newErrors == Record(afterEmail, Password, PasswordCheck(formData.password));
      errors := newErrors;
      valid := |newErrors| == 0;
      ValidMeaning(isSignUp, formData);
    }
  }

  /** The form is valid exactly when every check passes. */
  lemma ValidMeaning(isSignUp: bool, f: FormData)
    ensures |FormErrors(isSignUp, f)| == 0 <==>
              (!(isSignUp && IsBlank(f.name)) && !IsBlank(f.email) && EmailLike(f.email) && |f.password| >= 6)
  {
    FormErrorsByField(isSignUp, f);
    NameErrorOnlyOnSignUp(isSignUp, f.name);
    EmailErrors(f.email);
    PasswordErrors(f.password);
    NoKeysEmpty(FormErrors(isSignUp, f));
  }

  /** A dictionary over the three fields is empty exactly when none of them is a key. */
  lemma NoKeysEmpty(m: map<Field, Message>)
    ensures |m| == 0 <==> (Name !in m && Email !in m && Password !in m)
  {
    if |m| != 0 {
      var k :| k in m;
      assert k == Name || k == Email || k == Password;
    }
  }
}
