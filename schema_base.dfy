/** The request checks shared by every person schema (app/schemas/base.py):
    the name, username and password validators, and how a failed check
    becomes the first entry of a pydantic validation error. */
module SchemaBase {
  import opened Results
  import opened Text

  /** One entry of a pydantic validation error: the field and its message. */
  datatype FieldError = FieldError(loc: string, msg: string)

  const FieldRequired := "Field required"

  /** Pydantic's message for a `ValueError` raised by a field validator. */
  function ValueErrorMsg(m: string): string { "Value error, " + m }

  /** A required field: missing gives pydantic's "Field required". */
  function Required<T>(loc: string, v: Option<T>): (r: Result<T, FieldError>)
    ensures r.Success? <==> v.Some?
    ensures r.Success? ==> r.value == v.value
    ensures r.Failure? ==> r.error == FieldError(loc, FieldRequired)
  {
    if v.None? then Failure(FieldError(loc, FieldRequired)) else Success(v.value)
  }

  /** Runs a field validator; its `ValueError` becomes a FieldError at `loc`. */
  function Checked(loc: string, v: string, check: string -> Result<string, string>): (r: Result<string, FieldError>)
    ensures r.Success? <==> check(v).Success?
    ensures r.Success? ==> r.value == check(v).value
    ensures r.Failure? ==> r.error == FieldError(loc, ValueErrorMsg(check(v).error))
  {
    match check(v)
    case Success(x) => Success(x)
    case Failure(m) => Failure(FieldError(loc, ValueErrorMsg(m)))
  }

  /** A required field with a validator (the Create schemas). */
  function RequiredChecked(loc: string, v: Option<string>, check: string -> Result<string, string>): (r: Result<string, FieldError>)
    ensures r.Success? <==> v.Some? && check(v.value).Success?
    ensures r.Success? ==> r.value == check(v.value).value
    ensures v.None? ==> r == Failure(FieldError(loc, FieldRequired))
  {
    var x :- Required(loc, v);
    Checked(loc, x, check)
  }

  /** An optional field with a validator (the Update schemas): the validator
      runs only on a supplied value; an absent one passes unchanged. */
  function OptionalChecked(loc: string, v: Option<string>, check: string -> Result<string, string>): (r: Result<Option<string>, FieldError>)
    ensures r.Success? <==> v.None? || check(v.value).Success?
    ensures r.Success? ==> r.value == (if v.None? then None else Some(check(v.value).value))
  {
    if v.None? then Success(None)
    else match Checked(loc, v.value, check)
      case Success(x) => Success(Some(x))
      case Failure(e) => Failure(e)
  }

  // ---- name -----------------------------------------------------------------

  const NameTooShort := "Name must have at least 3 characters."
  const NameTooLong := "Name cannot exceed 128 characters."

  /** `validate_name`, identical on the Create and Update schemas. */
  function ValidateName(v: string): (r: Result<string, string>)
    ensures r.Success? <==> 3 <= |v| <= 128
    ensures r.Success? ==> r.value == v
    ensures r == Failure(NameTooShort) <==> |v| < 3
    ensures r == Failure(NameTooLong) <==> |v| > 128
  {
    if |v| < 3 then Failure(NameTooShort)
    else if |v| > 128 then Failure(NameTooLong)
    else Success(v)
  }

  // ---- username -------------------------------------------------------------

  const UsernameTooShort := "Username must have at least 3 characters."
  const UsernameTooLong := "Username cannot exceed 32 characters."
  const UsernameBadChars := "Username can only contain letters, numbers, underscores, and hyphens."

  /** A character of the class `[a-zA-Z0-9_-]`. */
  predicate IsUsernameChar(c: char)
  {
    IsLower(c) || IsUpper(c) || IsDigit(c) || c == '_' || c == '-'
  }

  predicate AllUsernameChars(v: string)
  {
    forall i :: 0 <= i < |v| ==> IsUsernameChar(v[i])
  }

  /** What the validator's message promises: one or more characters, each
      a letter, digit, underscore or hyphen. */
  predicate UsernamePattern(v: string)
  {
    |v| > 0 && AllUsernameChars(v)
  }

  /** `re.match("^[a-zA-Z0-9_-]+$", v)` as Python evaluates it: `$` matches at
      the end of the string and also just before a final newline. */
  predicate UsernamePatternAsWritten(v: string)
  {
    UsernamePattern(v) || (|v| > 0 && v[|v| - 1] == '\n' && UsernamePattern(v[..|v| - 1]))
  }

  /** `validate_username` exactly as written. */
  function ValidateUsernameAsWritten(v: string): (r: Result<string, string>)
    ensures r.Success? <==> 3 <= |v| <= 32 && UsernamePatternAsWritten(v)
  {
    if |v| < 3 then Failure(UsernameTooShort)
    else if |v| > 32 then Failure(UsernameTooLong)
    else if !UsernamePatternAsWritten(v) then Failure(UsernameBadChars)
    else Success(v)
  }

  /** `validate_username` with the character check its message promises;
      the schemas below use this one. */
  function ValidateUsername(v: string): (r: Result<string, string>)
    ensures r.Success? <==> 3 <= |v| <= 32 && AllUsernameChars(v)
    ensures r.Success? ==> r.value == v
    ensures r == Failure(UsernameTooShort) <==> |v| < 3
    ensures r == Failure(UsernameTooLong) <==> |v| > 32
    ensures r == Failure(UsernameBadChars) <==> 3 <= |v| <= 32 && !AllUsernameChars(v)
  {
    if |v| < 3 then Failure(UsernameTooShort)
    else if |v| > 32 then Failure(UsernameTooLong)
    else if !UsernamePattern(v) then Failure(UsernameBadChars)
    else Success(v)
  }

  /** The validator as written lets a username with a trailing newline through. */
  lemma TrailingNewlineUsernameAccepted()
    ensures ValidateUsernameAsWritten("abc\n").Success?
    ensures ValidateUsername("abc\n").Failure?
  {
    var v := "abc\n";
    assert v[..3] == "abc";
    assert UsernamePattern(v[..3]);
    assert !IsUsernameChar(v[3]);
  }

  /** The two agree on every string that does not end in a newline. */
  lemma UsernameValidatorsAgree(v: string)
    requires |v| == 0 || v[|v| - 1] != '\n'
    ensures ValidateUsernameAsWritten(v) == ValidateUsername(v)
  {
  }

  // ---- password -------------------------------------------------------------

  const PasswordBadLength := "Password must be between 8 and 32 characters long."
  const PasswordNoDigit := "Password must contain at least one number."
  const PasswordNoLower := "Password must contain at least one lowercase letter."
  const PasswordNoUpper := "Password must contain at least one uppercase letter."
  const PasswordNoSpecial := "Password must contain at least one special character."

  /** The characters of the class `[!@#$%^&*(),.?":{}|<>]`. */
  const SpecialChars := "!@#$%^&*(),.?\":{}|<>"

  predicate HasDigit(v: string) { exists i | 0 <= i < |v| :: IsDigit(v[i]) }
  predicate HasLower(v: string) { exists i | 0 <= i < |v| :: IsLower(v[i]) }
  predicate HasUpper(v: string) { exists i | 0 <= i < |v| :: IsUpper(v[i]) }
  predicate HasSpecial(v: string) { exists i | 0 <= i < |v| :: v[i] in SpecialChars }

  predicate StrongPassword(v: string)
  {
    8 <= |v| <= 32 && HasDigit(v) && HasLower(v) && HasUpper(v) && HasSpecial(v)
  }

  /** `validate_password`: the checks run in the order length, digit, lower,
      upper, special, and the first that fails names the error. */
  function ValidatePassword(v: string): (r: Result<string, string>)
    ensures r.Success? <==> StrongPassword(v)
    ensures r.Success? ==> r.value == v
    ensures r == Failure(PasswordBadLength) <==> !(8 <= |v| <= 32)
    ensures r == Failure(PasswordNoDigit) <==> 8 <= |v| <= 32 && !HasDigit(v)
    ensures r == Failure(PasswordNoLower) <==> 8 <= |v| <= 32 && HasDigit(v) && !HasLower(v)
    ensures r == Failure(PasswordNoUpper) <==> 8 <= |v| <= 32 && HasDigit(v) && HasLower(v) && !HasUpper(v)
    ensures r == Failure(PasswordNoSpecial)
        <==> 8 <= |v| <= 32 && HasDigit(v) && HasLower(v) && HasUpper(v) && !HasSpecial(v)
  {
    if |v| < 8 || |v| > 32 then Failure(PasswordBadLength)
    else if !HasDigit(v) then Failure(PasswordNoDigit)
    else if !HasLower(v) then Failure(PasswordNoLower)
    else if !HasUpper(v) then Failure(PasswordNoUpper)
    else if !HasSpecial(v) then Failure(PasswordNoSpecial)
    else Success(v)
  }

  /** "Pass1word!" passes every check. */
  lemma StrongPasswordExample()
    ensures ValidatePassword("Pass1word!") == Success("Pass1word!")
  {
    var good := "Pass1word!";
    assert IsDigit(good[4]) && IsLower(good[1]) && IsUpper(good[0]) && good[9] in SpecialChars;
  }

  /** "password123" has the right length, a digit and lower case, and fails
      on the missing upper-case letter. */
  lemma NoUpperPasswordExample()
    ensures ValidatePassword("password123") == Failure(PasswordNoUpper)
  {
    var bad := "password123";
    assert IsDigit(bad[8]) && IsLower(bad[0]);
    forall i | 0 <= i < |bad| ensures !IsUpper(bad[i]) {
      assert bad[i] in "password123";
    }
  }
}
