/** The reset-password page: without a `token` in the query string no submit
    handler is attached; on submit both fields are trimmed and checked in a
    fixed order, the first failing check is reported, and only a password
    that passes them all is sent with the token. */
module ResetPasswordPage {
  import opened Wrappers
  import opened JsText
  import UserModel
  import AuthController
  import RegisterPage

  /** How one submit ends: a toast for the first failing check, or the
      `resetPassword({ token, newPassword })` request. */
  datatype SubmitResult =
    | MissingField
    | Mismatch
    | TooShort
    | NoUpper
    | NoDigit
    | NoSpecial
    | Send(token: string, newPassword: string)

  /** The toast each failing check shows. */
  function Toast(r: SubmitResult): Option<string>
  {
    match r
    case MissingField => Some("❌ Por favor completa todos los campos")
    case Mismatch => Some("❌ Las contraseñas no coinciden")
    case TooShort => Some("❌ La contraseña debe tener al menos 8 caracteres")
    case NoUpper => Some("❌ La contraseña debe tener al menos una mayúscula")
    case NoDigit => Some("❌ La contraseña debe tener al menos un número")
    case NoSpecial => Some("❌ La contraseña debe tener al menos un carácter especial")
    case Send(_, _) => None
  }

  /** The submit handler, for the two raw field values. Each failure is
      reported only when every earlier check passed. */
  function OnSubmit(token: string, newInput: string, confirmInput: string): (r: SubmitResult)
    ensures var p, c := Trim(newInput), Trim(confirmInput);
            && (r.Send? <==> p != "" && c == p && AuthController.ResetPolicy(p))
            && (r.Send? ==> r.token == token && r.newPassword == p)
            && (r == MissingField <==> p == "" || c == "")
            && (r == Mismatch ==> p != "" && c != "" && p != c)
            && (r == TooShort ==> p == c && p != "" && |p| < 8)
            && (r == NoUpper ==> p == c && |p| >= 8 && !HasUpper(p))
            && (r == NoDigit ==> p == c && |p| >= 8 && HasUpper(p) && !HasDigit(p))
            && (r == NoSpecial ==> p == c && |p| >= 8 && HasUpper(p) && HasDigit(p) && !HasNonAlnum(p))
  {
    var newPassword := Trim(newInput);
    var confirmPassword := Trim(confirmInput);
    if newPassword == "" || confirmPassword == "" then MissingField
    else if newPassword != confirmPassword then Mismatch
    else if |newPassword| < 8 then TooShort
    else if !HasUpper(newPassword) then NoUpper
    else if !HasDigit(newPassword) then NoDigit
    else if !HasNonAlnum(newPassword) then NoSpecial
    else Send(token, newPassword)
  }

  /** The page: a missing or empty `token` parameter attaches no handler, so a
      submit does nothing. */
  function Page(token: Option<string>, newInput: string, confirmInput: string): (r: Option<SubmitResult>)
    ensures r.None? <==> token.None? || token.value == ""
    ensures r.Some? ==> r.value == OnSubmit(token.value, newInput, confirmInput)
  {
    if token.None? || token.value == "" then None
    else Some(OnSubmit(token.value, newInput, confirmInput))
  }

  /** Whatever the page sends passes the reset handler's own password check,
      is trimmed, and passes the schema's pattern too unless it has a line
      terminator inside. */
  lemma {:induction false} SentPasswordPassesServerChecks(token: Option<string>, newInput: string, confirmInput: string)
    requires Page(token, newInput, confirmInput).Some?
    requires Page(token, newInput, confirmInput).value.Send?
    ensures var p := Page(token, newInput, confirmInput).value.newPassword;
            && AuthController.ResetPolicy(p) && IsTrimmed(p)
            && (!HasLineTerminator(p) ==> UserModel.PasswordPattern(p))
  {
  }

  /** Trimming happens before every check: surrounding white space never
      changes the outcome. */
  lemma {:induction false} TrimmedInputsSameOutcome(token: string, newInput: string, confirmInput: string)
    ensures OnSubmit(token, newInput, confirmInput) == OnSubmit(token, Trim(newInput), Trim(confirmInput))
  {
    TrimmedIsFixed(Trim(newInput));
    TrimmedIsFixed(Trim(confirmInput));
  }

  /** The page asks for no lower-case letter, unlike the registration form:
      a password the page sends may be one the registration form refuses. */
  lemma {:induction false} NoLowerCaseNeeded()
    ensures OnSubmit("t", "ABCDEFG1!", "ABCDEFG1!") == Send("t", "ABCDEFG1!")
    ensures !RegisterPage.FormPassword("ABCDEFG1!")
  {
    var p := "ABCDEFG1!";
    TrimmedIsFixed(p);
    assert IsUpper(p[0]) && IsDigit(p[7]) && !IsAlnum(p[8]);
  }
}
