/** The registration form's checks: `validateField` for one field,
    `isFormValid` for the whole form, and the body the submit handler sends. */
module RegisterPage {
  import opened Wrappers
  import opened JsText
  import UserModel

  /** The six inputs, as the raw text of each. */
  datatype Form = Form(names: string, surnames: string, age: string, email: string,
                       password: string, confirm: string)

  /** The keys of the `inputs` object. */
  datatype FormField = Names | Surnames | AgeInput | EmailInput | PasswordInput | Confirm

  /** `/\S+@\S+\.\S+/.test(s)`, unanchored: somewhere in `s` a non-space, an
      `@`, a run of non-spaces, a `.` and a non-space follow each other. */
  predicate FormEmail(s: string)
  {
    exists i, j :: 0 <= i < j < |s| && FormEmailAt(s, i, j)
  }

  /** The match of `FormEmail` with its `@` at `i` and its `.` at `j`. */
  predicate FormEmailAt(s: string, i: int, j: int)
  {
    && 1 <= i && i + 1 < j && j + 1 < |s| && s[i] == '@' && s[j] == '.'
    && !IsSpace(s[i - 1]) && !IsSpace(s[j + 1]) && !HasSpace(s[i + 1..j])
  }

  /** `/^(?=.*[a-z])(?=.*[A-Z])(?=.*\d)(?=.*[\W_]).{8,}$/.test(s)`: no line
      terminator, at least 8 long, a lower-case and an upper-case letter, a
      digit, and a character outside `[A-Za-z0-9]` (which is what `[\W_]`
      matches). */
  predicate FormPassword(s: string)
  {
    !HasLineTerminator(s) && |s| >= 8 && HasLower(s) && HasUpper(s) && HasDigit(s) && HasNonAlnum(s)
  }

  /** `parseInt(s, 10) >= 13`; `NaN` compares false. */
  predicate FormAge(s: string)
  {
    ParseInt(s).Some? && ParseInt(s).value >= UserModel.MinAge
  }

  /** `validateField(field)`: false exactly when that field's rule fails. */
  function ValidateField(form: Form, field: FormField): bool
  {
    match field
    case Names => Trim(form.names) != ""
    case Surnames => Trim(form.surnames) != ""
    case AgeInput => FormAge(form.age)
    case EmailInput => FormEmail(form.email)
    case PasswordInput => FormPassword(form.password)
    case Confirm => !(form.password != form.confirm || form.confirm == "")
  }

  /** `isFormValid()`: the conjunction of the rules, written out a second
      time in the page. */
  predicate IsFormValid(form: Form)
  {
    && Trim(form.names) != ""
    && Trim(form.surnames) != ""
    && FormAge(form.age)
    && FormEmail(form.email)
    && FormPassword(form.password)
    && form.password == form.confirm
    && form.confirm != ""
  }

  /** The form is valid exactly when every field passes `validateField`, so
      the button is enabled exactly when no field shows an error. */
  lemma {:induction false} FormValidIffEveryField(form: Form)
    ensures IsFormValid(form) <==> forall f: FormField :: ValidateField(form, f)
  {
    if forall f: FormField :: ValidateField(form, f) {
      assert ValidateField(form, Names) && ValidateField(form, Surnames) && ValidateField(form, AgeInput);
      assert ValidateField(form, EmailInput) && ValidateField(form, PasswordInput) && ValidateField(form, Confirm);
    }
  }

  /** The body of the registration request. */
  datatype Payload = Payload(name: string, lastName: string, age: Option<int>, email: string, password: string)

  /** The submit handler: nothing is sent unless the form is valid; the names,
      surnames and e-mail are trimmed, the password is sent as typed. */
  function Submit(form: Form): (p: Option<Payload>)
    ensures p.Some? <==> IsFormValid(form)
    ensures p.Some? ==> p.value.password == form.password && p.value.age == ParseInt(form.age)
    ensures p.Some? ==>
              p.value.name == Trim(form.names) && p.value.lastName == Trim(form.surnames)
              && p.value.email == Trim(form.email)
    ensures p.Some? ==> IsTrimmed(p.value.name) && IsTrimmed(p.value.lastName) && IsTrimmed(p.value.email)
    ensures p.Some? ==> p.value.name != "" && p.value.lastName != ""
  {
    if !IsFormValid(form) then None
    else Some(Payload(Trim(form.names), Trim(form.surnames), ParseInt(form.age), Trim(form.email), form.password))
  }

  /** The document the server builds from a payload. */
  function ServerDoc(p: Payload): UserModel.UserDoc
  {
    UserModel.NewUserDoc(Some(p.name), Some(p.lastName), p.age, Some(p.email), Some(p.password))
  }

  /** Every password the form accepts satisfies the schema's pattern, and so
      the reset handler's own check as well. */
  lemma {:induction false} FormPasswordIsStrongEnough(s: string)
    requires FormPassword(s)
    ensures UserModel.PasswordPattern(s)
    ensures s != "" && |s| >= 8
  {
  }

  /** Every e-mail the schema's pattern accepts, the form accepts too. */
  lemma {:induction false} SchemaEmailPassesForm(s: string)
    requires UserModel.EmailPattern(s)
    ensures FormEmail(s)
  {
    var i, j :| 1 <= i && i + 2 <= j && j + 2 <= |s| && s[i] == '@' && s[j] == '.';
    assert !IsSpace(s[i - 1]) && !IsSpace(s[j + 1]);
    assert FormEmailAt(s, i, j);
  }

  /** A payload the form lets through can only be refused by the server for
      its e-mail: name, last name, age and password all pass the schema. */
  lemma {:induction false} SubmittedPassesAllButEmail(form: Form)
    requires Submit(form).Some?
    ensures var d := ServerDoc(Submit(form).value);
            && UserModel.NameOk(d) && UserModel.LastNameOk(d) && UserModel.AgeOk(d) && UserModel.PasswordOk(d)
            && (UserModel.DocValid(d) <==> UserModel.EmailOk(d))
  {
    var p := Submit(form).value;
    var d := ServerDoc(p);
    TrimmedIsFixed(p.name);
    assert d.name == Some(p.name);
    FormPasswordIsStrongEnough(form.password);
    assert d.password == Some(UserModel.Plain(form.password));
  }

  /** The form's e-mail rule is looser than the schema's: a submitted
      address with white space inside passes the form, and the server refuses
      it. */
  lemma {:induction false} SpaceInsideEmailRefused(form: Form)
    requires Submit(form).Some? && HasSpace(Trim(form.email))
    ensures !UserModel.EmailOk(ServerDoc(Submit(form).value))
  {
    var t := Trim(form.email);
    var p := Submit(form).value;
    assert p.email == t;
    var d := ServerDoc(p);
    assert d.email == Some(ToLower(t));
    ToLowerKeepsSpace(t);
  }

  /** Such an address exists: "a b@c.de" passes the form's e-mail rule. */
  lemma {:induction false} FormEmailAllowsInnerSpace()
    ensures FormEmail("a b@c.de") && HasSpace(Trim("a b@c.de"))
  {
    assert FormEmailAt("a b@c.de", 3, 5);
    TrimmedIsFixed("a b@c.de");
    assert IsSpace("a b@c.de"[1]);
  }
}
